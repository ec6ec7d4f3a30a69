/**
 Process protocol v1: the message kinds, their validation, and their form as Bridge Value maps
 that are written in one order and read in any order.
 */
module Protocol {
  import opened Bytes
  import BV = BridgeValue
  import D = Decoding

  type Value = BV.Value
  type Entry = BV.Entry

  const PROTOCOL_VERSION: i64 := 1
  const MAX_FRAME_BYTES := 16 * 1024 * 1024
  const MAX_ERROR_MESSAGE_BYTES := 4096

  /** Io stands for any failure of the underlying stream. */
  datatype ProtocolError = Io | InvalidData(reason: string)

  datatype Outcome<+T> = Success(value: T) | Failure(error: ProtocolError) {
    predicate IsFailure() { Failure? }
    function PropagateFailure<U>(): Outcome<U>
      requires Failure?
    {
      Failure(error)
    }
    function Extract(): T
      requires Success?
    {
      value
    }
  }

  function Invalid<T>(reason: string): Outcome<T> { Failure(InvalidData(reason)) }

  // ---------------------------------------------------------------- messages

  datatype Kind =
    | HelloKind | LoadKind | EnableKind | InvokeKind | DisableKind | ShutdownKind
    | OkKind | ResultKind | ErrorKind
    | BridgeInvokeKind | RetainHandleKind | ReleaseHandleKind | CallbackResultKind | CallbackErrorKind

  datatype MessageBody =
    | Hello
    | Load(packageRoot: Text, entrypoint: Text, pluginId: u64, session: u64)
    | Enable
    | Invoke(operation: Text, input: seq<byte>, callbackId: u64)
    | Disable
    | Shutdown
    | OkReply
    | ResultReply(output: seq<byte>)
    | ErrorReply(code: Text, message: Text)
    | BridgeInvoke(operation: Text, input: seq<byte>)
    | RetainHandle(objectId: u64, generation: u64)
    | ReleaseHandle(objectId: u64, generation: u64)
    | CallbackResult(output: seq<byte>)
    | CallbackError(code: Text)

  /** A message as stored; only `NewMessage` makes one, so every message is `WellFormed`. */
  datatype Message = Message(requestId: u64, body: MessageBody)

  function KindOf(body: MessageBody): Kind {
    match body
    case Hello => HelloKind
    case Load(_, _, _, _) => LoadKind
    case Enable => EnableKind
    case Invoke(_, _, _) => InvokeKind
    case Disable => DisableKind
    case Shutdown => ShutdownKind
    case OkReply => OkKind
    case ResultReply(_) => ResultKind
    case ErrorReply(_, _) => ErrorKind
    case BridgeInvoke(_, _) => BridgeInvokeKind
    case RetainHandle(_, _) => RetainHandleKind
    case ReleaseHandle(_, _) => ReleaseHandleKind
    case CallbackResult(_) => CallbackResultKind
    case CallbackError(_) => CallbackErrorKind
  }

  function KindLiteral(kind: Kind): string {
    match kind
    case HelloKind => "hello"
    case LoadKind => "load"
    case EnableKind => "enable"
    case InvokeKind => "invoke"
    case DisableKind => "disable"
    case ShutdownKind => "shutdown"
    case OkKind => "ok"
    case ResultKind => "result"
    case ErrorKind => "error"
    case BridgeInvokeKind => "bridge-invoke"
    case RetainHandleKind => "retain-handle"
    case ReleaseHandleKind => "release-handle"
    case CallbackResultKind => "callback-result"
    case CallbackErrorKind => "callback-error"
  }

  function KindText(kind: Kind): Text { Ascii(KindLiteral(kind)) }

  /** The match on the kind string. */
  function ParseKind(t: Text): Option<Kind> {
    if t == KindText(HelloKind) then Some(HelloKind)
    else if t == KindText(LoadKind) then Some(LoadKind)
    else if t == KindText(EnableKind) then Some(EnableKind)
    else if t == KindText(InvokeKind) then Some(InvokeKind)
    else if t == KindText(DisableKind) then Some(DisableKind)
    else if t == KindText(ShutdownKind) then Some(ShutdownKind)
    else if t == KindText(OkKind) then Some(OkKind)
    else if t == KindText(ResultKind) then Some(ResultKind)
    else if t == KindText(ErrorKind) then Some(ErrorKind)
    else if t == KindText(BridgeInvokeKind) then Some(BridgeInvokeKind)
    else if t == KindText(RetainHandleKind) then Some(RetainHandleKind)
    else if t == KindText(ReleaseHandleKind) then Some(ReleaseHandleKind)
    else if t == KindText(CallbackResultKind) then Some(CallbackResultKind)
    else if t == KindText(CallbackErrorKind) then Some(CallbackErrorKind)
    else None
  }

  /** Whether the kind belongs to the child's callback ID space. */
  predicate UsesEvenId(body: MessageBody) {
    || body.BridgeInvoke? || body.RetainHandle? || body.ReleaseHandle?
    || body.CallbackResult? || body.CallbackError?
  }

  // ---------------------------------------------------------------- validation

  function RequireText(text: Text, reason: string): Outcome<()> {
    if Blank(text) then Invalid(reason) else Success(())
  }

  function RequirePositive(id: u64, reason: string): Outcome<()> {
    if id == 0 || id >= I64_LIMIT then Invalid(reason) else Success(())
  }

  function RequireNonnegative(id: u64, reason: string): Outcome<()> {
    if id >= I64_LIMIT then Invalid(reason) else Success(())
  }

  predicate ValidCode(code: seq<byte>) {
    |code| <= BV.MAX_METADATA_BYTES && BV.Kebab(code, false)
  }

  function RequireCode(code: Text): Outcome<()> {
    if ValidCode(code) then Success(()) else Invalid("error code must be lower-case kebab text")
  }

  function Validate(body: MessageBody): Outcome<()> {
    match body
    case Load(packageRoot, entrypoint, pluginId, session) =>
      var _ :- RequireText(packageRoot, "package root must not be blank");
      var _ :- RequireText(entrypoint, "entrypoint must not be blank");
      var _ :- RequirePositive(pluginId, "plugin ID must be positive");
      RequirePositive(session, "session ID must be positive")
    case Invoke(operation, _, callbackId) =>
      var _ :- RequireText(operation, "operation must not be blank");
      RequireNonnegative(callbackId, "callback ID exceeds signed-64 range")
    case ErrorReply(code, message) =>
      var _ :- RequireCode(code);
      var _ :- RequireText(message, "error message must not be blank");
      if |message| > MAX_ERROR_MESSAGE_BYTES then Invalid("error message exceeds 4096 UTF-8 bytes")
      else Success(())
    case BridgeInvoke(operation, _) =>
      RequireText(operation, "Bridge operation must not be blank")
    case RetainHandle(objectId, generation) =>
      var _ :- RequirePositive(objectId, "object ID must be positive");
      RequirePositive(generation, "handle generation must be positive")
    case ReleaseHandle(objectId, generation) =>
      var _ :- RequirePositive(objectId, "object ID must be positive");
      RequirePositive(generation, "handle generation must be positive")
    case CallbackError(code) => RequireCode(code)
    case _ => Success(())
  }

  function NewMessage(requestId: u64, body: MessageBody): (r: Outcome<Message>)
    ensures r.Success? ==> r.value == Message(requestId, body)
  {
    if requestId == 0 || requestId >= I64_LIMIT then
      Invalid("request ID must be a positive signed-64 integer")
    else if (requestId % 2 == 0) != UsesEvenId(body) then
      Invalid("request ID belongs to the other protocol direction")
    else
      var _ :- Validate(body);
      Success(Message(requestId, body))
  }

  predicate WellFormed(m: Message) {
    NewMessage(m.requestId, m.body) == Success(m)
  }

  // ---------------------------------------------------------------- messages as values

  /** The payload map of a valid body. `id_value` cannot fail here: validation bounds every ID. */
  function Fields(body: MessageBody): seq<Entry>
    requires Validate(body).Success?
  {
    match body
    case Load(packageRoot, entrypoint, pluginId, session) =>
      [BV.Entry(Ascii("packageRoot"), BV.String(packageRoot)),
       BV.Entry(Ascii("entrypoint"), BV.String(entrypoint)),
       BV.Entry(Ascii("pluginId"), BV.Integer(pluginId)),
       BV.Entry(Ascii("session"), BV.Integer(session))]
    case Invoke(operation, input, callbackId) =>
      [BV.Entry(Ascii("operation"), BV.String(operation)),
       BV.Entry(Ascii("input"), BV.Bytes(input)),
       BV.Entry(Ascii("callbackId"), BV.Integer(callbackId))]
    case ResultReply(output) => [BV.Entry(Ascii("output"), BV.Bytes(output))]
    case ErrorReply(code, message) =>
      [BV.Entry(Ascii("code"), BV.String(code)),
       BV.Entry(Ascii("message"), BV.String(message))]
    case BridgeInvoke(operation, input) =>
      [BV.Entry(Ascii("operation"), BV.String(operation)),
       BV.Entry(Ascii("input"), BV.Bytes(input))]
    case RetainHandle(objectId, generation) => HandleFields(objectId, generation)
    case ReleaseHandle(objectId, generation) => HandleFields(objectId, generation)
    case CallbackResult(output) => [BV.Entry(Ascii("output"), BV.Bytes(output))]
    case CallbackError(code) => [BV.Entry(Ascii("code"), BV.String(code))]
    case _ => []
  }

  function HandleFields(objectId: u64, generation: u64): seq<Entry>
    requires objectId < I64_LIMIT && generation < I64_LIMIT
  {
    [BV.Entry(Ascii("objectId"), BV.Integer(objectId)),
     BV.Entry(Ascii("generation"), BV.Integer(generation))]
  }

  function Envelope(requestId: u64, kind: Text, payload: seq<Entry>): seq<Entry>
    requires requestId < I64_LIMIT
  {
    [BV.Entry(Ascii("protocolVersion"), BV.Integer(PROTOCOL_VERSION)),
     BV.Entry(Ascii("requestId"), BV.Integer(requestId)),
     BV.Entry(Ascii("kind"), BV.String(kind)),
     BV.Entry(Ascii("payload"), BV.Map(payload))]
  }

  /** The map a well-formed message is written as. */
  function CanonicalValue(m: Message): Value
    requires WellFormed(m)
  {
    BV.Map(Envelope(m.requestId, KindText(KindOf(m.body)), Fields(m.body)))
  }

  /** `Message::to_wire`. */
  function ToWire(m: Message): Outcome<seq<byte>>
    requires WellFormed(m)
  {
    match BV.ToWire(CanonicalValue(m))
    case Ok(bytes) => Success(bytes)
    case Err(_) => Invalid("message cannot be encoded as Bridge Value v1")
  }

  // ---------------------------------------------------------------- values as messages

  predicate HasKey(entries: seq<Entry>, name: Text) {
    exists i | 0 <= i < |entries| :: entries[i].key == name
  }

  function ExactMap(v: Value, names: seq<Text>): Outcome<seq<Entry>> {
    if !v.Map? then Invalid("message value must be a map")
    else if |v.entries| != |names| || !(forall i | 0 <= i < |names| :: HasKey(v.entries, names[i]))
    then Invalid("message map has unknown or missing fields")
    else Success(v.entries)
  }

  function Field(entries: seq<Entry>, name: Text): Outcome<Value> {
    match BV.Find(entries, name)
    case Some(v) => Success(v)
    case None => Invalid("message map is missing a required field")
  }

  function IntegerOf(v: Value): Outcome<i64> {
    if v.Integer? then Success(v.number) else Invalid("message field must be an integer")
  }

  function PositiveId(v: Value): Outcome<u64> {
    var number :- IntegerOf(v);
    if number > 0 then Success(number) else Invalid("message identifier must be positive")
  }

  function NonnegativeId(v: Value): Outcome<u64> {
    var number :- IntegerOf(v);
    if number >= 0 then Success(number) else Invalid("message identifier must be nonnegative")
  }

  function StringOf(v: Value): Outcome<Text> {
    if v.String? then Success(v.text) else Invalid("message field must be a string")
  }

  function BytesOf(v: Value): Outcome<seq<byte>> {
    if v.Bytes? then Success(v.bytes) else Invalid("message field must be bytes")
  }

  function FieldString(entries: seq<Entry>, name: Text): Outcome<Text> {
    var v :- Field(entries, name);
    StringOf(v)
  }

  function FieldBytes(entries: seq<Entry>, name: Text): Outcome<seq<byte>> {
    var v :- Field(entries, name);
    BytesOf(v)
  }

  function FieldPositive(entries: seq<Entry>, name: Text): Outcome<u64> {
    var v :- Field(entries, name);
    PositiveId(v)
  }

  /** The field names of each kind's payload, in the order of the match arms. */
  function Names(kind: Kind): seq<Text> {
    match kind
    case LoadKind => [Ascii("packageRoot"), Ascii("entrypoint"), Ascii("pluginId"), Ascii("session")]
    case InvokeKind => [Ascii("operation"), Ascii("input"), Ascii("callbackId")]
    case ResultKind => [Ascii("output")]
    case ErrorKind => [Ascii("code"), Ascii("message")]
    case BridgeInvokeKind => [Ascii("operation"), Ascii("input")]
    case RetainHandleKind => [Ascii("objectId"), Ascii("generation")]
    case ReleaseHandleKind => [Ascii("objectId"), Ascii("generation")]
    case CallbackResultKind => [Ascii("output")]
    case CallbackErrorKind => [Ascii("code")]
    case _ => []
  }

  function BodyFromFields(kind: Kind, f: seq<Entry>): Outcome<MessageBody> {
    match kind
    case HelloKind => Success(Hello)
    case LoadKind =>
      var packageRoot :- FieldString(f, Ascii("packageRoot"));
      var entrypoint :- FieldString(f, Ascii("entrypoint"));
      var pluginId :- FieldPositive(f, Ascii("pluginId"));
      var session :- FieldPositive(f, Ascii("session"));
      Success(Load(packageRoot, entrypoint, pluginId, session))
    case EnableKind => Success(Enable)
    case InvokeKind =>
      var operation :- FieldString(f, Ascii("operation"));
      var input :- FieldBytes(f, Ascii("input"));
      var v :- Field(f, Ascii("callbackId"));
      var callbackId :- NonnegativeId(v);
      Success(Invoke(operation, input, callbackId))
    case DisableKind => Success(Disable)
    case ShutdownKind => Success(Shutdown)
    case OkKind => Success(OkReply)
    case ResultKind =>
      var output :- FieldBytes(f, Ascii("output"));
      Success(ResultReply(output))
    case ErrorKind =>
      var code :- FieldString(f, Ascii("code"));
      var message :- FieldString(f, Ascii("message"));
      Success(ErrorReply(code, message))
    case BridgeInvokeKind =>
      var operation :- FieldString(f, Ascii("operation"));
      var input :- FieldBytes(f, Ascii("input"));
      Success(BridgeInvoke(operation, input))
    case RetainHandleKind =>
      var objectId :- FieldPositive(f, Ascii("objectId"));
      var generation :- FieldPositive(f, Ascii("generation"));
      Success(RetainHandle(objectId, generation))
    case ReleaseHandleKind =>
      var objectId :- FieldPositive(f, Ascii("objectId"));
      var generation :- FieldPositive(f, Ascii("generation"));
      Success(ReleaseHandle(objectId, generation))
    case CallbackResultKind =>
      var output :- FieldBytes(f, Ascii("output"));
      Success(CallbackResult(output))
    case CallbackErrorKind =>
      var code :- FieldString(f, Ascii("code"));
      Success(CallbackError(code))
  }

  /** `MessageBody::from_value`. */
  function BodyFromValue(kind: Text, payload: Value): Outcome<MessageBody> {
    match ParseKind(kind)
    case None => Invalid("unsupported message kind")
    case Some(k) =>
      var fields :- ExactMap(payload, Names(k));
      var body :- BodyFromFields(k, fields);
      var _ :- Validate(body);
      Success(body)
  }

  function EnvelopeNames(): seq<Text> {
    [Ascii("protocolVersion"), Ascii("requestId"), Ascii("kind"), Ascii("payload")]
  }

  /** The request ID and body an envelope carries. */
  function ParseEnvelope(v: Value): Outcome<(u64, MessageBody)> {
    var envelope :- ExactMap(v, EnvelopeNames());
    var versionValue :- Field(envelope, Ascii("protocolVersion"));
    var version :- IntegerOf(versionValue);
    if version != PROTOCOL_VERSION then Invalid("unsupported protocol version")
    else
      var requestId :- FieldPositive(envelope, Ascii("requestId"));
      var kind :- FieldString(envelope, Ascii("kind"));
      var payload :- Field(envelope, Ascii("payload"));
      var body :- BodyFromValue(kind, payload);
      Success((requestId, body))
  }

  function FromEnvelope(v: Value): (r: Outcome<Message>)
    ensures r.Success? ==> WellFormed(r.value)
  {
    match ParseEnvelope(v)
    case Failure(error) => Failure(error)
    case Success((requestId, body)) => NewMessage(requestId, body)
  }

  /** `Message::from_wire`. */
  function FromWire(input: seq<byte>): (r: Outcome<Message>)
    ensures r.Success? ==> WellFormed(r.value)
  {
    match D.FromWire(input)
    case Err(_) => Invalid("invalid Bridge Value v1 message")
    case Ok(v) => FromEnvelope(v)
  }

  /** `require_code`: the scanner with the `separator` flag. */
  method ScanCode(code: Text) returns (ok: bool)
    ensures ok <==> RequireCode(code).Success?
  {
    if code == [] {
      return false;
    }
    if !BV.Lower(code[0]) {
      return false;
    }
    var separator := false;
    for i := 1 to |code|
      invariant separator == BV.Separator(code[i - 1], false)
      invariant forall k | 0 <= k < i :: BV.Alphanumeric(code[k]) || BV.Separator(code[k], false)
      invariant forall k | 0 < k < i :: !(BV.Separator(code[k - 1], false) && BV.Separator(code[k], false))
    {
      if code[i] == 0x2D {
        if separator {
          return false;
        }
        separator := true;
      } else if BV.Alphanumeric(code[i]) {
        separator := false;
      } else {
        return false;
      }
    }
    ok := !(separator || |code| > BV.MAX_METADATA_BYTES);
  }
}
