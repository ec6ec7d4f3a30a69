/**
 Which messages there are, and what stands under which name in their encoding, written down as tables:
 the rules of every kind in the order in which they are applied, and the documented map of every kind.
 */
module Validation {
  import opened Bytes
  import BV = BridgeValue
  import CL = CodecLaws
  import D = Decoding
  import MO = MapOrder
  import PL = ProtocolLaws
  import S = Scanner
  import U = Unicode
  import opened Protocol

  // ---------------------------------------------------------------- the rules of every kind

  datatype Rule = Rule(holds: bool, reason: string)

  /** Some code point is not white space. */
  ghost predicate Visible(t: Text) {
    Utf8IsScalars(t);
    exists i | 0 <= i < |U.Points(t)| :: !U.White(U.Points(t)[i])
  }

  /** A word of the language of error codes, of at most 128 bytes. */
  ghost predicate Code(t: Text) {
    |t| <= 128 && S.Matches(S.KebabRegex(false), t)
  }

  predicate Positive(id: u64) { 1 <= id <= 0x7FFF_FFFF_FFFF_FFFF }

  ghost function BodyRules(body: MessageBody): seq<Rule> {
    match body
    case Load(packageRoot, entrypoint, pluginId, session) =>
      [Rule(Visible(packageRoot), "package root must not be blank"),
       Rule(Visible(entrypoint), "entrypoint must not be blank"),
       Rule(Positive(pluginId), "plugin ID must be positive"),
       Rule(Positive(session), "session ID must be positive")]
    case Invoke(operation, _, callbackId) =>
      [Rule(Visible(operation), "operation must not be blank"),
       Rule(callbackId == 0 || Positive(callbackId), "callback ID exceeds signed-64 range")]
    case ErrorReply(code, message) =>
      [Rule(Code(code), "error code must be lower-case kebab text"),
       Rule(Visible(message), "error message must not be blank"),
       Rule(|message| <= 4096, "error message exceeds 4096 UTF-8 bytes")]
    case BridgeInvoke(operation, _) => [Rule(Visible(operation), "Bridge operation must not be blank")]
    case RetainHandle(objectId, generation) => HandleRules(objectId, generation)
    case ReleaseHandle(objectId, generation) => HandleRules(objectId, generation)
    case CallbackError(code) => [Rule(Code(code), "error code must be lower-case kebab text")]
    case Hello => []
    case Enable => []
    case Disable => []
    case Shutdown => []
    case OkReply => []
    case ResultReply(_) => []
    case CallbackResult(_) => []
  }

  function HandleRules(objectId: u64, generation: u64): seq<Rule> {
    [Rule(Positive(objectId), "object ID must be positive"),
     Rule(Positive(generation), "handle generation must be positive")]
  }

  /** Commands and their replies have odd IDs, callbacks and their responses even ones. */
  predicate RightParity(id: u64, body: MessageBody) {
    match body
    case BridgeInvoke(_, _) => id % 2 == 0
    case RetainHandle(_, _) => id % 2 == 0
    case ReleaseHandle(_, _) => id % 2 == 0
    case CallbackResult(_) => id % 2 == 0
    case CallbackError(_) => id % 2 == 0
    case _ => id % 2 == 1
  }

  ghost function Rules(id: u64, body: MessageBody): seq<Rule> {
    [Rule(Positive(id), "request ID must be a positive signed-64 integer"),
     Rule(RightParity(id, body), "request ID belongs to the other protocol direction")]
    + BodyRules(body)
  }

  /** The first broken rule decides. */
  function Judge(rules: seq<Rule>): (r: Outcome<()>)
    ensures r.Failure? ==> r.error.InvalidData?
  {
    if rules == [] then Success(())
    else if rules[0].holds then Judge(rules[1..])
    else Invalid(rules[0].reason)
  }

  lemma {:induction false} JudgeExact(rules: seq<Rule>)
    ensures Judge(rules).Success? <==> forall i | 0 <= i < |rules| :: rules[i].holds
  {
    if rules != [] {
      JudgeExact(rules[1..]);
      assert forall i | 0 < i < |rules| :: rules[i] == rules[1..][i - 1];
    }
  }

  lemma VisibleExact(t: Text)
    ensures Visible(t) <==> !Blank(t)
  {
    hide Blank, U.White;
    U.BlankText(t);
  }

  lemma CodeExact(t: Text)
    ensures Code(t) <==> ValidCode(t)
  {
    hide S.Matches, BV.Kebab;
    S.KebabIsRegular(t, false);
  }

  lemma JudgeSteps(rules: seq<Rule>)
    requires |rules| <= 4
    ensures Judge(rules) ==
            if |rules| > 0 && !rules[0].holds then Invalid(rules[0].reason)
            else if |rules| > 1 && !rules[1].holds then Invalid(rules[1].reason)
            else if |rules| > 2 && !rules[2].holds then Invalid(rules[2].reason)
            else if |rules| > 3 && !rules[3].holds then Invalid(rules[3].reason)
            else Success(())
  {
    if |rules| > 1 {
      JudgeSteps(rules[1..]);
    }
  }

  lemma LoadExact(body: MessageBody)
    requires body.Load?
    ensures Validate(body) == Judge(BodyRules(body))
  {
    hide Visible, Code, Blank, ValidCode, Judge;
    JudgeSteps(BodyRules(body));
    VisibleExact(body.packageRoot);
    VisibleExact(body.entrypoint);
  }

  lemma InvokeExact(body: MessageBody)
    requires body.Invoke? || body.BridgeInvoke?
    ensures Validate(body) == Judge(BodyRules(body))
  {
    hide Visible, Code, Blank, ValidCode, Judge;
    JudgeSteps(BodyRules(body));
    VisibleExact(body.operation);
  }

  lemma ErrorExact(body: MessageBody)
    requires body.ErrorReply? || body.CallbackError?
    ensures Validate(body) == Judge(BodyRules(body))
  {
    hide Visible, Code, Blank, ValidCode, Judge;
    JudgeSteps(BodyRules(body));
    CodeExact(body.code);
    if body.ErrorReply? {
      VisibleExact(body.message);
    }
  }

  lemma HandleExact(body: MessageBody)
    requires body.RetainHandle? || body.ReleaseHandle?
    ensures Validate(body) == Judge(BodyRules(body))
  {
    hide Visible, Code, Blank, ValidCode, Judge;
    JudgeSteps(BodyRules(body));
  }

  lemma ValidateExact(body: MessageBody)
    ensures Validate(body) == Judge(BodyRules(body))
  {
    hide Visible, Code, Blank, ValidCode;
    if body.Load? {
      LoadExact(body);
    } else if body.Invoke? || body.BridgeInvoke? {
      InvokeExact(body);
    } else if body.ErrorReply? || body.CallbackError? {
      ErrorExact(body);
    } else if body.RetainHandle? || body.ReleaseHandle? {
      HandleExact(body);
    }
  }

  /** Every message of every kind: it is made exactly when all rules of its kind hold, and otherwise
      refused for the first that does not. */
  lemma NewMessageExact(id: u64, body: MessageBody)
    ensures NewMessage(id, body) ==
            match Judge(Rules(id, body))
            case Success(_) => Success(Message(id, body))
            case Failure(error) => Failure(error)
    ensures NewMessage(id, body).Success? <==> forall i | 0 <= i < |Rules(id, body)| :: Rules(id, body)[i].holds
  {
    hide Validate, BodyRules, Judge;
    ValidateExact(body);
    JudgeExact(Rules(id, body));
    var rules := Rules(id, body);
    JudgeHead(rules);
    JudgeHead(rules[1..]);
    assert rules[1..][1..] == BodyRules(body);
  }

  lemma JudgeHead(rules: seq<Rule>)
    requires rules != []
    ensures Judge(rules) == if rules[0].holds then Judge(rules[1..]) else Invalid(rules[0].reason)
  {
  }

  // ---------------------------------------------------------------- the documented maps

  function Number(id: u64): Value {
    BV.Integer(if id < I64_LIMIT then id else 0)
  }

  function Named(name: string, v: Value): Entry {
    BV.Entry(Ascii(name), v)
  }

  /** Kind and payload of a body, by name. */
  function Documented(body: MessageBody): (string, seq<Entry>) {
    match body
    case Hello => ("hello", [])
    case Load(packageRoot, entrypoint, pluginId, session) =>
      ("load", [Named("packageRoot", BV.String(packageRoot)), Named("entrypoint", BV.String(entrypoint)),
                Named("pluginId", Number(pluginId)), Named("session", Number(session))])
    case Enable => ("enable", [])
    case Invoke(operation, input, callbackId) =>
      ("invoke", [Named("operation", BV.String(operation)), Named("input", BV.Bytes(input)),
                  Named("callbackId", Number(callbackId))])
    case Disable => ("disable", [])
    case Shutdown => ("shutdown", [])
    case OkReply => ("ok", [])
    case ResultReply(output) => ("result", [Named("output", BV.Bytes(output))])
    case ErrorReply(code, message) =>
      ("error", [Named("code", BV.String(code)), Named("message", BV.String(message))])
    case BridgeInvoke(operation, input) =>
      ("bridge-invoke", [Named("operation", BV.String(operation)), Named("input", BV.Bytes(input))])
    case RetainHandle(objectId, generation) =>
      ("retain-handle", [Named("objectId", Number(objectId)), Named("generation", Number(generation))])
    case ReleaseHandle(objectId, generation) =>
      ("release-handle", [Named("objectId", Number(objectId)), Named("generation", Number(generation))])
    case CallbackResult(output) => ("callback-result", [Named("output", BV.Bytes(output))])
    case CallbackError(code) => ("callback-error", [Named("code", BV.String(code))])
  }

  /** What a written message decodes to as a value, name by name. */
  lemma WrittenAsDocumented(m: Message)
    requires WellFormed(m) && ToWire(m).Success?
    ensures D.FromWire(ToWire(m).value) == BV.Ok(BV.Map([
              Named("protocolVersion", BV.Integer(1)),
              Named("requestId", Number(m.requestId)),
              Named("kind", BV.String(Ascii(Documented(m.body).0))),
              Named("payload", BV.Map(Documented(m.body).1))]))
  {
    hide D.FromWire, BV.ToWire, Validate, Ascii, Fields, KindLiteral, Documented;
    CL.EncodeThenDecode(CanonicalValue(m));
    BodyIsDocumented(m.body);
  }

  lemma BodyIsDocumented(body: MessageBody)
    requires Validate(body).Success?
    ensures Fields(body) == Documented(body).1 && KindLiteral(KindOf(body)) == Documented(body).0
  {
    hide Validate, Ascii;
    PL.ValidIds(body);
  }

  // ---------------------------------------------------------------- why bytes are no message

  datatype FieldType = TextField | BytesField | PositiveField | NonnegativeField

  /** The fields of every kind's payload, in the order in which they are read. */
  function Schema(kind: Kind): seq<(string, FieldType)> {
    match kind
    case LoadKind =>
      [("packageRoot", TextField), ("entrypoint", TextField), ("pluginId", PositiveField), ("session", PositiveField)]
    case InvokeKind => [("operation", TextField), ("input", BytesField), ("callbackId", NonnegativeField)]
    case ResultKind => [("output", BytesField)]
    case ErrorKind => [("code", TextField), ("message", TextField)]
    case BridgeInvokeKind => [("operation", TextField), ("input", BytesField)]
    case RetainHandleKind => [("objectId", PositiveField), ("generation", PositiveField)]
    case ReleaseHandleKind => [("objectId", PositiveField), ("generation", PositiveField)]
    case CallbackResultKind => [("output", BytesField)]
    case CallbackErrorKind => [("code", TextField)]
    case _ => []
  }

  function Get(v: Value, name: string): Value {
    if v.Map? && BV.Find(v.entries, Ascii(name)).Some? then BV.Find(v.entries, Ascii(name)).value else BV.Null
  }

  function FieldRules(v: Value, field: (string, FieldType)): seq<Rule> {
    var x := Get(v, field.0);
    match field.1
    case TextField => [Rule(x.String?, "message field must be a string")]
    case BytesField => [Rule(x.Bytes?, "message field must be bytes")]
    case PositiveField =>
      [Rule(x.Integer?, "message field must be an integer"),
       Rule(x.Integer? && x.number >= 1, "message identifier must be positive")]
    case NonnegativeField =>
      [Rule(x.Integer?, "message field must be an integer"),
       Rule(x.Integer? && x.number >= 0, "message identifier must be nonnegative")]
  }

  function AllFieldRules(v: Value, fields: seq<(string, FieldType)>): seq<Rule> {
    if fields == [] then [] else FieldRules(v, fields[0]) + AllFieldRules(v, fields[1..])
  }

  function NamesOf(fields: seq<(string, FieldType)>): (names: seq<Text>)
    ensures |names| == |fields| && forall i | 0 <= i < |fields| :: names[i] == Ascii(fields[i].0)
  {
    if fields == [] then [] else [Ascii(fields[0].0)] + NamesOf(fields[1..])
  }

  /** A map with just these keys. */
  function MapRules(v: Value, names: seq<Text>): seq<Rule> {
    [Rule(v.Map?, "message value must be a map"),
     Rule(v.Map? && |v.entries| == |names| && (forall i | 0 <= i < |names| :: HasKey(v.entries, names[i])),
          "message map has unknown or missing fields")]
  }

  function PayloadRules(kind: Kind, payload: Value): seq<Rule> {
    MapRules(payload, NamesOf(Schema(kind))) + AllFieldRules(payload, Schema(kind))
  }

  const KINDS := [
    "hello", "load", "enable", "invoke", "disable", "shutdown", "ok", "result", "error", "bridge-invoke",
    "retain-handle", "release-handle", "callback-result", "callback-error"]

  function EnvelopeRules(v: Value): seq<Rule> {
    MapRules(v, [Ascii("protocolVersion"), Ascii("requestId"), Ascii("kind"), Ascii("payload")])
    + [Rule(Get(v, "protocolVersion").Integer?, "message field must be an integer"),
       Rule(Get(v, "protocolVersion") == BV.Integer(1), "unsupported protocol version")]
    + (FieldRules(v, ("requestId", PositiveField)) + FieldRules(v, ("kind", TextField)))
    + [Rule(exists i | 0 <= i < |KINDS| :: Get(v, "kind") == BV.String(Ascii(KINDS[i])), "unsupported message kind")]
  }

  lemma {:induction false} JudgeBoth(a: seq<Rule>, b: seq<Rule>)
    ensures Judge(a + b) == if Judge(a).Failure? then Judge(a) else Judge(b)
  {
    if a == [] {
      assert a + b == b;
    } else {
      JudgeBoth(a[1..], b);
      assert (a + b)[1..] == a[1..] + b;
    }
  }

  /** The same error, or none in both. */
  predicate Agree<A, B>(a: Outcome<A>, b: Outcome<B>) {
    match a
    case Failure(error) => b.Failure? && b.error == error
    case Success(_) => b.Success?
  }

  lemma MapRulesExact(v: Value, names: seq<Text>)
    ensures Agree(ExactMap(v, names), Judge(MapRules(v, names)))
  {
    hide HasKey;
    JudgeSteps(MapRules(v, names));
  }

  lemma FieldRulesExact(f: seq<Entry>, field: (string, FieldType))
    requires HasKey(f, Ascii(field.0))
    ensures var r, name := Judge(FieldRules(BV.Map(f), field)), Ascii(field.0);
            match field.1
            case TextField => Agree(FieldString(f, name), r)
            case BytesField => Agree(FieldBytes(f, name), r)
            case PositiveField => Agree(FieldPositive(f, name), r)
            case NonnegativeField =>
              && Field(f, name).Success?
              && Agree(NonnegativeId(Field(f, name).value), r)
  {
    hide Ascii, BV.FirstMatch;
    MO.FindFirst(f, Ascii(field.0));
    JudgeSteps(FieldRules(BV.Map(f), field));
  }

  lemma FieldsHead(v: Value, fields: seq<(string, FieldType)>)
    requires fields != []
    ensures Judge(AllFieldRules(v, fields)) ==
            var first := Judge(FieldRules(v, fields[0]));
            if first.Failure? then first else Judge(AllFieldRules(v, fields[1..]))
  {
    JudgeBoth(FieldRules(v, fields[0]), AllFieldRules(v, fields[1..]));
  }

  /** The fields of a list of at most four, judged one after the other. */
  lemma FieldsInTurn(v: Value, fields: seq<(string, FieldType)>)
    requires |fields| <= 4
    ensures Judge(AllFieldRules(v, fields)) ==
            if |fields| > 0 && Judge(FieldRules(v, fields[0])).Failure? then Judge(FieldRules(v, fields[0]))
            else if |fields| > 1 && Judge(FieldRules(v, fields[1])).Failure? then Judge(FieldRules(v, fields[1]))
            else if |fields| > 2 && Judge(FieldRules(v, fields[2])).Failure? then Judge(FieldRules(v, fields[2]))
            else if |fields| > 3 && Judge(FieldRules(v, fields[3])).Failure? then Judge(FieldRules(v, fields[3]))
            else Success(())
  {
    hide FieldRules;
    if fields != [] {
      FieldsHead(v, fields);
      FieldsInTurn(v, fields[1..]);
    }
  }

  lemma FieldsExact(kind: Kind, f: seq<Entry>)
    requires forall i | 0 <= i < |Schema(kind)| :: HasKey(f, Ascii(Schema(kind)[i].0))
    ensures Agree(BodyFromFields(kind, f), Judge(AllFieldRules(BV.Map(f), Schema(kind))))
  {
    hide HasKey, Ascii, FieldRules, AllFieldRules, Judge, FieldString, FieldBytes, FieldPositive, Field, NonnegativeId;
    var fields := Schema(kind);
    FieldsInTurn(BV.Map(f), fields);
    forall i | 0 <= i < |fields| ensures FieldReads(f, fields[i]) {
      FieldRulesExact(f, fields[i]);
    }
    assert |fields| > 0 ==> FieldReads(f, fields[0]);
    assert |fields| > 1 ==> FieldReads(f, fields[1]);
    assert |fields| > 2 ==> FieldReads(f, fields[2]);
    assert |fields| > 3 ==> FieldReads(f, fields[3]);
  }

  predicate FieldReads(f: seq<Entry>, field: (string, FieldType)) {
    var r, name := Judge(FieldRules(BV.Map(f), field)), Ascii(field.0);
    match field.1
    case TextField => Agree(FieldString(f, name), r)
    case BytesField => Agree(FieldBytes(f, name), r)
    case PositiveField => Agree(FieldPositive(f, name), r)
    case NonnegativeField => Field(f, name).Success? && Agree(NonnegativeId(Field(f, name).value), r)
  }

  lemma NamesAreSchema(kind: Kind)
    ensures Names(kind) == NamesOf(Schema(kind))
  {
    hide Ascii;
  }

  /** The payload rules decide whether a body is read, up to its own rules. */
  lemma PayloadRulesExact(kind: Kind, payload: Value)
    ensures match Judge(PayloadRules(kind, payload))
            case Failure(error) =>
              || ExactMap(payload, Names(kind)) == Failure(error)
              || (ExactMap(payload, Names(kind)).Success? && BodyFromFields(kind, payload.entries) == Failure(error))
            case Success(_) =>
              && ExactMap(payload, Names(kind)) == Success(payload.entries)
              && BodyFromFields(kind, payload.entries).Success?
  {
    hide HasKey, Ascii, Names, Schema, BodyFromFields, AllFieldRules;
    NamesAreSchema(kind);
    var names := NamesOf(Schema(kind));
    JudgeBoth(MapRules(payload, names), AllFieldRules(payload, Schema(kind)));
    MapRulesExact(payload, names);
    if ExactMap(payload, names).Success? {
      assert payload == BV.Map(payload.entries);
      FieldsExact(kind, payload.entries);
    }
  }

  lemma KnownKind(t: Text)
    ensures ParseKind(t).Some? <==> exists i | 0 <= i < |KINDS| :: t == Ascii(KINDS[i])
  {
    hide Ascii;
    assert KINDS[0] == "hello" && KINDS[1] == "load" && KINDS[2] == "enable" && KINDS[3] == "invoke";
    assert KINDS[4] == "disable" && KINDS[5] == "shutdown" && KINDS[6] == "ok" && KINDS[7] == "result";
    assert KINDS[8] == "error" && KINDS[9] == "bridge-invoke" && KINDS[10] == "retain-handle";
    assert KINDS[11] == "release-handle" && KINDS[12] == "callback-result" && KINDS[13] == "callback-error";
  }

  /** The envelope rules one after the other. */
  lemma EnvelopeInTurn(v: Value)
    ensures Judge(EnvelopeRules(v)) ==
            var keys := Judge(MapRules(v, EnvelopeNames()));
            var id := Judge(FieldRules(v, ("requestId", PositiveField)));
            var kind := Judge(FieldRules(v, ("kind", TextField)));
            if keys.Failure? then keys
            else if !Get(v, "protocolVersion").Integer? then Invalid("message field must be an integer")
            else if Get(v, "protocolVersion") != BV.Integer(1) then Invalid("unsupported protocol version")
            else if id.Failure? then id
            else if kind.Failure? then kind
            else if exists i | 0 <= i < |KINDS| :: Get(v, "kind") == BV.String(Ascii(KINDS[i])) then Success(())
            else Invalid("unsupported message kind")
  {
    hide HasKey, Ascii, FieldRules, Get, MapRules;
    var keys := MapRules(v, EnvelopeNames());
    var version := [Rule(Get(v, "protocolVersion").Integer?, "message field must be an integer"),
                    Rule(Get(v, "protocolVersion") == BV.Integer(1), "unsupported protocol version")];
    var id, kind := FieldRules(v, ("requestId", PositiveField)), FieldRules(v, ("kind", TextField));
    var last := [Rule(exists i | 0 <= i < |KINDS| :: Get(v, "kind") == BV.String(Ascii(KINDS[i])),
                      "unsupported message kind")];
    JudgeBoth(keys + version + (id + kind), last);
    JudgeBoth(keys + version, id + kind);
    JudgeBoth(keys, version);
    JudgeBoth(id, kind);
    JudgeSteps(version);
    JudgeSteps(last);
  }

  lemma EnvelopeRulesExact(v: Value)
    ensures match Judge(EnvelopeRules(v))
            case Failure(error) => ParseEnvelope(v) == Failure(error)
            case Success(_) =>
              && var id, kind, payload := Get(v, "requestId"), Get(v, "kind"), Get(v, "payload");
                 && id.Integer? && id.number >= 1 && kind.String? && ParseKind(kind.text).Some?
                 && ParseEnvelope(v) == match BodyFromValue(kind.text, payload)
                                        case Failure(error) => Failure(error)
                                        case Success(body) => Success((id.number, body))
  {
    hide HasKey, Ascii, BodyFromValue, BV.FirstMatch, ParseKind, FieldRules, Get, EnvelopeRules, MapRules, Judge,
         FieldPositive, FieldString, Field, ExactMap, KINDS;
    EnvelopeInTurn(v);
    MapRulesExact(v, EnvelopeNames());
    if ExactMap(v, EnvelopeNames()).Success? {
      EnvelopeFields(v);
      if Get(v, "kind").String? {
        KnownKind(Get(v, "kind").text);
        if ParseKind(Get(v, "kind").text).None? {
          UnknownKindFails(Get(v, "kind").text, Get(v, "payload"));
        }
      }
    }
  }

  lemma UnknownKindFails(t: Text, payload: Value)
    requires ParseKind(t).None?
    ensures BodyFromValue(t, payload) == Invalid("unsupported message kind")
  {
    hide ParseKind;
  }

  lemma EnvelopeFields(v: Value)
    requires ExactMap(v, EnvelopeNames()).Success?
    ensures v == BV.Map(v.entries) && ExactMap(v, EnvelopeNames()) == Success(v.entries)
    ensures Field(v.entries, Ascii("protocolVersion")) == Success(Get(v, "protocolVersion"))
    ensures Field(v.entries, Ascii("payload")) == Success(Get(v, "payload"))
    ensures FieldReads(v.entries, ("requestId", PositiveField)) && FieldReads(v.entries, ("kind", TextField))
    ensures Get(v, "requestId").Integer? && Get(v, "requestId").number >= 1 ==>
              FieldPositive(v.entries, Ascii("requestId")) == Success(Get(v, "requestId").number)
    ensures Get(v, "kind").String? ==> FieldString(v.entries, Ascii("kind")) == Success(Get(v, "kind").text)
    ensures Judge(FieldRules(v, ("requestId", PositiveField))).Success? <==>
              Get(v, "requestId").Integer? && Get(v, "requestId").number >= 1
    ensures Judge(FieldRules(v, ("kind", TextField))).Success? <==> Get(v, "kind").String?
  {
    hide HasKey, Ascii, BV.FirstMatch;
    var names := EnvelopeNames();
    assert HasKey(v.entries, names[0]) && HasKey(v.entries, names[1]) && HasKey(v.entries, names[2]);
    assert HasKey(v.entries, names[3]);
    MO.FindFirst(v.entries, names[0]);
    MO.FindFirst(v.entries, names[1]);
    MO.FindFirst(v.entries, names[2]);
    MO.FindFirst(v.entries, names[3]);
    FieldRulesExact(v.entries, ("requestId", PositiveField));
    FieldRulesExact(v.entries, ("kind", TextField));
    JudgeSteps(FieldRules(v, ("requestId", PositiveField)));
    JudgeSteps(FieldRules(v, ("kind", TextField)));
  }

  /** Every value that is no message is refused for the first rule it breaks: of the envelope, of its kind's
      payload, of the body, and of the ID. */
  lemma FromEnvelopeExact(v: Value)
    ensures match Judge(EnvelopeRules(v))
            case Failure(error) => FromEnvelope(v) == Failure(error)
            case Success(_) =>
              && Get(v, "requestId").Integer? && 1 <= Get(v, "requestId").number
              && Get(v, "kind").String? && ParseKind(Get(v, "kind").text).Some?
              && var kind, payload := ParseKind(Get(v, "kind").text).value, Get(v, "payload");
                 match Judge(PayloadRules(kind, payload))
                 case Failure(error) => FromEnvelope(v) == Failure(error)
                 case Success(_) =>
                   && payload.Map? && BodyFromFields(kind, payload.entries).Success?
                   && var id, body := Get(v, "requestId").number, BodyFromFields(kind, payload.entries).value;
                      match Judge(BodyRules(body) + Rules(id, body))
                      case Failure(error) => FromEnvelope(v) == Failure(error)
                      case Success(_) => FromEnvelope(v) == Success(Message(id, body))
  {
    hide HasKey, Ascii, ParseEnvelope, BodyFromFields, ParseKind, PayloadRules, EnvelopeRules, Get, Rules, BodyRules,
         Validate, NewMessage;
    EnvelopeRulesExact(v);
    if Judge(EnvelopeRules(v)).Success? {
      var kind, payload := ParseKind(Get(v, "kind").text).value, Get(v, "payload");
      PayloadRulesExact(kind, payload);
      if Judge(PayloadRules(kind, payload)).Success? {
        var id, body := Get(v, "requestId").number, BodyFromFields(kind, payload.entries).value;
        ValidateExact(body);
        NewMessageExact(id, body);
        JudgeBoth(BodyRules(body), Rules(id, body));
      }
    }
  }

  /** Bytes that are no value are refused as that, and other bytes as the value is. */
  lemma FromWireRefusals(input: seq<byte>)
    ensures match D.FromWire(input)
            case Err(_) => FromWire(input) == Invalid("invalid Bridge Value v1 message")
            case Ok(v) =>
              Judge(EnvelopeRules(v)).Failure? ==> FromWire(input) == Failure(Judge(EnvelopeRules(v)).error)
  {
    hide D.FromWire, FromEnvelope, EnvelopeRules, Judge, PayloadRules, BodyRules, Rules, Get;
    match D.FromWire(input)
    case Err(_) =>
    case Ok(v) => FromEnvelopeExact(v);
  }
}
