/**
 The process server, its callback bridge and its guest engine as functions on an explicit
 state. Guest code, the file system and Wasmtime are parameters; everything that happens is
 also appended to a log, so that properties of whole runs can be stated.
 */
module Host {
  import opened Bytes
  import D = Decoding
  import opened Protocol
  import opened Frames

  // ---------------------------------------------------------------- host errors

  datatype HostCode =
    | InvalidState | WitMismatch | GuestFailure | FuelExhausted | DeadlineExceeded | ResourceLimit
    | InvalidValue | RuntimeFailure | InvalidDescriptor | InvalidComponent | PathEscape

  datatype HostError = HostError(code: HostCode, message: Text)

  datatype HostResult<+T> = Fine(value: T) | Fault(error: HostError)

  function CodeLiteral(code: HostCode): string {
    match code
    case InvalidState => "invalid-state"
    case WitMismatch => "wit-mismatch"
    case GuestFailure => "guest-error"
    case FuelExhausted => "fuel-exhausted"
    case DeadlineExceeded => "deadline-exceeded"
    case ResourceLimit => "resource-limit"
    case InvalidValue => "invalid-value"
    case RuntimeFailure => "runtime-failure"
    case InvalidDescriptor => "invalid-descriptor"
    case InvalidComponent => "invalid-component"
    case PathEscape => "path-escape"
  }

  predicate Fatal(code: HostCode) {
    code.DeadlineExceeded? || code.FuelExhausted? || code.ResourceLimit? || code.RuntimeFailure?
  }

  /** `format!("{a}: {b}")`. */
  function Labelled(a: Text, b: Text): (t: Text)
    ensures |t| == |a| + 2 + |b|
  {
    Utf8Concat(Ascii(": "), b);
    Utf8Concat(a, Ascii(": ") + b);
    a + (Ascii(": ") + b)
  }

  /** `str::contains`. */
  predicate Contains(s: seq<byte>, needle: string) {
    exists i | 0 <= i <= |s| :: At(s, i, Ascii(needle))
  }

  /** Classifies a Wasmtime failure by the text it displays. */
  function RuntimeError(message: Text): HostError {
    var code :=
      if Contains(message, "fuel") then FuelExhausted
      else if Contains(message, "epoch") || Contains(message, "deadline") then DeadlineExceeded
      else if Contains(message, "limit") || Contains(message, "memory") then ResourceLimit
      else if Contains(message, "invalid-value") then InvalidValue
      else RuntimeFailure;
    HostError(code, message)
  }

  function ServerInvalidState(): HostError {
    HostError(InvalidState, Ascii("lifecycle command is not valid in the current state"))
  }

  function EngineInvalidState(): HostError {
    HostError(InvalidState, Ascii("Wasm payload is not loaded"))
  }

  // ---------------------------------------------------------------- the guest and its surroundings

  datatype ExportCall =
    | CallLoad | CallEnable | CallInvoke(operation: Text, input: seq<byte>, callbackId: u64)
    | CallDisable | CallUnload

  /** One use of the guest's bridge imports. */
  datatype BridgeOp =
    | OpInvoke(operation: Text, input: seq<byte>)
    | OpRetain(objectId: u64, generation: u64)
    | OpRelease(objectId: u64, generation: u64)

  datatype GuestOutcome = Returns(output: seq<byte>) | Fails(code: Text, message: Text) | Traps

  /** What the guest does in one export call: any finite list of imports, then an outcome.
      `failure` is what Wasmtime displays should the call fail. */
  datatype GuestCall = GuestCall(ops: seq<BridgeOp>, outcome: GuestOutcome, failure: Text)

  /** How far loading gets before the guest's own `load` runs. */
  datatype LoadOutcome =
    | DescriptorFault(error: HostError)
    | EngineFault(text: Text)
    | ComponentFault(text: Text)
    | InstantiateFault(text: Text)
    | Ready

  /** The guest may behave differently in every instance and after every history of calls. */
  datatype Env = Env(guest: (nat, seq<ExportCall>) -> GuestCall, load: nat -> LoadOutcome)

  // ---------------------------------------------------------------- log

  datatype CallOutcome = Returned | GuestFailed(code: Text) | Trapped

  datatype Event =
    | Received(m: Message)
    | Sent(m: Message)
    | Refused(reason: string)          // the bridge reported a protocol failure
    | Instantiated                     // a load attempt made a new store and a new bridge
    | Entered(call: ExportCall)
    | Left(call: ExportCall, outcome: CallOutcome)
    | EndOfStream

  // ---------------------------------------------------------------- bridge

  /** What server and bridge share: both streams and the poison cell. */
  datatype Wire = Wire(input: seq<byte>, broken: bool, sink: Sink, poison: Option<string>, log: seq<Event>) {
    function Log(e: Event): Wire { this.(log := log + [e]) }
  }

  datatype Bridge = Bridge(pluginId: u64, session: u64, next: u64)

  datatype BridgeError = Callback(code: Text) | ProtocolFault(error: ProtocolError)

  datatype BridgeResult<+T> = Granted(value: T) | Denied(error: BridgeError)

  function Reason(error: ProtocolError): string {
    match error
    case InvalidData(reason) => reason
    case Io => "Bridge callback I/O failure"
  }

  /** `protocol_failure`: the first reason stays. */
  function Refuse(w: Wire, error: ProtocolError): Wire {
    w.(poison := if w.poison == None then Some(Reason(error)) else w.poison).Log(Refused(Reason(error)))
  }

  function RefuseWith<T>(w: Wire, b: Bridge, error: ProtocolError): (Wire, Bridge, BridgeResult<T>) {
    (Refuse(w, error), b, Denied(ProtocolFault(error)))
  }

  /** The write half of `call`: an ID is allocated, and a frame bearing it is written. */
  function SendRequest(w: Wire, b: Bridge, body: MessageBody): (Wire, Bridge, Outcome<u64>) {
    var id := b.next;
    var b := b.(next := (id + 2) % U64_LIMIT);
    if id == 0 || id >= I64_LIMIT then
      (w, b, Invalid("callback request ID overflow"))
    else
      match NewMessage(id, body)
      case Failure(error) => (w, b, Failure(error))
      case Success(m) =>
        var (sink, written) := PutFrame(w.sink, m);
        match written
        case Failure(error) => (w.(sink := sink), b, Failure(error))
        case Success(_) => (w.(sink := sink).Log(Sent(m)), b, Success(id))
  }

  /** The read half of `call`. */
  function AwaitResponse(w: Wire, id: u64): (Wire, Outcome<MessageBody>) {
    var r := ReadFrame(w.input, w.broken);
    var w := w.(input := r.rest);
    match r.outcome
    case Failure(error) => (w, Failure(error))
    case Success(None) => (w, Invalid("callback response is missing"))
    case Success(Some(m)) =>
      var w := w.Log(Received(m));
      (w, if m.requestId != id then Invalid("callback response request ID mismatch") else Success(m.body))
  }

  /** `ProcessBridge::call`. It does not look at the poison cell. */
  function Call(w: Wire, b: Bridge, body: MessageBody): (Wire, Bridge, BridgeResult<MessageBody>) {
    var (w, b, sent) := SendRequest(w, b, body);
    match sent
    case Failure(error) => RefuseWith(w, b, error)
    case Success(id) =>
      var (w, answer) := AwaitResponse(w, id);
      match answer
      case Failure(error) => RefuseWith(w, b, error)
      case Success(response) => (w, b, Granted(response))
  }

  function HandleCall(w: Wire, b: Bridge, session: u64, body: MessageBody): (Wire, Bridge, BridgeResult<()>) {
    if session != b.session then RefuseWith(w, b, InvalidData("callback session mismatch"))
    else
      var (w, b, r) := Call(w, b, body);
      match r
      case Denied(error) => (w, b, Denied(error))
      case Granted(response) =>
        if response.CallbackResult? && response.output == [] then (w, b, Granted(()))
        else if response.CallbackError? then (w, b, Denied(Callback(response.code)))
        else RefuseWith(w, b, InvalidData("invalid handle callback response"))
  }

  function InvokeBridge(w: Wire, b: Bridge, pluginId: u64, session: u64, operation: Text, input: seq<byte>)
    : (Wire, Bridge, BridgeResult<seq<byte>>)
  {
    if pluginId != b.pluginId || session != b.session then
      RefuseWith(w, b, InvalidData("callback owner mismatch"))
    else
      var (w, b, r) := Call(w, b, BridgeInvoke(operation, input));
      match r
      case Denied(error) => (w, b, Denied(error))
      case Granted(response) =>
        if response.CallbackResult? then (w, b, Granted(response.output))
        else if response.CallbackError? then (w, b, Denied(Callback(response.code)))
        else RefuseWith(w, b, InvalidData("invalid Bridge callback response"))
  }

  // ---------------------------------------------------------------- plugin

  /** One store. `history` is every export call that entered it. */
  datatype Plugin = Plugin(
    poisoned: bool, active: bool, bridge: Bridge, pluginId: u64, session: u64,
    instance: nat, history: seq<ExportCall>)

  /** What a guest import hands back: output, a stable error code, or a failure of the call. */
  datatype ImportResult = Answer(output: seq<byte>) | ErrorCode(code: Text) | Abort

  function StableCode(error: BridgeError): Text {
    match error
    case Callback(code) => code
    case ProtocolFault(_) => Ascii("protocol-error")
  }

  function Import(w: Wire, p: Plugin, op: BridgeOp): (Wire, Plugin, ImportResult) {
    if !p.active then (w, p, ErrorCode(Ascii("bridge-denied")))
    else
      match op
      case OpInvoke(operation, input) =>
        if D.FromWire(input).Err? then (w, p, Abort)
        else
          var (w, b, r) := InvokeBridge(w, p.bridge, p.pluginId, p.session, operation, input);
          var p := p.(bridge := b);
          (w, p, match r
                 case Denied(error) => ErrorCode(StableCode(error))
                 case Granted(output) => if D.FromWire(output).Err? then Abort else Answer(output))
      case OpRetain(objectId, generation) =>
        var (w, b, r) := HandleCall(w, p.bridge, p.session, RetainHandle(objectId, generation));
        (w, p.(bridge := b), if r.Denied? then ErrorCode(StableCode(r.error)) else Answer([]))
      case OpRelease(objectId, generation) =>
        var (w, b, r) := HandleCall(w, p.bridge, p.session, ReleaseHandle(objectId, generation));
        (w, p.(bridge := b), if r.Denied? then ErrorCode(StableCode(r.error)) else Answer([]))
  }

  /** Runs the imports of one export call, up to one that fails the call. */
  function RunOps(w: Wire, p: Plugin, ops: seq<BridgeOp>): (Wire, Plugin, bool)
    decreases |ops|
  {
    if ops == [] then (w, p, true)
    else
      var (w, p, r) := Import(w, p, ops[0]);
      if r.Abort? then (w, p, false) else RunOps(w, p, ops[1..])
  }

  /** `wasmtime::Result<Result<Vec<u8>, String>>`. */
  datatype CallResult = EngineError(message: Text) | GuestError(text: Text) | Output(bytes: seq<byte>)

  /** `WasmPlugin::call`. */
  function PluginCall(env: Env, w: Wire, p: Plugin, call: ExportCall): (Wire, Plugin, CallResult) {
    if p.poisoned then (w, p, EngineError(Ascii("runtime-failure: store is poisoned")))
    else
      var p := p.(active := true, history := p.history + [call]);
      var g := env.guest(p.instance, p.history);
      var (w, p, completed) := RunOps(w.Log(Entered(call)), p, g.ops);
      var p := p.(active := false);
      if !completed || g.outcome.Traps? then
        (w.Log(Left(call, Trapped)), p.(poisoned := true), EngineError(g.failure))
      else if g.outcome.Fails? then
        (w.Log(Left(call, GuestFailed(g.outcome.code))), p, GuestError(Labelled(g.outcome.code, g.outcome.message)))
      else
        (w.Log(Left(call, Returned)), p, Output(g.outcome.output))
  }

  /** `WasmPlugin::invoke`: the payload is validated on both sides of the call. */
  function PluginInvoke(env: Env, w: Wire, p: Plugin, operation: Text, input: seq<byte>, callbackId: u64)
    : (Wire, Plugin, CallResult)
  {
    if D.FromWire(input).Err? then (w, p, EngineError(Ascii("invalid-value")))
    else
      var (w, p, r) := PluginCall(env, w, p, CallInvoke(operation, input, callbackId));
      if r.Output? && D.FromWire(r.bytes).Err? then (w, p, EngineError(Ascii("invalid-value")))
      else (w, p, r)
  }

  /** `require_guest(result.map_err(runtime_error)?)`. */
  function Classify(r: CallResult): HostResult<seq<byte>> {
    match r
    case EngineError(message) => Fault(RuntimeError(message))
    case GuestError(text) => Fault(HostError(GuestFailure, text))
    case Output(bytes) => Fine(bytes)
  }

  // ---------------------------------------------------------------- server

  datatype Lifecycle = AwaitHello | AwaitLoad | Loaded | Enabled | Disabled | Closed

  /** The server together with its engine. `loads` counts descriptors read so far. */
  datatype World = World(wire: Wire, state: Lifecycle, plugin: Option<Plugin>, loads: nat)

  /** The store a load attempt makes, before its guest has run. */
  function NewStore(instance: nat, pluginId: u64, session: u64): Plugin {
    Plugin(false, false, Bridge(pluginId, session, 2), pluginId, session, instance, [])
  }

  function EngineLoad(env: Env, wd: World, outcome: LoadOutcome, pluginId: u64, session: u64)
    : (World, HostResult<seq<byte>>)
  {
    if wd.plugin.Some? then (wd, Fault(EngineInvalidState()))
    else
      match outcome
      case DescriptorFault(error) => (wd, Fault(error))
      case EngineFault(text) => (wd, Fault(RuntimeError(text)))
      case ComponentFault(text) => (wd, Fault(RuntimeError(text)))
      case InstantiateFault(text) => (wd, Fault(HostError(WitMismatch, text)))
      case Ready =>
        var store := NewStore(wd.loads, pluginId, session);
        var (w, p, r) := PluginCall(env, wd.wire.Log(Instantiated), store, CallLoad);
        (wd.(wire := w, plugin := if r.Output? then Some(p) else None), Classify(r))
  }

  function EngineCall(env: Env, wd: World, call: ExportCall): (World, HostResult<seq<byte>>) {
    match wd.plugin
    case None => (wd, Fault(EngineInvalidState()))
    case Some(p) =>
      var (w, p, r) := PluginCall(env, wd.wire, p, call);
      (wd.(wire := w, plugin := Some(p)), Classify(r))
  }

  function EngineInvoke(env: Env, wd: World, operation: Text, input: seq<byte>, callbackId: u64)
    : (World, HostResult<seq<byte>>)
  {
    match wd.plugin
    case None => (wd, Fault(EngineInvalidState()))
    case Some(p) =>
      var (w, p, r) := PluginInvoke(env, wd.wire, p, operation, input, callbackId);
      (wd.(wire := w, plugin := Some(p)), Classify(r))
  }

  /** The plugin is taken out first, so it is gone whatever `unload` answers. */
  function EngineUnload(env: Env, wd: World): (World, HostResult<seq<byte>>) {
    match wd.plugin
    case None => (wd, Fault(EngineInvalidState()))
    case Some(p) =>
      var (w, _, r) := PluginCall(env, wd.wire, p, CallUnload);
      (wd.(wire := w, plugin := None), Classify(r))
  }

  /** Moves to `next` when the engine's answer is success. */
  function Advance(r: (World, HostResult<seq<byte>>), next: Lifecycle): (World, HostResult<seq<byte>>) {
    if r.1.Fine? then (r.0.(state := next), r.1) else r
  }

  function ServerHello(wd: World): (World, HostResult<seq<byte>>) {
    if wd.state != AwaitHello then (wd, Fault(ServerInvalidState()))
    else (wd.(state := AwaitLoad), Fine([]))
  }

  function ServerLoad(env: Env, wd: World, pluginId: u64, session: u64): (World, HostResult<seq<byte>>) {
    if wd.state != AwaitLoad then (wd, Fault(ServerInvalidState()))
    else
      var outcome := env.load(wd.loads);
      var wd := wd.(loads := wd.loads + 1);
      if outcome.DescriptorFault? then (wd, Fault(outcome.error))
      else Advance(EngineLoad(env, wd, outcome, pluginId, session), Loaded)
  }

  function ServerEnable(env: Env, wd: World): (World, HostResult<seq<byte>>) {
    if wd.state != Loaded then (wd, Fault(ServerInvalidState()))
    else Advance(EngineCall(env, wd, CallEnable), Enabled)
  }

  function ServerInvoke(env: Env, wd: World, operation: Text, input: seq<byte>, callbackId: u64)
    : (World, HostResult<seq<byte>>)
  {
    if wd.state != Enabled then (wd, Fault(ServerInvalidState()))
    else EngineInvoke(env, wd, operation, input, callbackId)
  }

  function ServerDisable(env: Env, wd: World): (World, HostResult<seq<byte>>) {
    if wd.state != Enabled then (wd, Fault(ServerInvalidState()))
    else Advance(EngineCall(env, wd, CallDisable), Disabled)
  }

  function ServerShutdown(env: Env, wd: World): (World, HostResult<seq<byte>>) {
    if wd.state != Loaded && wd.state != Disabled then (wd, Fault(ServerInvalidState()))
    else Advance(EngineUnload(env, wd), Closed)
  }

  /** Bodies the parent sends as commands. */
  predicate IsCommand(body: MessageBody) {
    body.Hello? || body.Load? || body.Enable? || body.Invoke? || body.Disable? || body.Shutdown?
  }

  function Dispatch(env: Env, wd: World, body: MessageBody): (World, HostResult<seq<byte>>)
    requires IsCommand(body)
  {
    match body
    case Hello => ServerHello(wd)
    case Load(_, _, pluginId, session) => ServerLoad(env, wd, pluginId, session)
    case Enable => ServerEnable(env, wd)
    case Invoke(operation, input, callbackId) => ServerInvoke(env, wd, operation, input, callbackId)
    case Disable => ServerDisable(env, wd)
    case Shutdown => ServerShutdown(env, wd)
  }

  function ErrorBody(error: HostError): MessageBody {
    var code := Ascii(CodeLiteral(error.code));
    ErrorReply(code, Labelled(code, error.message))
  }

  /** `handle`: a reply and whether it closes the run, or the end of the run. */
  function Handle(env: Env, wd: World, body: MessageBody): (World, Outcome<(MessageBody, bool)>) {
    if !IsCommand(body) then (wd, Invalid("child-only message arrived as a parent command"))
    else
      var (wd, r) := Dispatch(env, wd, body);
      match r
      case Fine(output) =>
        (wd, Success((if body.Invoke? then ResultReply(output) else OkReply, body.Shutdown?)))
      case Fault(error) =>
        if Fatal(error.code) then (wd, Invalid(CodeLiteral(error.code)))
        else (wd, Success((ErrorBody(error), false)))
  }

  /** Frames and writes a reply. */
  function Reply(w: Wire, id: u64, body: MessageBody): (Wire, Outcome<()>) {
    match NewMessage(id, body)
    case Failure(_) => (w, Invalid("invalid process response"))
    case Success(m) =>
      var (sink, written) := PutFrame(w.sink, m);
      match written
      case Failure(error) => (w.(sink := sink), Failure(error))
      case Success(_) => (w.(sink := sink).Log(Sent(m)), Success(()))
  }

  /** Handling one command that was read, up to its reply: whether the run goes on. */
  function Turn(env: Env, wd: World, m: Message): (World, Outcome<bool>) {
    if m.requestId % 2 == 0 then (wd, Invalid("callback response arrived outside a callback"))
    else
      var (wd, handled) := Handle(env, wd, m.body);
      if wd.wire.poison.Some? then (wd, Invalid(wd.wire.poison.value))
      else
        match handled
        case Failure(error) => (wd, Failure(error))
        case Success((body, close)) =>
          var (w, replied) := Reply(wd.wire, m.requestId, body);
          (wd.(wire := w), match replied case Failure(error) => Failure(error) case Success(_) => Success(!close))
  }

  /** `close_on_eof`. Whatever the guest answers is ignored. */
  function CloseOnEof(env: Env, wd: World): World {
    var wd1 := if wd.state == Enabled then EngineCall(env, wd, CallDisable).0 else wd;
    var wd2 := if wd.state == Loaded || wd.state == Enabled || wd.state == Disabled
               then EngineUnload(env, wd1).0 else wd1;
    wd2.(state := Closed)
  }

  // ---------------------------------------------------------------- whole runs

  /** Nothing that happens while a command is handled puts bytes back into the input, and a writer
      that works keeps working. */
  predicate Follows(before: Wire, after: Wire) {
    |after.input| <= |before.input| && (before.sink.room == None ==> after.sink.room == None)
  }

  lemma AwaitFollows(w: Wire, id: u64)
    ensures Follows(w, AwaitResponse(w, id).0)
  {
    hide ReadFrame;
  }

  lemma BridgeCallFollows(w: Wire, b: Bridge, body: MessageBody)
    ensures Follows(w, Call(w, b, body).0)
  {
    hide NewMessage, PutFrame, AwaitResponse, Reason;
    forall w: Wire, id: u64 ensures Follows(w, AwaitResponse(w, id).0) { AwaitFollows(w, id); }
  }

  lemma ImportFollows(w: Wire, p: Plugin, op: BridgeOp)
    ensures Follows(w, Import(w, p, op).0)
  {
    hide Call, D.FromWire, Ascii, StableCode, Reason;
    forall w: Wire, b, body ensures Follows(w, Call(w, b, body).0) { BridgeCallFollows(w, b, body); }
  }

  lemma {:induction false} OpsFollow(w: Wire, p: Plugin, ops: seq<BridgeOp>)
    ensures Follows(w, RunOps(w, p, ops).0)
    decreases |ops|
  {
    hide Import;
    if ops != [] {
      ImportFollows(w, p, ops[0]);
      var next := Import(w, p, ops[0]);
      OpsFollow(next.0, next.1, ops[1..]);
    }
  }

  lemma CallFollows(env: Env, w: Wire, p: Plugin, call: ExportCall)
    ensures Follows(w, PluginCall(env, w, p, call).0)
  {
    hide RunOps, Labelled;
    if !p.poisoned {
      var entered := p.(active := true, history := p.history + [call]);
      OpsFollow(w.Log(Entered(call)), entered, env.guest(p.instance, entered.history).ops);
    }
  }

  /** The one export call a command can lead to: with which streams, in which store, and which
      export. A store that is poisoned still refuses it. */
  function CallOf(env: Env, wd: World, body: MessageBody): Option<(Wire, Plugin, ExportCall)> {
    match body
    case Load(_, _, pluginId, session) =>
      if wd.state == AwaitLoad && env.load(wd.loads).Ready? && wd.plugin == None
      then Some((wd.wire.Log(Instantiated), NewStore(wd.loads + 1, pluginId, session), CallLoad))
      else None
    case Enable =>
      if wd.state == Loaded && wd.plugin.Some? then Some((wd.wire, wd.plugin.value, CallEnable)) else None
    case Invoke(operation, input, callbackId) =>
      if wd.state == Enabled && wd.plugin.Some? && D.FromWire(input).Ok?
      then Some((wd.wire, wd.plugin.value, CallInvoke(operation, input, callbackId)))
      else None
    case Disable =>
      if wd.state == Enabled && wd.plugin.Some? then Some((wd.wire, wd.plugin.value, CallDisable)) else None
    case Shutdown =>
      if (wd.state == Loaded || wd.state == Disabled) && wd.plugin.Some?
      then Some((wd.wire, wd.plugin.value, CallUnload)) else None
    case _ => None
  }

  /** The state a command leads to when its export call returns. */
  function NextState(body: MessageBody): Lifecycle {
    match body
    case Load(_, _, _, _) => Loaded
    case Enable => Enabled
    case Invoke(_, _, _) => Enabled
    case Disable => Disabled
    case _ => Closed
  }

  /** A command acts on streams and store only through its export call, and it moves the state
      exactly when that call returns. */
  lemma DispatchOutcome(env: Env, wd: World, body: MessageBody)
    requires IsCommand(body)
    ensures Dispatch(env, wd, body).0.loads == if body.Load? && wd.state == AwaitLoad then wd.loads + 1 else wd.loads
    ensures var (after, r) := Dispatch(env, wd, body);
            match CallOf(env, wd, body)
            case Some((w, p, call)) =>
              var (w1, p1, result) := PluginCall(env, w, p, call);
              && after.wire == w1
              && after.state == (if result.Output? then NextState(body) else wd.state)
              && after.plugin == (if body.Shutdown? || (body.Load? && !result.Output?) then None else Some(p1))
              && r == (if body.Invoke? && result.Output? && D.FromWire(result.bytes).Err?
                       then Fault(RuntimeError(Ascii("invalid-value"))) else Classify(result))
            case None =>
              && after.wire == wd.wire && after.plugin == wd.plugin
              && after.state == (if body.Hello? && wd.state == AwaitHello then AwaitLoad else wd.state)
              && (r.Fine? ==> body.Hello?)
  {
    hide PluginCall, D.FromWire, RuntimeError, Labelled, Ascii;
    match CallOf(env, wd, body)
    case Some((w, p, call)) =>
      var result := PluginCall(env, w, p, call).2;
      assert Classify(result).Fine? <==> result.Output?;
    case None =>
  }

  lemma DispatchFollows(env: Env, wd: World, body: MessageBody)
    requires IsCommand(body)
    ensures Follows(wd.wire, Dispatch(env, wd, body).0.wire)
  {
    hide PluginCall, Dispatch, D.FromWire;
    DispatchOutcome(env, wd, body);
    match CallOf(env, wd, body)
    case Some((w, p, call)) => CallFollows(env, w, p, call);
    case None =>
  }

  lemma TurnFollows(env: Env, wd: World, m: Message)
    ensures Follows(wd.wire, Turn(env, wd, m).0.wire)
  {
    hide Dispatch, NewMessage, PutFrame, ErrorBody;
    if IsCommand(m.body) {
      DispatchFollows(env, wd, m.body);
    }
  }

  /** `serve`: processes frames until clean EOF, a successful shutdown, or an error. */
  function Serve(env: Env, wd: World): (World, Outcome<()>)
    decreases |wd.wire.input|
  {
    var r := ReadFrame(wd.wire.input, wd.wire.broken);
    var read := wd.(wire := wd.wire.(input := r.rest));
    match r.outcome
    case Failure(error) => (read, Failure(error))
    case Success(None) => (CloseOnEof(env, read.(wire := read.wire.Log(EndOfStream))), Success(()))
    case Success(Some(m)) =>
      var received := read.(wire := read.wire.Log(Received(m)));
      TurnFollows(env, received, m);
      var (after, going) := Turn(env, received, m);
      match going
      case Failure(error) => (after, Failure(error))
      case Success(false) => (after, Success(()))
      case Success(true) => Serve(env, after)
  }

  /** A server before its first frame. */
  function Initial(input: seq<byte>, broken: bool, room: Option<nat>): World {
    World(Wire(input, broken, Sink([], room), None, []), AwaitHello, None, 0)
  }

  lemma {:induction false} ServeFollows(env: Env, wd: World)
    ensures Follows(wd.wire, Serve(env, wd).0.wire)
    decreases |wd.wire.input|
  {
    hide Turn, CloseOnEof, ReadFrame;
    var read := ReadFrame(wd.wire.input, wd.wire.broken);
    var next := wd.(wire := wd.wire.(input := read.rest));
    match read.outcome
    case Failure(_) =>
    case Success(None) => CloseFollows(env, next.(wire := next.wire.Log(EndOfStream)));
    case Success(Some(m)) =>
      var received := next.(wire := next.wire.Log(Received(m)));
      TurnFollows(env, received, m);
      var (after, going) := Turn(env, received, m);
      if going == Success(true) {
        ServeFollows(env, after);
      }
  }

  lemma CloseFollows(env: Env, wd: World)
    ensures Follows(wd.wire, CloseOnEof(env, wd).wire)
  {
    hide PluginCall;
    if wd.plugin.Some? {
      CallFollows(env, wd.wire, wd.plugin.value, CallUnload);
      CallFollows(env, wd.wire, wd.plugin.value, CallDisable);
      var (w, p, _) := PluginCall(env, wd.wire, wd.plugin.value, CallDisable);
      CallFollows(env, w, p, CallUnload);
    }
  }
}
