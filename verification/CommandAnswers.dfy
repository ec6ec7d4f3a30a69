/**
 What the parent gets for a command: which commands are refused in which state, how a failure is
 classified and reported, and that what the guest answers is what is passed on.
 */
module CommandAnswers {
  import opened Bytes
  import D = Decoding
  import opened Protocol
  import opened Frames
  import FL = FrameLaws
  import opened Host
  import R = Replies

  // ---------------------------------------------------------------- how failures are classified

  predicate OutOfFuel(text: Text) { Contains(text, "fuel") }

  predicate OutOfTime(text: Text) { Contains(text, "epoch") || Contains(text, "deadline") }

  predicate OutOfSpace(text: Text) { Contains(text, "limit") || Contains(text, "memory") }

  /** A text that means this code: the first of fuel, time, space and malformed values it speaks of. */
  predicate Means(text: Text, code: string) {
    if code == "fuel-exhausted" then OutOfFuel(text)
    else if code == "deadline-exceeded" then !OutOfFuel(text) && OutOfTime(text)
    else if code == "resource-limit" then !OutOfFuel(text) && !OutOfTime(text) && OutOfSpace(text)
    else if code == "invalid-value" then
      !OutOfFuel(text) && !OutOfTime(text) && !OutOfSpace(text) && Contains(text, "invalid-value")
    else
      && code == "runtime-failure"
      && !OutOfFuel(text) && !OutOfTime(text) && !OutOfSpace(text) && !Contains(text, "invalid-value")
  }

  /** The code of every failure text, in both directions; the text is kept. */
  lemma RuntimeErrorExact(text: Text, code: string)
    ensures Spelled(RuntimeError(text).code) == code <==> Means(text, code)
    ensures RuntimeError(text).message == text
  {
    hide Contains;
  }

  /** How each code is spelled. */
  function Spelled(code: HostCode): string {
    match code
    case InvalidState => "invalid-state"
    case WitMismatch => "wit-mismatch"
    case GuestFailure => "guest-error"
    case FuelExhausted => "fuel-exhausted"
    case DeadlineExceeded => "deadline-exceeded"
    case ResourceLimit => "resource-limit"
    case InvalidValue => "invalid-value"
    case RuntimeFailure => "runtime-failure"
    case InvalidDescriptor => "invalid-descriptor"
    case InvalidComponent => "invalid-component"
    case PathEscape => "path-escape"
  }

  /** Codes that end the run. */
  predicate Ends(code: string) {
    code in {"deadline-exceeded", "fuel-exhausted", "resource-limit", "runtime-failure"}
  }

  lemma EndsExact(code: HostCode)
    ensures CodeLiteral(code) == Spelled(code) && (Ends(Spelled(code)) <==> Fatal(code))
  {
  }

  // ---------------------------------------------------------------- how they are reported

  /** Between `done` and `after` this was sent, under this ID, and nothing else happened. */
  predicate Sends(done: World, after: World, id: u64, body: MessageBody) {
    && var reply := Message(id, body);
    && FL.CanFrame(reply) && after == done.(wire := R.Written(done.wire, reply))
  }

  /** A failure with this code and text: it ends the run, or is sent as code and text, or its text is too
      long. */
  predicate Reported(done: World, after: World, going: Outcome<bool>, id: u64, code: string, text: Text) {
    if Ends(code) then after == done && going == Invalid(code)
    else if |code| + 2 + |text| > 4096 then after == done && going == Invalid("invalid process response")
    else
      && going == Success(true)
      && |after.wire.log| > 0
      && var e := after.wire.log[|after.wire.log| - 1];
      && e.Sent? && e.m.body.ErrorReply? && e.m.body.code == Ascii(code)
      && e.m.body.message == Ascii(code) + Ascii(": ") + text
      && Sends(done, after, id, e.m.body)
  }

  lemma LabelledExact(a: Text, b: Text)
    ensures Labelled(a, b) == a + Ascii(": ") + b
  {
    assert a + (Ascii(": ") + b) == a + Ascii(": ") + b;
  }

  /** What is said instead of an answer that does not fit. */
  lemma Unanswered(env: Env, wd: World, m: Message)
    requires wd.wire.sink.room == None && m.requestId % 2 == 1 && m.requestId < I64_LIMIT && IsCommand(m.body)
    ensures var (done, r) := Dispatch(env, wd, m.body);
            done.wire.poison == None && !R.Answerable(m.body, r) && !(r.Fault? && Fatal(r.error.code)) ==>
              Turn(env, wd, m) == (done, Invalid(R.Undelivered(R.AnswerTo(m.body, r))))
  {
    hide Dispatch, Reply, Validate, Frame, ErrorBody, Ascii, Fatal;
    DispatchFollows(env, wd, m.body);
    var (done, r) := Dispatch(env, wd, m.body);
    if r.Fault? {
      R.ErrorBodyValid(r.error);
    }
    R.AnswerIsReply(m.body, r);
    if !R.Answerable(m.body, r) && !(r.Fault? && Fatal(r.error.code)) {
      R.UndeliveredExact(done.wire, m.requestId, R.AnswerTo(m.body, r));
    }
  }

  lemma FaultReported(env: Env, wd: World, m: Message)
    requires wd.wire.sink.room == None && m.requestId % 2 == 1 && m.requestId < I64_LIMIT && IsCommand(m.body)
    ensures var (done, r) := Dispatch(env, wd, m.body);
            var (after, going) := Turn(env, wd, m);
            done.wire.poison == None && r.Fault? ==>
              Reported(done, after, going, m.requestId, Spelled(r.error.code), r.error.message)
  {
    hide Dispatch, Turn, FL.CanFrame, FL.FrameOf, Ascii, CodeLiteral, Labelled, Fatal, Ends, Spelled;
    R.TurnExact(env, wd, m);
    Unanswered(env, wd, m);
    var r := Dispatch(env, wd, m.body).1;
    if r.Fault? {
      EndsExact(r.error.code);
      LabelledExact(Ascii(CodeLiteral(r.error.code)), r.error.message);
      var (after, going) := Turn(env, wd, m);
      if going.Success? {
        assert after.wire.log[|after.wire.log| - 1] == Sent(Message(m.requestId, ErrorBody(r.error)));
        assert going == Success(true);
      }
    }
  }

  // ---------------------------------------------------------------- commands that enter no guest

  /** The state in which a command is meant to come. */
  predicate InTurn(state: Lifecycle, body: MessageBody) {
    || (state == AwaitHello && body.Hello?)
    || (state == AwaitLoad && body.Load?)
    || (state == Loaded && (body.Enable? || body.Shutdown?))
    || (state == Enabled && (body.Invoke? || body.Disable?))
    || (state == Disabled && body.Shutdown?)
  }

  /** What a command that can be handled at all requires of its message and of the writer. */
  predicate Handled(wd: World, m: Message) {
    && wd.wire.sink.room == None && wd.wire.poison == None
    && m.requestId % 2 == 1 && m.requestId < I64_LIMIT && IsCommand(m.body)
  }

  /** A command out of turn changes nothing and is answered with invalid-state; so is one that finds no
      plugin; and hello in turn is answered with ok. */
  lemma WithoutGuest(env: Env, wd: World, m: Message)
    requires Handled(wd, m)
    ensures var (after, going) := Turn(env, wd, m);
            var id := m.requestId;
            && (!InTurn(wd.state, m.body) ==>
                  Reported(wd, after, going, id, "invalid-state",
                           Ascii("lifecycle command is not valid in the current state")))
            && (InTurn(wd.state, m.body) && m.body.Hello? ==>
                  going == Success(true) && Sends(wd.(state := AwaitLoad), after, id, OkReply))
            && (InTurn(wd.state, m.body) && !m.body.Hello? && !m.body.Load? && wd.plugin == None ==>
                  Reported(wd, after, going, id, "invalid-state", Ascii("Wasm payload is not loaded")))
  {
    hide Turn, FL.CanFrame, FL.FrameOf, Ascii, PluginCall, RuntimeError, D.FromWire, Reported;
    FaultReported(env, wd, m);
    R.TurnExact(env, wd, m);
  }

  /** How loading fails before the guest is entered: the attempt is counted and nothing else changes. */
  lemma LoadFailures(env: Env, wd: World, m: Message)
    requires Handled(wd, m) && m.body.Load? && wd.state == AwaitLoad && wd.plugin == None
    ensures var (after, going) := Turn(env, wd, m);
            var id := m.requestId;
            var tried := wd.(loads := wd.loads + 1);
            match env.load(wd.loads)
            case DescriptorFault(error) => Reported(tried, after, going, id, Spelled(error.code), error.message)
            case EngineFault(text) =>
              forall code: string :: Means(text, code) ==> Reported(tried, after, going, id, code, text)
            case ComponentFault(text) =>
              forall code: string :: Means(text, code) ==> Reported(tried, after, going, id, code, text)
            case InstantiateFault(text) => Reported(tried, after, going, id, "wit-mismatch", text)
            case Ready => true
  {
    hide Turn, FL.CanFrame, FL.FrameOf, Ascii, PluginCall, RuntimeError, Means, Reported;
    FaultReported(env, wd, m);
    match env.load(wd.loads)
    case EngineFault(text) =>
      forall code: string ensures Spelled(RuntimeError(text).code) == code <==> Means(text, code) {
        RuntimeErrorExact(text, code);
      }
      RuntimeErrorExact(text, "");
    case ComponentFault(text) =>
      forall code: string ensures Spelled(RuntimeError(text).code) == code <==> Means(text, code) {
        RuntimeErrorExact(text, code);
      }
      RuntimeErrorExact(text, "");
    case _ =>
  }

  // ---------------------------------------------------------------- commands that do

  /** The export call a command makes is its own, with its own arguments, in the plugin that is there or,
      for a load, in a new store with the command's owner and session. */
  lemma CallIsTheCommands(env: Env, wd: World, body: MessageBody)
    requires CallOf(env, wd, body).Some?
    ensures var (w, p, call) := CallOf(env, wd, body).value;
            && InTurn(wd.state, body)
            && match body
               case Load(_, _, pluginId, session) =>
                 && call == CallLoad && w.log == wd.wire.log + [Instantiated]
                 && p.pluginId == p.bridge.pluginId == pluginId && p.session == p.bridge.session == session
                 && p.bridge.next == 2 && p.history == [] && !p.poisoned && p.instance == wd.loads + 1
               case _ =>
                 && wd.plugin == Some(p) && w == wd.wire
                 && match body
                    case Enable => call == CallEnable
                    case Invoke(operation, input, callbackId) => call == CallInvoke(operation, input, callbackId)
                    case Disable => call == CallDisable
                    case Shutdown => call == CallUnload
                    case _ => false
  {
    hide D.FromWire;
  }

  /** The server after a command whose export call left the streams as `w` and the store as `p`. */
  function Settled(wd: World, w: Wire, p: Plugin, body: MessageBody, returned: bool): World {
    match body
    case Load(_, _, _, _) =>
      if returned then World(w, Loaded, Some(p), wd.loads + 1) else World(w, AwaitLoad, None, wd.loads + 1)
    case Enable => World(w, if returned then Enabled else Loaded, Some(p), wd.loads)
    case Disable => World(w, if returned then Disabled else Enabled, Some(p), wd.loads)
    case Shutdown => World(w, if returned then Closed else wd.state, None, wd.loads)
    case _ => World(w, wd.state, Some(p), wd.loads)
  }

  lemma DispatchSettles(env: Env, wd: World, body: MessageBody)
    requires IsCommand(body) && CallOf(env, wd, body).Some?
    ensures var (w, p, call) := CallOf(env, wd, body).value;
            var (w1, p1, result) := PluginCall(env, w, p, call);
            var (done, r) := Dispatch(env, wd, body);
            && done == Settled(wd, w1, p1, body, result.Output?)
            && r == (if body.Invoke? && result.Output? && D.FromWire(result.bytes).Err?
                     then Fault(RuntimeError(Ascii("invalid-value"))) else Classify(result))
  {
    hide PluginCall, D.FromWire, RuntimeError, Ascii, Dispatch, Labelled;
    DispatchOutcome(env, wd, body);
  }

  /** The guest's own part of a call: its imports, and how it ends. */
  function GuestPart(env: Env, w: Wire, p: Plugin, call: ExportCall): (Wire, Plugin, bool, GuestCall) {
    var entered := p.(active := true, history := p.history + [call]);
    var g := env.guest(p.instance, entered.history);
    var (w1, p1, completed) := RunOps(w.Log(Entered(call)), entered, g.ops);
    (w1, p1.(active := false), completed, g)
  }

  /** An output that is passed on: as a result if it decodes and fits, and as ok by every other command. */
  predicate PassedOn(done: World, after: World, going: Outcome<bool>, m: Message, output: seq<byte>) {
    if !m.body.Invoke? then
      going == Success(!m.body.Shutdown?) && Sends(done, after, m.requestId, OkReply)
    else if D.FromWire(output).Err? then
      Reported(done, after, going, m.requestId, "invalid-value", Ascii("invalid-value"))
    else if |output| > 16 * 1024 * 1024 - 47 then
      after == done && going == Invalid("message cannot be encoded as Bridge Value v1")
    else if |output| > 16 * 1024 * 1024 - 127 then
      after == done && going == Invalid("frame length is outside bounds")
    else going == Success(true) && Sends(done, after, m.requestId, ResultReply(output))
  }

  /** What the parent gets for a command whose guest is entered: the poison reason if the call poisoned the
      cell; else what the guest returned; else the guest's own error as "guest-error"; and for a trap, or an
      import that failed the call, whatever its text means. */
  lemma GuestIsAnswered(env: Env, wd: World, m: Message)
    requires Handled(wd, m) && CallOf(env, wd, m.body).Some? && !CallOf(env, wd, m.body).value.1.poisoned
    ensures var (w, p, call) := CallOf(env, wd, m.body).value;
            var (w1, p1, completed, g) := GuestPart(env, w, p, call);
            var (after, going) := Turn(env, wd, m);
            if w1.poison.Some? then going == Invalid(w1.poison.value)
            else if !completed || g.outcome.Traps? then
              var done := Settled(wd, w1.Log(Left(call, Trapped)), p1.(poisoned := true), m.body, false);
              forall code: string :: Means(g.failure, code) ==>
                Reported(done, after, going, m.requestId, code, g.failure)
            else
              match g.outcome
              case Fails(code, message) =>
                var done := Settled(wd, w1.Log(Left(call, GuestFailed(code))), p1, m.body, false);
                exists text: Text :: text == code + Ascii(": ") + message
                                     && Reported(done, after, going, m.requestId, "guest-error", text)
              case Returns(output) =>
                PassedOn(Settled(wd, w1.Log(Left(call, Returned)), p1, m.body, true), after, going, m, output)
  {
    hide Turn, FL.CanFrame, FL.FrameOf, Ascii, PluginCall, RuntimeError, D.FromWire, Reported, RunOps, Dispatch,
         CallOf, Means, Labelled;
    var (w, p, call) := CallOf(env, wd, m.body).value;
    CallEnds(env, w, p, call);
    DispatchSettles(env, wd, m.body);
    FaultReported(env, wd, m);
    R.TurnExact(env, wd, m);
    Unanswered(env, wd, m);
    R.InvalidValueIsRecoverable();
    var g := GuestPart(env, w, p, call).3;
    forall code: string ensures Spelled(RuntimeError(g.failure).code) == code <==> Means(g.failure, code) {
      RuntimeErrorExact(g.failure, code);
    }
    RuntimeErrorExact(g.failure, "");
    if g.outcome.Fails? {
      LabelledExact(g.outcome.code, g.outcome.message);
    } else if g.outcome.Returns? {
      assert D.FromWire(g.outcome.output).Ok? || D.FromWire(g.outcome.output).Err?;
      var output := g.outcome.output;
      var (w1, p1, completed, _) := GuestPart(env, w, p, call);
      if completed && w1.poison == None {
        var done := Settled(wd, w1.Log(Left(call, Returned)), p1, m.body, true);
        var (after, going) := Turn(env, wd, m);
        assert Dispatch(env, wd, m.body).0 == done;
        assert PassedOn(done, after, going, m, output);
      }
    }
  }

  lemma CallEnds(env: Env, w: Wire, p: Plugin, call: ExportCall)
    requires !p.poisoned
    ensures var (w1, p1, completed, g) := GuestPart(env, w, p, call);
            PluginCall(env, w, p, call) ==
            if !completed || g.outcome.Traps? then
              (w1.Log(Left(call, Trapped)), p1.(poisoned := true), EngineError(g.failure))
            else match g.outcome
                 case Fails(code, message) =>
                   (w1.Log(Left(call, GuestFailed(code))), p1, GuestError(Labelled(code, message)))
                 case Returns(output) => (w1.Log(Left(call, Returned)), p1, Output(output))
  {
    hide RunOps, Labelled;
  }

  /** So a trap that speaks of fuel ends the run as fuel-exhausted, whatever else its text says. */
  lemma OutOfFuelEnds(env: Env, wd: World, m: Message)
    requires Handled(wd, m) && CallOf(env, wd, m.body).Some? && !CallOf(env, wd, m.body).value.1.poisoned
    requires var (w, p, call) := CallOf(env, wd, m.body).value;
             var (w1, p1, completed, g) := GuestPart(env, w, p, call);
             w1.poison == None && g.outcome.Traps? && OutOfFuel(g.failure)
    ensures Turn(env, wd, m).1 == Invalid("fuel-exhausted")
  {
    hide Turn, FL.CanFrame, FL.FrameOf, Contains, CallOf, RunOps;
    var (w, p, call) := CallOf(env, wd, m.body).value;
    GuestIsAnswered(env, wd, m);
    assert Means(GuestPart(env, w, p, call).3.failure, "fuel-exhausted");
  }
}
