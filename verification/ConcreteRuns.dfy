/**
 Whole runs on given bytes with given guests: the inputs on which the obvious stronger claims about the
 server fail.
 */
module ConcreteRuns {
  import opened Bytes
  import BV = BridgeValue
  import CL = CodecLaws
  import D = Decoding
  import opened Protocol
  import opened Frames
  import FL = FrameLaws
  import opened Host
  import R = Replies
  import E = EdgeCases
  import CA = CommandAnswers

  // ---------------------------------------------------------------- the commands

  const HELLO := Message(1, Hello)
  const LOAD := Message(3, Load(Ascii("a"), Ascii("b"), 1, 1))
  const ENABLE := Message(5, Enable)

  lemma CommandsCanBeFramed()
    ensures FL.CanFrame(HELLO) && FL.CanFrame(LOAD) && FL.CanFrame(ENABLE)
  {
    hide Frame;
    FL.FrameExact(HELLO);
    FL.FrameExact(LOAD);
    FL.FrameExact(ENABLE);
  }

  /** One frame of the input, handled. */
  lemma ServeFrame(env: Env, wd: World, m: Message, rest: seq<byte>)
    requires FL.CanFrame(m) && wd.wire.input == FL.FrameOf(m) + rest
    ensures var received := wd.(wire := wd.wire.(input := rest).Log(Received(m)));
            var (after, going) := Turn(env, received, m);
            Serve(env, wd) == match going
                              case Failure(error) => (after, Failure(error))
                              case Success(false) => (after, Success(()))
                              case Success(true) => Serve(env, after)
  {
    hide FL.CanFrame, FL.FrameOf, ReadFrame, Turn, CloseOnEof;
    FL.ReadFramed(m, rest, wd.wire.broken);
  }

  // ---------------------------------------------------------------- guests and their first commands

  const SILENT := GuestCall([], Returns([]), [])

  /** A component that is there to be loaded, and a guest with this script. */
  function Hosting(script: seq<ExportCall> -> GuestCall): Env {
    Env((instance, history) => script(history), attempt => LoadOutcome.Ready)
  }

  /** A writer that works, and nothing refused so far. */
  predicate Smooth(wd: World, input: seq<byte>) {
    wd.wire.sink.room == None && wd.wire.poison == None && wd.wire.input == input && !wd.wire.broken
  }

  lemma HelloTurn(env: Env, wd: World, input: seq<byte>)
    requires Smooth(wd, input) && wd.state == AwaitHello && wd.plugin == None
    ensures var (after, going) := Turn(env, wd, HELLO);
            && going == Success(true) && Smooth(after, input)
            && after.state == AwaitLoad && after.plugin == None && after.loads == wd.loads
            && after.wire.log == wd.wire.log + [Sent(Message(1, OkReply))]
  {
    hide FL.CanFrame, FL.FrameOf, Turn;
    R.TurnExact(env, wd, HELLO);
  }

  /** What a load adds to the log when the guest just returns. */
  const LOAD_LOG := [Instantiated, Entered(CallLoad), Left(CallLoad, Returned), Sent(Message(3, OkReply))]

  lemma LoadTurn(script: seq<ExportCall> -> GuestCall, wd: World, input: seq<byte>)
    requires Smooth(wd, input) && wd.state == AwaitLoad && wd.plugin == None && script([CallLoad]) == SILENT
    ensures var (after, going) := Turn(Hosting(script), wd, LOAD);
            && going == Success(true) && Smooth(after, input) && after.state == Loaded
            && after.plugin == Some(NewStore(wd.loads + 1, 1, 1).(history := [CallLoad]))
            && after.wire.log == wd.wire.log + LOAD_LOG
  {
    hide FL.CanFrame, FL.FrameOf, Turn, Ascii;
    assert [] + [CallLoad] == [CallLoad];
    R.TurnExact(Hosting(script), wd, LOAD);
    var log := wd.wire.log;
    assert log + [LOAD_LOG[0]] + [LOAD_LOG[1]] + [LOAD_LOG[2]] + [LOAD_LOG[3]] == log + LOAD_LOG;
  }

  /** The export a lifecycle command calls. */
  function CallFor(body: MessageBody): ExportCall {
    if body.Enable? then CallEnable else if body.Disable? then CallDisable else CallUnload
  }

  /** A lifecycle command in turn, with a guest that just returns. */
  lemma QuietTurn(script: seq<ExportCall> -> GuestCall, wd: World, m: Message, input: seq<byte>, p: Plugin)
    requires Smooth(wd, input) && CA.InTurn(wd.state, m.body) && wd.plugin == Some(p) && !p.poisoned && !p.active
    requires (m.body.Enable? || m.body.Disable? || m.body.Shutdown?) && m.requestId % 2 == 1 && m.requestId < I64_LIMIT
    requires script(p.history + [CallFor(m.body)]) == SILENT
    ensures var (after, going) := Turn(Hosting(script), wd, m);
            var call := CallFor(m.body);
            && going == Success(!m.body.Shutdown?) && Smooth(after, input)
            && after.state == (if m.body.Enable? then Enabled else if m.body.Disable? then Disabled else Closed)
            && after.plugin == (if m.body.Shutdown? then None else Some(p.(history := p.history + [call])))
            && after.wire.log
            == wd.wire.log + [Entered(call), Left(call, Returned), Sent(Message(m.requestId, OkReply))]
  {
    hide FL.CanFrame, FL.FrameOf, Turn, Ascii, CA.Reported;
    var env, call := Hosting(script), CallFor(m.body);
    assert env.guest(p.instance, p.history + [call]) == SILENT;
    CA.GuestIsAnswered(env, wd, m);
    var log := wd.wire.log;
    assert log + [Entered(call)] + [Left(call, Returned)] + [Sent(Message(m.requestId, OkReply))]
        == log + [Entered(call), Left(call, Returned), Sent(Message(m.requestId, OkReply))];
  }

  /** The input that gets a guest loaded, and the server it leads to. */
  lemma Loading(script: seq<ExportCall> -> GuestCall, rest: seq<byte>) returns (wd: World)
    requires script([CallLoad]) == SILENT
    ensures FL.CanFrame(HELLO) && FL.CanFrame(LOAD)
    ensures Serve(Hosting(script), Initial(FL.FrameOf(HELLO) + (FL.FrameOf(LOAD) + rest), false, None))
         == Serve(Hosting(script), wd)
    ensures Smooth(wd, rest) && wd.state == Loaded && wd.plugin == Some(NewStore(1, 1, 1).(history := [CallLoad]))
    ensures wd.wire.log == [Received(HELLO), Sent(Message(1, OkReply)), Received(LOAD)] + LOAD_LOG
  {
    hide FL.CanFrame, FL.FrameOf, Serve, Turn, HELLO, LOAD;
    var env := Hosting(script);
    CommandsCanBeFramed();
    var wd0 := Initial(FL.FrameOf(HELLO) + (FL.FrameOf(LOAD) + rest), false, None);
    ServeFrame(env, wd0, HELLO, FL.FrameOf(LOAD) + rest);
    var read0 := wd0.(wire := wd0.wire.(input := FL.FrameOf(LOAD) + rest).Log(Received(HELLO)));
    HelloTurn(env, read0, FL.FrameOf(LOAD) + rest);
    var wd1 := Turn(env, read0, HELLO).0;
    ServeFrame(env, wd1, LOAD, rest);
    var read1 := wd1.(wire := wd1.wire.(input := rest).Log(Received(LOAD)));
    LoadTurn(script, read1, rest);
    wd := Turn(env, read1, LOAD).0;
  }

  // ---------------------------------------------------------------- success with a poisoned cell

  /** Retains a handle in every call but the first. */
  function Retaining(history: seq<ExportCall>): GuestCall {
    if history == [CallLoad] then SILENT else GuestCall([OpRetain(1, 1)], Returns([]), [])
  }

  const MISSING := "callback response is missing"

  function Retain(id: u64): Message {
    Message(id, RetainHandle(1, 1))
  }

  lemma RetainCanBeFramed(id: u64)
    requires id % 2 == 0 && 0 < id < I64_LIMIT
    ensures NewMessage(id, Retain(id).body) == Success(Retain(id)) && FL.CanFrame(Retain(id))
  {
    hide Frame;
    FL.FrameExact(Retain(id));
  }

  /** With no input left, a handle callback is written and then refused; the first reason stays. */
  lemma RetainUnanswered(w: Wire, p: Plugin)
    requires w.input == [] && !w.broken && w.sink.room == None
    requires p.active && p.bridge.next % 2 == 0 && 0 < p.bridge.next < I64_LIMIT && p.bridge.session == p.session
    ensures var (w', p', r) := Import(w, p, OpRetain(1, 1));
            && w'.input == [] && !w'.broken && w'.sink.room == None
            && w'.poison == Some(if w.poison.Some? then w.poison.value else MISSING)
            && w'.log == w.log + [Sent(Retain(p.bridge.next)), Refused(MISSING)]
            && p' == p.(bridge := p.bridge.(next := p.bridge.next + 2)) && !r.Abort?
  {
    hide NewMessage, FL.CanFrame, FL.FrameOf, PutFrame, D.FromWire, Ascii, FromWire;
    var m := Retain(p.bridge.next);
    RetainCanBeFramed(m.requestId);
    WellFormedRetain(m.requestId);
    R.PutWorks(w.sink, m);
    assert w.log + [Sent(m)] + [Refused(MISSING)] == w.log + [Sent(m), Refused(MISSING)];
  }

  lemma WellFormedRetain(id: u64)
    requires NewMessage(id, Retain(id).body) == Success(Retain(id))
    ensures WellFormed(Retain(id))
  {
  }

  lemma UnloadUnanswered(wd: World)
    requires Smooth(wd, []) && wd.state == Loaded
    requires wd.plugin == Some(NewStore(1, 1, 1).(history := [CallLoad]))
    ensures var (after, r) := Serve(Hosting(Retaining), wd);
            r == Success(()) && after.wire.poison == Some(MISSING)
  {
    hide Import, ReadFrame, Ascii, Labelled, NewMessage, PutFrame, D.FromWire;
    FL.EmptyInput();
    var p := wd.plugin.value;
    var entered := p.(active := true, history := p.history + [CallUnload]);
    assert Hosting(Retaining).guest(1, entered.history) == Retaining(entered.history);
    assert entered.history != [CallLoad];
    RetainUnanswered(wd.wire.Log(EndOfStream).Log(Entered(CallUnload)), entered);
    assert [OpRetain(1, 1)][1..] == [];
  }

  /** The guest is loaded, the input ends, the guest calls back while it is unloaded, nobody answers:
      the cell is poisoned and `serve` reports success. */
  lemma SuccessWithPoison()
    ensures FL.CanFrame(HELLO) && FL.CanFrame(LOAD)
    ensures var (after, r) := Serve(Hosting(Retaining), Initial(FL.FrameOf(HELLO) + FL.FrameOf(LOAD), false, None));
            r == Success(()) && after.wire.poison == Some(MISSING)
  {
    hide FL.CanFrame, FL.FrameOf, HELLO, LOAD, Serve;
    var wd := Loading(Retaining, []);
    assert FL.FrameOf(LOAD) + [] == FL.FrameOf(LOAD);
    UnloadUnanswered(wd);
  }

  // ---------------------------------------------------------------- callbacks after a refusal

  /** Retains a handle twice in its first call. */
  function Insistent(history: seq<ExportCall>): GuestCall {
    GuestCall([OpRetain(1, 1), OpRetain(1, 1)], Returns([]), [])
  }

  /** What the second command adds to the log. */
  const INSISTENT_LOG := [
    Instantiated, Entered(CallLoad), Sent(Retain(2)), Refused(MISSING), Sent(Retain(4)), Refused(MISSING),
    Left(CallLoad, Returned)]

  lemma InsistentCall(w: Wire, p: Plugin)
    requires w.input == [] && !w.broken && w.sink.room == None && w.poison == None
    requires p == NewStore(p.instance, p.pluginId, p.session)
    ensures var w' := PluginCall(Hosting(Insistent), w, p, CallLoad).0;
            && w'.poison == Some(MISSING)
            && w'.log == w.log + INSISTENT_LOG[1..]
  {
    hide Import;
    var env := Hosting(Insistent);
    var entered := p.(active := true, history := p.history + [CallLoad]);
    assert env.guest(p.instance, entered.history) == Insistent(entered.history);
    var ops := [OpRetain(1, 1), OpRetain(1, 1)];
    var w0 := w.Log(Entered(CallLoad));
    RetainUnanswered(w0, entered);
    var (w1, p1, _) := Import(w0, entered, ops[0]);
    RetainUnanswered(w1, p1);
    assert ops[1..] == [OpRetain(1, 1)] && ops[1..][1..] == [];
  }

  lemma InsistentTurn(wd: World)
    requires Smooth(wd, []) && wd.state == AwaitLoad && wd.plugin == None
    ensures var (after, going) := Turn(Hosting(Insistent), wd, LOAD);
            going == Invalid(MISSING) && after.wire.log == wd.wire.log + INSISTENT_LOG
  {
    hide FL.CanFrame, FL.FrameOf, Turn, Ascii, PluginCall, Dispatch;
    var env := Hosting(Insistent);
    var store := NewStore(wd.loads + 1, 1, 1);
    InsistentCall(wd.wire.Log(Instantiated), store);
    DispatchOutcome(env, wd, LOAD.body);
    R.TurnExact(env, wd, LOAD);
    assert wd.wire.log + [Instantiated] + INSISTENT_LOG[1..] == wd.wire.log + INSISTENT_LOG;
  }

  /** The guest calls back while it is loaded, nobody answers, and it calls back again: the second callback
      leaves all the same. `EdgeCases.ImportSendsExact` says when one does. */
  lemma CallbackAfterRefusal()
    ensures FL.CanFrame(HELLO) && FL.CanFrame(LOAD)
    ensures var input := FL.FrameOf(HELLO) + (FL.FrameOf(LOAD) + []);
            var (after, r) := Serve(Hosting(Insistent), Initial(input, false, None));
            var log := after.wire.log;
            && r == Invalid(MISSING) && |log| >= |INSISTENT_LOG|
            && log[|log| - |INSISTENT_LOG|..] == INSISTENT_LOG
  {
    hide FL.CanFrame, FL.FrameOf, HELLO, LOAD, Serve, Turn, INSISTENT_LOG;
    var env := Hosting(Insistent);
    CommandsCanBeFramed();
    var wd0 := Initial(FL.FrameOf(HELLO) + (FL.FrameOf(LOAD) + []), false, None);
    ServeFrame(env, wd0, HELLO, FL.FrameOf(LOAD) + []);
    var read0 := wd0.(wire := wd0.wire.(input := FL.FrameOf(LOAD) + []).Log(Received(HELLO)));
    HelloTurn(env, read0, FL.FrameOf(LOAD) + []);
    var wd1 := Turn(env, read0, HELLO).0;
    ServeFrame(env, wd1, LOAD, []);
    InsistentTurn(wd1.(wire := wd1.wire.(input := []).Log(Received(LOAD))));
  }

  // ---------------------------------------------------------------- a server without plugin

  const SHUTDOWN := Message(5, Shutdown)

  /** Refuses every call but the first. */
  function Clinging(history: seq<ExportCall>): GuestCall {
    if history == [CallLoad] then SILENT else GuestCall([], Fails(Ascii("x"), Ascii("y")), [])
  }

  const CLINGING_LOG := [Entered(CallUnload), Left(CallUnload, GuestFailed(Ascii("x")))]

  /** The last but one event and those before it. */
  predicate EndsWith(log: seq<Event>, events: seq<Event>) {
    |log| > |events| && log[|log| - 1 - |events|..|log| - 1] == events
  }

  lemma ClingingTurn(wd: World, input: seq<byte>)
    requires Smooth(wd, input) && wd.state == Loaded
    requires wd.plugin == Some(NewStore(1, 1, 1).(history := [CallLoad]))
    ensures var (after, going) := Turn(Hosting(Clinging), wd, SHUTDOWN);
            && going == Success(true) && E.Stranded(after) && after.wire.input == input
            && EndsWith(after.wire.log, CLINGING_LOG) && after.wire.log[|after.wire.log| - 1].Sent?
  {
    hide FL.CanFrame, FL.FrameOf, Turn, Ascii, Dispatch;
    var env := Hosting(Clinging);
    var history := [CallLoad] + [CallUnload];
    assert history != [CallLoad];
    assert env.guest(1, history) == Clinging(history);
    DispatchOutcome(env, wd, SHUTDOWN.body);
    R.TurnExact(env, wd, SHUTDOWN);
    assert wd.wire.log + [CLINGING_LOG[0]] + [CLINGING_LOG[1]] == wd.wire.log + CLINGING_LOG;
  }

  /** The guest is loaded and refuses to be unloaded. That is answered, and whatever follows in the input,
      the rest of the run is commands and their refusals and cannot succeed before the input ends. */
  lemma UnloadStrands(rest: seq<byte>) returns (stranded: World)
    ensures FL.CanFrame(HELLO) && FL.CanFrame(LOAD) && FL.CanFrame(SHUTDOWN)
    ensures E.Stranded(stranded) && stranded.wire.input == rest
    ensures EndsWith(stranded.wire.log, CLINGING_LOG) && stranded.wire.log[|stranded.wire.log| - 1].Sent?
    ensures var input := FL.FrameOf(HELLO) + (FL.FrameOf(LOAD) + (FL.FrameOf(SHUTDOWN) + rest));
            var (after, r) := Serve(Hosting(Clinging), Initial(input, false, None));
            var log := after.wire.log;
            && (after, r) == Serve(Hosting(Clinging), stranded)
            && stranded.wire.log <= log && E.OnlyRefusals(log, |stranded.wire.log|)
            && (r.Success? ==> log != [] && log[|log| - 1] == EndOfStream)
  {
    hide FL.CanFrame, FL.FrameOf, HELLO, LOAD, SHUTDOWN, Serve, Turn, E.OnlyRefusals, EndsWith, CLINGING_LOG;
    var env := Hosting(Clinging);
    ShutdownCanBeFramed();
    var wd := Loading(Clinging, FL.FrameOf(SHUTDOWN) + rest);
    ServeFrame(env, wd, SHUTDOWN, rest);
    var read := wd.(wire := wd.wire.(input := rest).Log(Received(SHUTDOWN)));
    ClingingTurn(read, rest);
    stranded := Turn(env, read, SHUTDOWN).0;
    E.StrandedForGood(env, stranded);
  }

  lemma ShutdownCanBeFramed()
    ensures FL.CanFrame(SHUTDOWN)
  {
    hide Frame;
    FL.FrameExact(SHUTDOWN);
  }

  // ---------------------------------------------------------------- results that are not answered

  function Repeat(b: byte, n: nat): (s: seq<byte>)
    ensures |s| == n && forall i | 0 <= i < n :: s[i] == b
  {
    if n == 0 then [] else [b] + Repeat(b, n - 1)
  }

  const BIG := BV.Bytes(Repeat(0, MAX_FRAME_BYTES))
  const INVOKE := Message(7, Invoke(Ascii("x"), BV.Wire(BV.Null), 0))

  function Big(history: seq<ExportCall>): GuestCall {
    if history != [] && history[|history| - 1].CallInvoke? then GuestCall([], Returns(BV.Wire(BIG)), []) else SILENT
  }

  /** A payload that decodes and is too long for a reply. */
  lemma BigDecodes()
    ensures D.FromWire(BV.Wire(BIG)) == BV.Ok(BIG) && |BV.Wire(BIG)| == MAX_FRAME_BYTES + 7
  {
    hide D.FromWire, BigEndian;
    CL.EncodeThenDecode(BIG);
  }

  lemma InvokeCanBeFramed()
    ensures FL.CanFrame(INVOKE) && D.FromWire(INVOKE.body.input).Ok?
  {
    hide Frame, D.FromWire;
    CL.EncodeThenDecode(BV.Null);
    assert |BV.Wire(BV.Null)| == 3;
    FL.FrameExact(INVOKE);
  }

  lemma BigTurn(wd: World, p: Plugin)
    requires Smooth(wd, []) && wd.state == Enabled && wd.plugin == Some(p) && !p.poisoned && !p.active
    ensures var (after, going) := Turn(Hosting(Big), wd, INVOKE);
            var call := CallInvoke(INVOKE.body.operation, INVOKE.body.input, 0);
            && going.Failure? && after.wire.poison == None && after.wire.sink == wd.wire.sink
            && after.wire.log == wd.wire.log + [Entered(call), Left(call, Returned)]
  {
    hide FL.CanFrame, FL.FrameOf, Turn, Ascii, D.FromWire, BV.Wire, BIG;
    BigDecodes();
    InvokeCanBeFramed();
    var call := CallInvoke(INVOKE.body.operation, INVOKE.body.input, 0);
    var h := p.history + [call];
    assert |h| > 0 && h[|h| - 1] == call;
    var env := Hosting(Big);
    assert env.guest(p.instance, h) == Big(h);
    assert wd.wire.log + [Entered(call)] + [Left(call, Returned)]
        == wd.wire.log + [Entered(call), Left(call, Returned)];
    R.TurnExact(env, wd, INVOKE);
    assert Turn(env, wd, INVOKE).1.Failure?;
  }

  /** An invoke of an enabled guest that returns a valid value: no poison, no trap, no answer. */
  lemma ResultEndsTheRun()
    ensures FL.CanFrame(HELLO) && FL.CanFrame(LOAD) && FL.CanFrame(ENABLE) && FL.CanFrame(INVOKE)
    ensures var input := FL.FrameOf(HELLO) + (FL.FrameOf(LOAD) + (FL.FrameOf(ENABLE) + (FL.FrameOf(INVOKE) + [])));
            var (after, r) := Serve(Hosting(Big), Initial(input, false, None));
            var log := after.wire.log;
            && r.Failure? && after.wire.poison == None
            && log != []
            && var last := log[|log| - 1]; last.Left? && last.call.CallInvoke? && last.outcome == Returned
  {
    hide FL.CanFrame, FL.FrameOf, HELLO, LOAD, Serve, Turn, BV.Wire, BIG, Ascii;
    var env := Hosting(Big);
    CommandsCanBeFramed();
    InvokeCanBeFramed();
    var wd := Loading(Big, FL.FrameOf(ENABLE) + (FL.FrameOf(INVOKE) + []));
    ServeFrame(env, wd, ENABLE, FL.FrameOf(INVOKE) + []);
    var read1 := wd.(wire := wd.wire.(input := FL.FrameOf(INVOKE) + []).Log(Received(ENABLE)));
    QuietTurn(Big, read1, ENABLE, FL.FrameOf(INVOKE) + [], read1.plugin.value);
    var wd1 := Turn(env, read1, ENABLE).0;
    ServeFrame(env, wd1, INVOKE, []);
    var read2 := wd1.(wire := wd1.wire.(input := []).Log(Received(INVOKE)));
    BigTurn(read2, read2.plugin.value);
  }

  // ---------------------------------------------------------------- errors that are not answered

  function Long(): (t: Text)
    ensures |t| == MAX_ERROR_MESSAGE_BYTES
  {
    var t := Repeat(0x61, MAX_ERROR_MESSAGE_BYTES);
    AsciiIsUtf8(t);
    t
  }

  /** Refuses to be loaded, at length. */
  function Verbose(history: seq<ExportCall>): GuestCall {
    GuestCall([], Fails(Ascii("x"), Long()), [])
  }

  lemma VerboseTurn(wd: World)
    requires Smooth(wd, []) && wd.state == AwaitLoad && wd.plugin == None
    ensures var (after, going) := Turn(Hosting(Verbose), wd, LOAD);
            going.Failure? && after.wire.poison == None && after.wire.sink == wd.wire.sink
  {
    hide FL.CanFrame, FL.FrameOf, Turn, Ascii;
    var env := Hosting(Verbose);
    assert env.guest(wd.loads + 1, [] + [CallLoad]) == Verbose([] + [CallLoad]);
    DispatchOutcome(env, wd, LOAD.body);
    R.TurnExact(env, wd, LOAD);
    assert Turn(env, wd, LOAD).1.Failure?;
  }

  /** A recoverable guest error ends the run when its text is too long. */
  lemma ErrorEndsTheRun()
    ensures FL.CanFrame(HELLO) && FL.CanFrame(LOAD)
    ensures var input := FL.FrameOf(HELLO) + (FL.FrameOf(LOAD) + []);
            var (after, r) := Serve(Hosting(Verbose), Initial(input, false, None));
            r.Failure? && after.wire.poison == None && !Fatal(GuestFailure)
  {
    hide FL.CanFrame, FL.FrameOf, HELLO, LOAD, Serve, Turn;
    var env := Hosting(Verbose);
    CommandsCanBeFramed();
    var wd0 := Initial(FL.FrameOf(HELLO) + (FL.FrameOf(LOAD) + []), false, None);
    ServeFrame(env, wd0, HELLO, FL.FrameOf(LOAD) + []);
    var read0 := wd0.(wire := wd0.wire.(input := FL.FrameOf(LOAD) + []).Log(Received(HELLO)));
    HelloTurn(env, read0, FL.FrameOf(LOAD) + []);
    var wd1 := Turn(env, read0, HELLO).0;
    ServeFrame(env, wd1, LOAD, []);
    VerboseTurn(wd1.(wire := wd1.wire.(input := []).Log(Received(LOAD))));
  }

  // ---------------------------------------------------------------- a complete lifecycle

  const ASK := Message(2, BridgeInvoke(Ascii("x"), BV.Wire(BV.Null)))
  const ANSWER := Message(2, CallbackResult(BV.Wire(BV.Bool(true))))
  const DISABLE := Message(9, Disable)
  const CLOSE := Message(11, Shutdown)

  /** Invokes the Bridge once in every invoke. */
  function Asking(history: seq<ExportCall>): GuestCall {
    if history != [] && history[|history| - 1].CallInvoke?
    then GuestCall([OpInvoke(Ascii("x"), BV.Wire(BV.Null))], Returns(BV.Wire(BV.Null)), [])
    else SILENT
  }

  lemma CallbacksCanBeFramed()
    ensures FL.CanFrame(ASK) && FL.CanFrame(ANSWER)
    ensures D.FromWire(BV.Wire(BV.Null)).Ok? && D.FromWire(BV.Wire(BV.Bool(true))).Ok?
    ensures |BV.Wire(BV.Null)| == 3
  {
    hide Frame, D.FromWire;
    CL.EncodeThenDecode(BV.Null);
    CL.EncodeThenDecode(BV.Bool(true));
    assert |BV.Wire(BV.Null)| == 3 && |BV.Wire(BV.Bool(true))| == 3;
    FL.FrameExact(ASK);
    FL.FrameExact(ANSWER);
  }

  lemma ClosingCanBeFramed()
    ensures FL.CanFrame(DISABLE) && FL.CanFrame(CLOSE)
  {
    hide Frame;
    FL.FrameExact(DISABLE);
    FL.FrameExact(CLOSE);
  }

  /** The callback leaves, its response is read, and the guest gets what the response says. */
  lemma AskIsAnswered(w: Wire, p: Plugin, rest: seq<byte>)
    requires FL.CanFrame(ASK) && FL.CanFrame(ANSWER)
    requires w.sink.room == None && w.poison == None && !w.broken && w.input == FL.FrameOf(ANSWER) + rest
    requires p.active && p.bridge == Bridge(p.pluginId, p.session, 2)
    ensures var (w', p', r) := Import(w, p, OpInvoke(Ascii("x"), BV.Wire(BV.Null)));
            && r == Answer(BV.Wire(BV.Bool(true)))
            && w' == w.(input := rest, sink := w'.sink, log := w.log + [Sent(ASK), Received(ANSWER)])
            && w'.sink.room == None && p' == p.(bridge := p.bridge.(next := 4))
  {
    hide NewMessage, FL.CanFrame, FL.FrameOf, PutFrame, D.FromWire, Ascii, ReadFrame, BV.Wire;
    CallbacksCanBeFramed();
    AskIsWellFormed();
    R.PutWorks(w.sink, ASK);
    FL.ReadFramed(ANSWER, rest, w.broken);
    assert w.log + [Sent(ASK)] + [Received(ANSWER)] == w.log + [Sent(ASK), Received(ANSWER)];
  }

  lemma AskIsWellFormed()
    requires FL.CanFrame(ASK)
    ensures NewMessage(2, ASK.body) == Success(ASK) && WellFormed(ASK)
  {
  }

  const INVOKE_CALL := CallInvoke(INVOKE.body.operation, INVOKE.body.input, INVOKE.body.callbackId)

  lemma AskingTurn(wd: World, p: Plugin, rest: seq<byte>)
    requires FL.CanFrame(ASK) && FL.CanFrame(ANSWER)
    requires Smooth(wd, FL.FrameOf(ANSWER) + rest) && wd.state == Enabled && wd.plugin == Some(p)
    requires !p.poisoned && p.bridge == Bridge(p.pluginId, p.session, 2)
    ensures var (after, going) := Turn(Hosting(Asking), wd, INVOKE);
            && going == Success(true) && Smooth(after, rest) && after.state == Enabled
            && after.plugin
            == Some(p.(active := false, bridge := p.bridge.(next := 4), history := p.history + [INVOKE_CALL]))
            && after.wire.log == wd.wire.log + ASK_LOG
  {
    hide FL.CanFrame, FL.FrameOf, Turn, Ascii, CA.Reported, D.FromWire, BV.Wire, Import;
    InvokeCanBeFramed();
    CallbacksCanBeFramed();
    var env, entered := Hosting(Asking), p.(active := true, history := p.history + [INVOKE_CALL]);
    assert env.guest(p.instance, entered.history) == Asking(entered.history);
    AskIsAnswered(wd.wire.Log(Entered(INVOKE_CALL)), entered, rest);
    assert [OpInvoke(Ascii("x"), BV.Wire(BV.Null))][1..] == [];
    CA.GuestIsAnswered(env, wd, INVOKE);
    var log := wd.wire.log;
    assert log + [ASK_LOG[0]] + [ASK_LOG[1], ASK_LOG[2]] + [ASK_LOG[3]] + [ASK_LOG[4]] == log + ASK_LOG;
  }

  /** What the invoke adds to the log. */
  const ASK_LOG := [
    Entered(INVOKE_CALL), Sent(ASK), Received(ANSWER), Left(INVOKE_CALL, Returned),
    Sent(Message(7, ResultReply(BV.Wire(BV.Null))))]

  function Handled(m: Message, call: ExportCall): seq<Event> {
    [Received(m), Entered(call), Left(call, Returned), Sent(Message(m.requestId, OkReply))]
  }

  /** The six commands in turn, with a callback that is answered inside the invoke: success, every command
      answered, and this is everything that happens. */
  lemma CompleteLifecycle()
    ensures FL.CanFrame(HELLO) && FL.CanFrame(LOAD) && FL.CanFrame(ENABLE) && FL.CanFrame(INVOKE)
    ensures FL.CanFrame(ANSWER) && FL.CanFrame(DISABLE) && FL.CanFrame(CLOSE)
    ensures var end := FL.FrameOf(DISABLE) + (FL.FrameOf(CLOSE) + []);
            var middle := FL.FrameOf(ENABLE) + (FL.FrameOf(INVOKE) + (FL.FrameOf(ANSWER) + end));
            var input := FL.FrameOf(HELLO) + (FL.FrameOf(LOAD) + middle);
            var (after, r) := Serve(Hosting(Asking), Initial(input, false, None));
            && r == Success(()) && after.state == Closed && after.plugin == None && after.wire.poison == None
            && after.wire.log
            == [Received(HELLO), Sent(Message(1, OkReply)), Received(LOAD)] + LOAD_LOG
               + Handled(ENABLE, CallEnable) + ([Received(INVOKE)] + ASK_LOG)
               + Handled(DISABLE, CallDisable) + Handled(CLOSE, CallUnload)
  {
    hide FL.CanFrame, FL.FrameOf, HELLO, LOAD, Serve, Turn, BV.Wire, Ascii, LOAD_LOG, ASK_LOG, INVOKE, ASK, ANSWER;
    var env := Hosting(Asking);
    CommandsCanBeFramed();
    InvokeCanBeFramed();
    CallbacksCanBeFramed();
    ClosingCanBeFramed();
    var end := FL.FrameOf(DISABLE) + (FL.FrameOf(CLOSE) + []);
    var afterEnable := FL.FrameOf(INVOKE) + (FL.FrameOf(ANSWER) + end);
    var wd := Loading(Asking, FL.FrameOf(ENABLE) + afterEnable);
    var wd1 := QuietStep(Asking, wd, ENABLE, afterEnable, wd.plugin.value);
    var wd2 := AskingStep(wd1, wd1.plugin.value, end);
    var wd3 := QuietStep(Asking, wd2, DISABLE, FL.FrameOf(CLOSE) + [], wd2.plugin.value);
    var wd4 := QuietStep(Asking, wd3, CLOSE, [], wd3.plugin.value);
  }

  /** One frame with a lifecycle command, read and handled. */
  lemma QuietStep(script: seq<ExportCall> -> GuestCall, wd: World, m: Message, rest: seq<byte>, p: Plugin)
    returns (after: World)
    requires FL.CanFrame(m) && m.requestId % 2 == 1
    requires Smooth(wd, FL.FrameOf(m) + rest) && CA.InTurn(wd.state, m.body) && wd.plugin == Some(p)
    requires !p.poisoned && !p.active && (m.body.Enable? || m.body.Disable? || m.body.Shutdown?)
    requires script(p.history + [CallFor(m.body)]) == SILENT
    ensures var call := CallFor(m.body);
            && Serve(Hosting(script), wd)
            == (if m.body.Shutdown? then (after, Success(())) else Serve(Hosting(script), after))
            && Smooth(after, rest) && after.wire.log == wd.wire.log + Handled(m, call)
            && after.state == (if m.body.Enable? then Enabled else if m.body.Disable? then Disabled else Closed)
            && after.plugin == (if m.body.Shutdown? then None else Some(p.(history := p.history + [call])))
  {
    hide FL.CanFrame, FL.FrameOf, Serve, Turn;
    InRange(m);
    ServeFrame(Hosting(script), wd, m, rest);
    var read := wd.(wire := wd.wire.(input := rest).Log(Received(m)));
    QuietTurn(script, read, m, rest, p);
    after := Turn(Hosting(script), read, m).0;
    assert wd.wire.log + [Received(m)] + Handled(m, CallFor(m.body))[1..] == wd.wire.log + Handled(m, CallFor(m.body));
  }

  lemma InRange(m: Message)
    requires FL.CanFrame(m)
    ensures m.requestId < I64_LIMIT
  {
  }

  lemma AskingStep(wd: World, p: Plugin, rest: seq<byte>) returns (after: World)
    requires FL.CanFrame(INVOKE) && FL.CanFrame(ASK) && FL.CanFrame(ANSWER)
    requires Smooth(wd, FL.FrameOf(INVOKE) + (FL.FrameOf(ANSWER) + rest)) && wd.state == Enabled
    requires wd.plugin == Some(p) && !p.poisoned && p.bridge == Bridge(p.pluginId, p.session, 2)
    ensures Serve(Hosting(Asking), wd) == Serve(Hosting(Asking), after)
    ensures Smooth(after, rest) && after.state == Enabled
    ensures after.wire.log == wd.wire.log + ([Received(INVOKE)] + ASK_LOG)
    ensures after.plugin
         == Some(p.(active := false, bridge := p.bridge.(next := 4), history := p.history + [INVOKE_CALL]))
  {
    hide FL.CanFrame, FL.FrameOf, Serve, Turn, ASK_LOG;
    ServeFrame(Hosting(Asking), wd, INVOKE, FL.FrameOf(ANSWER) + rest);
    var read := wd.(wire := wd.wire.(input := FL.FrameOf(ANSWER) + rest).Log(Received(INVOKE)));
    AskingTurn(read, p, rest);
    after := Turn(Hosting(Asking), read, INVOKE).0;
    assert wd.wire.log + [Received(INVOKE)] + ASK_LOG == wd.wire.log + ([Received(INVOKE)] + ASK_LOG);
  }
}
