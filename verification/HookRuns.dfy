/**
 The server hosting the launch hook: over whole runs, the server's state and the hook's own state
 move together, so the hook never has to refuse a lifecycle call.
 */
module HookRuns {
  import opened Bytes
  import LH = LaunchHook
  import opened Protocol
  import opened Frames
  import opened Host
  import L = Lifecycles
  import D = Decoding

  // ---------------------------------------------------------------- the hook as a guest

  /** The hook's state after a call, whatever the call answers. */
  function Moves(state: nat, call: ExportCall): nat {
    match call
    case CallLoad => if state == LH.CREATED then LH.LOADED else state
    case CallEnable => if state == LH.LOADED then LH.ENABLED else state
    case CallInvoke(_, _, _) => state
    case CallDisable => if state == LH.ENABLED then LH.LOADED else state
    case CallUnload => if state == LH.LOADED then LH.CREATED else state
  }

  function StateAfter(history: seq<ExportCall>): nat {
    if history == [] then LH.CREATED
    else Moves(StateAfter(history[..|history| - 1]), history[|history| - 1])
  }

  function Answered(r: LH.Hook<seq<byte>>): GuestOutcome {
    match r
    case Done(output) => Returns(output)
    case Denied(error) => Fails(Ascii(error.code), Ascii(error.message))
  }

  function Moved(accepted: bool): GuestOutcome {
    Answered(if accepted then LH.Done([]) else LH.Denied(LH.INVALID_TRANSITION))
  }

  /** What the hook answers to a call. */
  function OutcomeOf(state: nat, call: ExportCall): GuestOutcome {
    match call
    case CallLoad => Moved(state == LH.CREATED)
    case CallEnable => Moved(state == LH.LOADED)
    case CallInvoke(operation, input, _) =>
      Answered(
        if state != LH.ENABLED then LH.Denied(LH.NOT_ENABLED)
        else if operation == LH.PATCH_OPERATION then LH.OnPatch(input)
        else if operation == LH.HOOK_OPERATION then LH.OnEvent(input)
        else LH.InvalidArgument("unsupported operation"))
    case CallDisable => Moved(state == LH.ENABLED)
    case CallUnload => Moved(state == LH.LOADED)
  }

  /** The answers by name: which operation is which, and every refusal in the hook's words. */
  lemma OutcomesByName(state: nat, operation: Text, input: seq<byte>, callbackId: u64)
    ensures OutcomeOf(state, CallInvoke(operation, input, callbackId)) ==
            if state != 2 then Fails(Ascii("invalid-state"), Ascii("plugin is not enabled"))
            else if operation == Ascii("aura.patch.v1") then Answered(LH.OnPatch(input))
            else if operation == Ascii("hook.before-game-launch") then Answered(LH.OnEvent(input))
            else Fails(Ascii("invalid-argument"), Ascii("unsupported operation"))
    ensures forall call: ExportCall | !call.CallInvoke? ::
              var accepted := match call
                              case CallLoad => state == 0
                              case CallEnable => state == 1
                              case CallDisable => state == 2
                              case _ => state == 1;
              OutcomeOf(state, call) ==
              if accepted then Returns([])
              else Fails(Ascii("invalid-state"), Ascii("invalid plugin lifecycle transition"))
  {
    hide Ascii, LH.OnPatch, LH.OnEvent;
    OperationsDiffer();
  }

  /** The cycle of the three states. */
  lemma MovesByName(state: nat)
    ensures Moves(state, CallLoad) == (if state == 0 then 1 else state)
    ensures Moves(state, CallEnable) == (if state == 1 then 2 else state)
    ensures Moves(state, CallDisable) == (if state == 2 then 1 else state)
    ensures Moves(state, CallUnload) == (if state == 1 then 0 else state)
    ensures forall call: ExportCall | call.CallInvoke? :: Moves(state, call) == state
    ensures StateAfter([CallLoad, CallEnable, CallDisable, CallUnload]) == StateAfter([]) == 0
  {
    assert [CallLoad][..0] == [] && [CallLoad, CallEnable][..1] == [CallLoad];
    assert [CallLoad, CallEnable, CallDisable][..2] == [CallLoad, CallEnable];
    assert [CallLoad, CallEnable, CallDisable, CallUnload][..3] == [CallLoad, CallEnable, CallDisable];
    assert StateAfter([CallLoad]) == 1;
    assert StateAfter([CallLoad, CallEnable]) == 2;
    assert StateAfter([CallLoad, CallEnable, CallDisable]) == 1;
  }

  lemma OperationsDiffer()
    ensures Ascii("aura.patch.v1") != Ascii("hook.before-game-launch")
  {
    assert |"aura.patch.v1"| != |"hook.before-game-launch"|;
  }

  /** The hook object answers and moves accordingly. */
  method Answer(hook: LH.Guest, call: ExportCall) returns (outcome: GuestOutcome)
    modifies hook
    ensures outcome == OutcomeOf(old(hook.state), call) && hook.state == Moves(old(hook.state), call)
  {
    hide LH.OnPatch, LH.OnEvent, Ascii;
    match call {
      case CallInvoke(operation, input, callbackId) =>
        var output := hook.Invoke(operation, input, callbackId);
        outcome := Answered(output);
      case CallLoad =>
        var moved := hook.Load();
        outcome := Moved(moved.Done?);
      case CallEnable =>
        var moved := hook.Enable();
        outcome := Moved(moved.Done?);
      case CallDisable =>
        var moved := hook.Disable();
        outcome := Moved(moved.Done?);
      case CallUnload =>
        var moved := hook.Unload();
        outcome := Moved(moved.Done?);
    }
  }

  /** Every component the environment instantiates is the hook. A call may still trap: it can run
      out of fuel or time. */
  ghost predicate HostsHook(env: Env) {
    forall instance: nat, history: seq<ExportCall> | history != [] ::
      var outcome := env.guest(instance, history).outcome;
      outcome.Traps? || outcome == OutcomeOf(StateAfter(history[..|history| - 1]), history[|history| - 1])
  }

  // ---------------------------------------------------------------- no refused lifecycle call

  predicate RefusedState(e: Event) {
    e.Left? && e.outcome.GuestFailed? && e.outcome.code == Ascii("invalid-state")
  }

  predicate Clean(w: Wire) {
    forall k | 0 <= k < |L.Lefts(w.log)| :: !RefusedState(L.Lefts(w.log)[k])
  }

  /** The state in which the hook accepts a call. */
  function Accepting(call: ExportCall): nat {
    match call
    case CallLoad => LH.CREATED
    case CallEnable => LH.LOADED
    case CallInvoke(_, _, _) => LH.ENABLED
    case CallDisable => LH.ENABLED
    case CallUnload => LH.LOADED
  }

  /** A refusal of an operation: not one for the state, and short enough for any reply. */
  predicate Plain(error: LH.PluginError) {
    error.code in {"invalid-argument", "invalid-result", "internal"} && |error.message| <= 60
  }

  lemma RefusalsArePlain(input: seq<byte>)
    ensures var r := LH.OnEvent(input); r.Denied? ==> Plain(r.error)
    ensures var r := LH.OnPatch(input); r.Denied? ==> Plain(r.error)
  {
    hide Ascii, LH.AnyMatch, LH.Decide, LH.Answer, LH.PatchAnswer, LH.D.FromWire, LH.BV.ToWire;
    var event := LH.Decoded(input);
    if event.Done? {
      DecideIsPlain(event.value);
    }
  }

  lemma DecideIsPlain(event: LH.Value)
    ensures var r := LH.Decide(event); r.Denied? ==> Plain(r.error)
  {
    hide LH.AnyMatch, LH.Extend, LH.BV.FirstMatch, LH.SetValue, LH.CONTRACT_VERSION, LH.POINT, LH.BEFORE_LAUNCH,
         LH.DATA, LH.PLAN, LH.COMMAND;
    forall command ensures var r := LH.Extend(command); r.Denied? ==> Plain(r.error) {
      ExtendIsPlain(command);
    }
  }

  lemma ExtendIsPlain(command: seq<LH.Entry>)
    ensures var r := LH.Extend(command); r.Denied? ==> Plain(r.error)
  {
    hide Ascii, LH.AnyMatch, LH.BV.FirstMatch;
  }

  lemma CodesDiffer(code: string)
    requires code in {"invalid-argument", "invalid-result", "internal"}
    ensures Ascii(code) != Ascii("invalid-state")
  {
    assert |code| != |"invalid-state"|;
  }

  lemma AcceptedCall(call: ExportCall)
    ensures var outcome := OutcomeOf(Accepting(call), call);
            && (outcome.Fails? ==> call.CallInvoke? && outcome.code != Ascii("invalid-state"))
            && !outcome.Traps?
  {
    hide Ascii, LH.OnEvent, LH.OnPatch;
    if call.CallInvoke? {
      RefusalsArePlain(call.input);
      CodesDiffer("invalid-argument");
      CodesDiffer("invalid-result");
      CodesDiffer("internal");
    }
  }

  lemma CallStaysClean(env: Env, w: Wire, p: Plugin, call: ExportCall)
    requires HostsHook(env) && Clean(w)
    requires !p.poisoned ==> StateAfter(p.history) == Accepting(call)
    ensures var (w', p', r) := PluginCall(env, w, p, call);
            && Clean(w')
            && (!p'.poisoned ==>
                  && StateAfter(p'.history) == Moves(Accepting(call), call)
                  && (r.GuestError? ==> call.CallInvoke?))
            && (r.EngineError? <==> p'.poisoned)
  {
    hide OutcomeOf, RunOps, Labelled, Ascii, L.GuestOf, L.Lefts, Accepting, Moves;
    if !p.poisoned {
      var entered := p.(active := true, history := p.history + [call]);
      assert entered.history[..|entered.history| - 1] == p.history;
      var g := env.guest(p.instance, entered.history);
      assert g.outcome.Traps? || g.outcome == OutcomeOf(Accepting(call), call);
      AcceptedCall(call);
      L.GuestNext(w.log, Entered(call));
      L.OpsUntouched(w.Log(Entered(call)), entered, g.ops);
      var w1 := RunOps(w.Log(Entered(call)), entered, g.ops).0;
      forall outcome ensures L.Lefts(w1.Log(Left(call, outcome)).log) == L.Lefts(w.log) + [Left(call, outcome)] {
        L.GuestNext(w1.log, Left(call, outcome));
      }
    }
  }

  /** What the server's state says about the hook's. */
  predicate InTune(wd: World) {
    && Clean(wd.wire)
    && (wd.plugin.Some? && !wd.plugin.value.poisoned ==>
          StateAfter(wd.plugin.value.history) == if wd.state == Enabled then LH.ENABLED else LH.LOADED)
  }

  lemma DispatchInTune(env: Env, wd: World, body: MessageBody)
    requires HostsHook(env) && IsCommand(body) && InTune(wd)
    ensures InTune(Dispatch(env, wd, body).0)
  {
    hide HostsHook, Clean, StateAfter, PluginCall, Dispatch, D.FromWire, RuntimeError, Ascii;
    DispatchOutcome(env, wd, body);
    match CallOf(env, wd, body)
    case None =>
    case Some((w, p, call)) =>
      QuietIsClean(wd.wire, Instantiated);
      NoHistory();
      CallStaysClean(env, w, p, call);
      var result := PluginCall(env, w, p, call).2;
      assert result.Output? || result.GuestError? || result.EngineError?;
  }

  lemma NoHistory()
    ensures StateAfter([]) == LH.CREATED
  {
  }

  lemma QuietIsClean(w: Wire, e: Event)
    requires !e.Left?
    ensures Clean(w.Log(e)) == Clean(w)
  {
    L.GuestNext(w.log, e);
  }

  lemma TurnInTune(env: Env, wd: World, m: Message)
    requires HostsHook(env) && InTune(wd)
    ensures InTune(Turn(env, wd.(wire := wd.wire.Log(Received(m))), m).0)
  {
    hide HostsHook, Clean, StateAfter, Dispatch, NewMessage, PutFrame, Ascii, Labelled;
    QuietIsClean(wd.wire, Received(m));
    var received := wd.(wire := wd.wire.Log(Received(m)));
    if IsCommand(m.body) {
      DispatchInTune(env, received, m.body);
    }
    var done := Handle(env, received, m.body).0;
    forall reply, sink ensures Clean(done.wire.(sink := sink).Log(Sent(reply))) == Clean(done.wire) {
      QuietIsClean(done.wire.(sink := sink), Sent(reply));
      SinkIsQuiet(done.wire, sink);
    }
    forall sink ensures Clean(done.wire.(sink := sink)) == Clean(done.wire) {
      SinkIsQuiet(done.wire, sink);
    }
  }

  lemma SinkIsQuiet(w: Wire, sink: Sink)
    ensures Clean(w.(sink := sink)) == Clean(w)
  {
  }

  lemma CloseInTune(env: Env, wd: World)
    requires HostsHook(env) && InTune(wd)
    ensures Clean(CloseOnEof(env, wd.(wire := wd.wire.Log(EndOfStream))).wire)
  {
    hide HostsHook, Clean, StateAfter, PluginCall;
    QuietIsClean(wd.wire, EndOfStream);
    var w := wd.wire.Log(EndOfStream);
    if wd.plugin.Some? {
      var p := wd.plugin.value;
      if wd.state == Enabled {
        CallStaysClean(env, w, p, CallDisable);
        var (w1, p1, _) := PluginCall(env, w, p, CallDisable);
        CallStaysClean(env, w1, p1, CallUnload);
      } else {
        CallStaysClean(env, w, p, CallUnload);
      }
    }
  }

  lemma {:induction false} ServeInTune(env: Env, wd: World)
    requires HostsHook(env) && InTune(wd)
    ensures Clean(Serve(env, wd).0.wire)
    decreases |wd.wire.input|
  {
    hide HostsHook, Clean, StateAfter, Turn, CloseOnEof, ReadFrame;
    var read := ReadFrame(wd.wire.input, wd.wire.broken);
    var next := wd.(wire := wd.wire.(input := read.rest));
    InputIsQuiet(wd.wire, read.rest);
    match read.outcome
    case Failure(_) =>
    case Success(None) => CloseInTune(env, next);
    case Success(Some(m)) =>
      var received := next.(wire := next.wire.Log(Received(m)));
      TurnInTune(env, next, m);
      TurnFollows(env, received, m);
      var (after, going) := Turn(env, received, m);
      if going == Success(true) {
        ServeInTune(env, after);
      }
  }

  lemma InputIsQuiet(w: Wire, input: seq<byte>)
    ensures Clean(w.(input := input)) == Clean(w)
  {
  }

  /** In no run does the hook refuse a call for its state: not a lifecycle call, not an invoke, not
      the cleanup at end of input. */
  lemma NeverRefused(env: Env, input: seq<byte>, broken: bool, room: Option<nat>)
    requires HostsHook(env)
    ensures var log := Serve(env, Initial(input, broken, room)).0.wire.log;
            forall k | 0 <= k < |log| :: !RefusedState(log[k])
  {
    hide HostsHook, Serve, RefusedState;
    var start := Initial(input, broken, room);
    ServeInTune(env, start);
    var log := Serve(env, start).0.wire.log;
    forall k | 0 <= k < |log| ensures !RefusedState(log[k]) {
      LeftAt(log, k);
    }
  }

  lemma {:induction false} LeftAt(log: seq<Event>, k: nat)
    requires k < |log|
    ensures RefusedState(log[k]) ==> log[k] in L.Lefts(log)
    decreases |log|
  {
    hide Ascii;
    if k < |log| - 1 {
      LeftAt(log[..|log| - 1], k);
    }
  }
}
