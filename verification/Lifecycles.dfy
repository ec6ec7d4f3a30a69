/**
 The guest's lifecycle over whole runs: retried loads, recoverable failures, traps, failed unloads
 and the cleanup at end of input. An automaton reads load attempts and export calls in the log;
 no run drives it to `Illegal`.
 */
module Lifecycles {
  import opened Bytes
  import D = Decoding
  import opened Protocol
  import opened Frames
  import opened Host
  import T = Traces

  // ---------------------------------------------------------------- the automaton

  datatype Guest =
    | Absent                                      // no store, or its guest refused to load
    | Fresh                                       // a new store, not entered yet
    | Resting(stage: Lifecycle)                   // Loaded, Enabled or Disabled
    | Busy(call: ExportCall, stage: Lifecycle)    // inside an export call
    | Dead                                        // a call trapped: the store is poisoned
    | Gone                                        // unload was called
    | Illegal

  predicate MayEnter(call: ExportCall, stage: Lifecycle, ended: bool) {
    match call
    case CallLoad => false
    case CallEnable => stage == Loaded
    case CallInvoke(_, _, _) => stage == Enabled
    case CallDisable => stage == Enabled
    case CallUnload => stage == Loaded || stage == Disabled || ended
  }

  /** What a call makes of the guest. */
  function Leave(call: ExportCall, stage: Lifecycle, outcome: CallOutcome): Guest {
    match call
    case CallLoad => if outcome.Returned? then Resting(Loaded) else Absent
    case CallUnload => Gone
    case _ =>
      if outcome.Trapped? then Dead
      else if outcome.Returned? && call.CallEnable? then Resting(Enabled)
      else if outcome.Returned? && call.CallDisable? then Resting(Disabled)
      else Resting(stage)
  }

  function Live(g: Guest, e: Event, ended: bool): Guest {
    match e
    case Instantiated => if g == Absent then Fresh else Illegal
    case Entered(call) =>
      if g == Fresh && call == CallLoad then Busy(call, AwaitLoad)
      else if g.Resting? && MayEnter(call, g.stage, ended) then Busy(call, g.stage)
      else Illegal
    case Left(call, outcome) =>
      if g.Busy? && g.call == call then Leave(call, g.stage, outcome) else Illegal
    case _ => g
  }

  function GuestOf(log: seq<Event>): Guest {
    if log == [] then Absent
    else
      var before := log[..|log| - 1];
      Live(GuestOf(before), log[|log| - 1], T.Ended(before))
  }

  /** How export calls ended, in order. */
  function Lefts(log: seq<Event>): seq<Event> {
    if log == [] then []
    else
      var last := log[|log| - 1];
      if last.Left? then Lefts(log[..|log| - 1]) + [last] else Lefts(log[..|log| - 1])
  }

  lemma GuestNext(log: seq<Event>, e: Event)
    ensures GuestOf(log + [e]) == Live(GuestOf(log), e, T.Ended(log))
    ensures Lefts(log + [e]) == if e.Left? then Lefts(log) + [e] else Lefts(log)
    ensures T.Ended(log + [e]) == (T.Ended(log) || e.EndOfStream?)
  {
    hide Live;
    assert (log + [e])[..|log|] == log;
  }

  // ---------------------------------------------------------------- callbacks leave it alone

  /** Only frames and refusals were added to the log. */
  predicate Untouched(before: Wire, after: Wire) {
    && GuestOf(after.log) == GuestOf(before.log) && Lefts(after.log) == Lefts(before.log)
    && T.Ended(after.log) == T.Ended(before.log)
  }

  lemma QuietEvent(w: Wire, e: Event)
    requires e.Received? || e.Sent? || e.Refused?
    ensures Untouched(w, w.Log(e))
  {
    GuestNext(w.log, e);
  }

  lemma CallUntouched(w: Wire, b: Bridge, body: MessageBody)
    ensures Untouched(w, Call(w, b, body).0)
  {
    hide GuestOf, Lefts, T.Ended, PutFrame, ReadFrame, NewMessage;
    forall w: Wire, m ensures Untouched(w, w.Log(Received(m))) { QuietEvent(w, Received(m)); }
    forall w: Wire, m ensures Untouched(w, w.Log(Sent(m))) { QuietEvent(w, Sent(m)); }
    forall w: Wire, reason ensures Untouched(w, w.Log(Refused(reason))) { QuietEvent(w, Refused(reason)); }
  }

  lemma ImportUntouched(w: Wire, p: Plugin, op: BridgeOp)
    ensures var (w', p', _) := Import(w, p, op); Untouched(w, w') && p' == p.(bridge := p'.bridge)
  {
    hide GuestOf, Lefts, T.Ended, Call, D.FromWire, Ascii;
    forall w: Wire, b, body ensures Untouched(w, Call(w, b, body).0) { CallUntouched(w, b, body); }
    forall w: Wire, reason ensures Untouched(w, w.Log(Refused(reason))) { QuietEvent(w, Refused(reason)); }
  }

  lemma {:induction false} OpsUntouched(w: Wire, p: Plugin, ops: seq<BridgeOp>)
    ensures var (w', p', _) := RunOps(w, p, ops); Untouched(w, w') && p' == p.(bridge := p'.bridge)
    decreases |ops|
  {
    hide GuestOf, Lefts, T.Ended, Import;
    if ops != [] {
      ImportUntouched(w, p, ops[0]);
      var (w1, p1, _) := Import(w, p, ops[0]);
      OpsUntouched(w1, p1, ops[1..]);
    }
  }

  // ---------------------------------------------------------------- one export call

  /** The store and the log agree on whether the guest can still be entered. */
  predicate Agree(w: Wire, p: Plugin, stage: Lifecycle) {
    GuestOf(w.log) == if p.poisoned then Dead else Resting(stage)
  }

  /** A call either finds the store poisoned and changes nothing, or it enters and leaves. */
  lemma PluginCallLives(env: Env, w: Wire, p: Plugin, call: ExportCall, stage: Lifecycle)
    requires call == CallLoad ==> stage == AwaitLoad && !p.poisoned && GuestOf(w.log) == Fresh
    requires call != CallLoad ==> Agree(w, p, stage) && MayEnter(call, stage, T.Ended(w.log))
    ensures var (w', p', r) := PluginCall(env, w, p, call);
            && T.Ended(w'.log) == T.Ended(w.log)
            && (p.poisoned ==> w' == w && p' == p && r.EngineError?)
            && (!p.poisoned ==>
                  && (p'.poisoned <==> r.EngineError?)
                  && exists outcome: CallOutcome ::
                       && GuestOf(w'.log) == Leave(call, stage, outcome)
                       && (outcome.Returned? <==> r.Output?) && (outcome.Trapped? <==> r.EngineError?))
  {
    hide GuestOf, T.Ended, RunOps, Labelled, Ascii, Leave;
    if !p.poisoned {
      var entered := p.(active := true, history := p.history + [call]);
      var g := env.guest(p.instance, entered.history);
      GuestNext(w.log, Entered(call));
      OpsUntouched(w.Log(Entered(call)), entered, g.ops);
      var (w1, p1, completed) := RunOps(w.Log(Entered(call)), entered, g.ops);
      var outcome := if !completed || g.outcome.Traps? then Trapped
                     else if g.outcome.Fails? then GuestFailed(g.outcome.code) else Returned;
      GuestNext(w1.log, Left(call, outcome));
      assert GuestOf(w1.Log(Left(call, outcome)).log) == Leave(call, stage, outcome);
    }
  }

  // ---------------------------------------------------------------- the server's states

  /** What server state, engine and guest have to do with each other between commands. */
  predicate Held(wd: World) {
    && !T.Ended(wd.wire.log)
    && match wd.state
       case AwaitHello => wd.plugin == None && GuestOf(wd.wire.log) == Absent
       case AwaitLoad => wd.plugin == None && GuestOf(wd.wire.log) == Absent
       case Enabled => wd.plugin.Some? && Agree(wd.wire, wd.plugin.value, Enabled)
       case Closed => wd.plugin == None && GuestOf(wd.wire.log) == Gone
       case _ =>
         match wd.plugin
         case Some(p) => Agree(wd.wire, p, wd.state)
         case None => GuestOf(wd.wire.log).Gone? || GuestOf(wd.wire.log).Dead?
  }

  lemma DispatchHolds(env: Env, wd: World, body: MessageBody)
    requires IsCommand(body) && Held(wd)
    ensures Held(Dispatch(env, wd, body).0)
  {
    hide GuestOf, T.Ended, PluginCall, Dispatch, D.FromWire, RuntimeError, Ascii;
    DispatchOutcome(env, wd, body);
    match CallOf(env, wd, body)
    case None =>
    case Some((w, p, call)) =>
      GuestNext(wd.wire.log, Instantiated);
      PluginCallLives(env, w, p, call, wd.state);
  }

  lemma ReplyHolds(wd: World, id: u64, body: MessageBody)
    requires Held(wd)
    ensures Held(wd.(wire := Reply(wd.wire, id, body).0))
  {
    hide GuestOf, T.Ended, PutFrame, NewMessage;
    forall m ensures Untouched(wd.wire, wd.wire.Log(Sent(m))) { QuietEvent(wd.wire, Sent(m)); }
  }

  lemma TurnHolds(env: Env, wd: World, m: Message)
    requires Held(wd)
    ensures Held(Turn(env, wd.(wire := wd.wire.Log(Received(m))), m).0)
  {
    hide GuestOf, T.Ended, Dispatch, Reply, Ascii, Labelled;
    QuietEvent(wd.wire, Received(m));
    var received := wd.(wire := wd.wire.Log(Received(m)));
    if IsCommand(m.body) {
      DispatchHolds(env, received, m.body);
    }
    var done := Handle(env, received, m.body).0;
    forall body ensures Held(done.(wire := Reply(done.wire, m.requestId, body).0)) {
      ReplyHolds(done, m.requestId, body);
    }
  }

  /** The cleanup at end of input calls disable only when enabled, and then unload, once. */
  lemma CloseHolds(env: Env, wd: World)
    requires Held(wd)
    ensures var after := CloseOnEof(env, wd.(wire := wd.wire.Log(EndOfStream)));
            && after.state == Closed && after.plugin == None && T.Ended(after.wire.log)
            && GuestOf(after.wire.log) in {Absent, Dead, Gone}
  {
    hide GuestOf, T.Ended, PluginCall;
    GuestNext(wd.wire.log, EndOfStream);
    var w := wd.wire.Log(EndOfStream);
    if wd.plugin.Some? {
      var p := wd.plugin.value;
      if wd.state == Enabled {
        PluginCallLives(env, w, p, CallDisable, Enabled);
        var (w1, p1, r) := PluginCall(env, w, p, CallDisable);
        PluginCallLives(env, w1, p1, CallUnload, if r.Output? then Disabled else Enabled);
      } else {
        PluginCallLives(env, w, p, CallUnload, wd.state);
      }
    }
  }

  /** A run keeps `Held` between commands; a run that ends with the input has closed the guest. */
  lemma {:induction false} ServeHolds(env: Env, wd: World)
    requires Held(wd)
    ensures var (after, r) := Serve(env, wd);
            && GuestOf(after.wire.log) != Illegal
            && if T.Ended(after.wire.log) then after.state == Closed && after.plugin == None else Held(after)
    decreases |wd.wire.input|
  {
    hide GuestOf, T.Ended, Turn, CloseOnEof, ReadFrame;
    var read := ReadFrame(wd.wire.input, wd.wire.broken);
    var next := wd.(wire := wd.wire.(input := read.rest));
    match read.outcome
    case Failure(_) =>
    case Success(None) => CloseHolds(env, next);
    case Success(Some(m)) =>
      var received := next.(wire := next.wire.Log(Received(m)));
      TurnHolds(env, next, m);
      TurnFollows(env, received, m);
      var (after, going) := Turn(env, received, m);
      if going == Success(true) {
        ServeHolds(env, after);
      }
  }

  // ---------------------------------------------------------------- read without the automaton

  const ENABLED_ONCE := Left(CallEnable, Returned)
  const UNLOAD_BEGUN := Entered(CallUnload)

  /** The last successful enable or disable of the current store was an enable. */
  predicate IsEnabled(log: seq<Event>) {
    if log == [] || log[|log| - 1].Instantiated? || log[|log| - 1] == Left(CallDisable, Returned) then false
    else log[|log| - 1] == ENABLED_ONCE || IsEnabled(log[..|log| - 1])
  }

  /** A call of the current store trapped. */
  predicate HasTrapped(log: seq<Event>) {
    if log == [] || log[|log| - 1].Instantiated? then false
    else
      var last := log[|log| - 1];
      (last.Left? && last.outcome.Trapped?) || HasTrapped(log[..|log| - 1])
  }

  /** An export of the current store was entered. */
  predicate Opened(log: seq<Event>) {
    log != [] && !log[|log| - 1].Instantiated? && (log[|log| - 1].Entered? || Opened(log[..|log| - 1]))
  }

  predicate Plain(log: seq<Event>, enabled: bool) {
    UNLOAD_BEGUN !in log && !HasTrapped(log) && (IsEnabled(log) <==> enabled)
  }

  predicate Known(log: seq<Event>) {
    match GuestOf(log)
    case Absent => UNLOAD_BEGUN !in log && ENABLED_ONCE !in log
    case Fresh => Plain(log, false) && ENABLED_ONCE !in log && Instantiated in log && !Opened(log)
    case Resting(stage) =>
      && stage in {Loaded, Enabled, Disabled} && Opened(log) && Instantiated in log
      && Plain(log, stage == Enabled) && (stage == Loaded ==> ENABLED_ONCE !in log)
    case Busy(call, stage) =>
      && Opened(log) && !HasTrapped(log) && Instantiated in log && (IsEnabled(log) <==> stage == Enabled)
      && (call == CallUnload <==> UNLOAD_BEGUN in log)
      && (stage == Loaded || stage == AwaitLoad ==> ENABLED_ONCE !in log)
      && (call == CallEnable ==> stage == Loaded) && (call == CallLoad <==> stage == AwaitLoad)
      && stage in {AwaitLoad, Loaded, Enabled, Disabled}
    case Dead => UNLOAD_BEGUN !in log && HasTrapped(log)
    case Gone => UNLOAD_BEGUN in log
    case Illegal => true
  }

  lemma KnownNext(log: seq<Event>, e: Event)
    requires Known(log)
    ensures Known(log + [e])
  {
    hide GuestOf, T.Ended;
    assert (log + [e])[..|log|] == log;
    GuestNext(log, e);
  }

  lemma EmptyKnown()
    ensures Known([])
  {
  }

  lemma {:induction false} AllKnown(log: seq<Event>)
    ensures Known(log)
    decreases |log|
  {
    hide Known;
    if log == [] {
      EmptyKnown();
    } else {
      AllKnown(log[..|log| - 1]);
      KnownNext(log[..|log| - 1], log[|log| - 1]);
      assert log[..|log| - 1] + [log[|log| - 1]] == log;
    }
  }

  /** What the event at `k` says about everything before it. */
  predicate Lawful(log: seq<Event>, k: nat)
    requires k < |log|
  {
    var before := log[..k];
    match log[k]
    case Instantiated => ENABLED_ONCE !in before && UNLOAD_BEGUN !in before
    case Entered(call) =>
      && UNLOAD_BEGUN !in before && !HasTrapped(before)
      && Instantiated in before && (call == CallLoad <==> !Opened(before))
      && (match call
          case CallLoad => ENABLED_ONCE !in before
          case CallEnable => ENABLED_ONCE !in before
          case CallInvoke(_, _, _) => IsEnabled(before)
          case CallDisable => IsEnabled(before)
          case CallUnload => !IsEnabled(before) || T.Ended(before))
    case Left(call, outcome) => call == CallEnable && outcome.Returned? ==> ENABLED_ONCE !in before
    case _ => true
  }

  lemma {:induction false} PrefixLegal(log: seq<Event>, k: nat)
    requires k <= |log| && GuestOf(log) != Illegal
    ensures GuestOf(log[..k]) != Illegal
    decreases |log|
  {
    if k == |log| {
      assert log[..k] == log;
    } else {
      var before := log[..|log| - 1];
      assert log[..k] == before[..k];
      PrefixLegal(before, k);
    }
  }

  lemma EventIsLawful(log: seq<Event>, k: nat)
    requires k < |log| && GuestOf(log) != Illegal
    ensures Lawful(log, k)
  {
    hide GuestOf, T.Ended, IsEnabled, HasTrapped, Opened;
    PrefixLegal(log, k);
    PrefixLegal(log, k + 1);
    AllKnown(log[..k]);
    GuestNext(log[..k], log[k]);
    assert log[..k] + [log[k]] == log[..k + 1];
  }

  /** Every run: load is the first export a store is entered by, enable succeeds at most once, invoke
      and disable reach the guest only between a successful enable and a successful disable, unload is
      entered at most once and is the last export entered, and no export runs on a store after a call
      of it trapped. */
  lemma RunsAreLawful(env: Env, input: seq<byte>, broken: bool, room: Option<nat>)
    ensures var log := Serve(env, Initial(input, broken, room)).0.wire.log;
            forall k | 0 <= k < |log| :: Lawful(log, k)
  {
    hide Serve, GuestOf, Lawful;
    var start := Initial(input, broken, room);
    StartHolds(start);
    ServeHolds(env, start);
    var log := Serve(env, start).0.wire.log;
    forall k | 0 <= k < |log| ensures Lawful(log, k) {
      EventIsLawful(log, k);
    }
  }

  lemma StartHolds(start: World)
    requires start.wire.log == [] && start.state == AwaitHello && start.plugin == None
    ensures Held(start)
  {
  }
}
