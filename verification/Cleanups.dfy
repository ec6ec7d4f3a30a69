/**
 Exactly when a run succeeds with a poisoned cell. At end of input nobody answers, so the first
 callback the cleanup makes poisons; a guest that makes none leaves the cell alone.
 */
module Cleanups {
  import opened Bytes
  import D = Decoding
  import opened Protocol
  import opened Frames
  import opened Host
  import DI = Discipline

  // ---------------------------------------------------------------- one call after the end of input

  /** The call uses the bridge: its first import is not one that fails on its own payload. */
  predicate CallsBack(ops: seq<BridgeOp>) {
    ops != [] && !(ops[0].OpInvoke? && D.FromWire(ops[0].input).Err?)
  }

  predicate AtEnd(w: Wire) {
    w.input == [] && !w.broken
  }

  /** With no response to come, a call always poisons. */
  lemma CallPoisons(w: Wire, b: Bridge, body: MessageBody)
    requires AtEnd(w)
    ensures var (w', _, r) := Call(w, b, body); AtEnd(w') && w'.poison.Some? && r.Denied?
  {
    hide NewMessage, PutFrame, FromWire, Reason;
  }

  lemma ImportAtEnd(w: Wire, p: Plugin, op: BridgeOp)
    requires AtEnd(w) && p.active
    ensures var (w', p', r) := Import(w, p, op);
            && AtEnd(w') && p'.active
            && (if CallsBack([op]) then w'.poison.Some? else w' == w && p' == p && r.Abort?)
  {
    hide Call, D.FromWire, Ascii, Reason;
    forall w: Wire, b, body | AtEnd(w)
      ensures var (w', _, r) := Call(w, b, body); AtEnd(w') && w'.poison.Some? && r.Denied?
    {
      CallPoisons(w, b, body);
    }
  }

  lemma {:induction false} OpsAtEnd(w: Wire, p: Plugin, ops: seq<BridgeOp>)
    requires AtEnd(w) && p.active
    ensures var (w', p', completed) := RunOps(w, p, ops);
            && AtEnd(w') && (w.poison.Some? ==> w'.poison.Some?)
            && (CallsBack(ops) ==> w'.poison.Some?)
            && (!CallsBack(ops) ==> w' == w && p' == p && (completed <==> ops == []))
    decreases |ops|
  {
    hide Import, D.FromWire;
    if ops != [] {
      ImportAtEnd(w, p, ops[0]);
      var (w1, p1, r) := Import(w, p, ops[0]);
      if !r.Abort? {
        OpsAtEnd(w1, p1, ops[1..]);
      }
    }
  }

  /** The guest's conduct in the next call of this store. */
  function Conduct(env: Env, p: Plugin, calls: seq<ExportCall>): GuestCall {
    env.guest(p.instance, p.history + calls)
  }

  /** One cleanup call, exactly: it poisons the cell iff the store lets the guest in and the guest calls
      back; without a callback only the store can come out changed. */
  lemma CallAtEnd(env: Env, w: Wire, p: Plugin, call: ExportCall)
    requires AtEnd(w)
    ensures var (w', p', r) := PluginCall(env, w, p, call);
            var g := Conduct(env, p, [call]);
            && AtEnd(w')
            && (w'.poison.Some? <==> w.poison.Some? || (!p.poisoned && CallsBack(g.ops)))
            && (!p.poisoned && !CallsBack(g.ops) ==>
                  && (p'.poisoned <==> g.ops != [] || g.outcome.Traps?)
                  && p'.instance == p.instance && p'.history == p.history + [call])
            && (p.poisoned ==> p' == p)
  {
    hide RunOps, CallsBack, Labelled, Ascii;
    if !p.poisoned {
      var entered := p.(active := true, history := p.history + [call]);
      OpsAtEnd(w.Log(Entered(call)), entered, env.guest(p.instance, entered.history).ops);
    }
  }

  // ---------------------------------------------------------------- the cleanup

  /** Whether the guest calls back while it is shut down. Disabling comes first where it is enabled;
      unloading then happens unless the disable call trapped or failed on a payload of its own. */
  predicate CleanupCallsBack(env: Env, wd: World) {
    && wd.plugin.Some? && !wd.plugin.value.poisoned
    && var p := wd.plugin.value;
       match wd.state
       case Enabled =>
         var g := Conduct(env, p, [CallDisable]);
         || CallsBack(g.ops)
         || (g.ops == [] && !g.outcome.Traps? && CallsBack(Conduct(env, p, [CallDisable, CallUnload]).ops))
       case Loaded => CallsBack(Conduct(env, p, [CallUnload]).ops)
       case Disabled => CallsBack(Conduct(env, p, [CallUnload]).ops)
       case _ => false
  }

  lemma CleanupExact(env: Env, wd: World)
    requires AtEnd(wd.wire) && wd.wire.poison == None
    ensures CloseOnEof(env, wd).wire.poison.Some? <==> CleanupCallsBack(env, wd)
  {
    hide PluginCall, CallsBack;
    if wd.plugin.Some? {
      var p := wd.plugin.value;
      CallAtEnd(env, wd.wire, p, CallUnload);
      CallAtEnd(env, wd.wire, p, CallDisable);
      var (w1, p1, _) := PluginCall(env, wd.wire, p, CallDisable);
      CallAtEnd(env, w1, p1, CallUnload);
      assert p.history + [CallDisable] + [CallUnload] == p.history + [CallDisable, CallUnload];
    }
  }

  // ---------------------------------------------------------------- whole runs

  /** The server as a clean end of input finds it, if the run gets that far. */
  function AtEof(env: Env, wd: World): Option<World>
    decreases |wd.wire.input|
  {
    var r := ReadFrame(wd.wire.input, wd.wire.broken);
    var next := wd.(wire := wd.wire.(input := r.rest));
    match r.outcome
    case Failure(_) => None
    case Success(None) => Some(next.(wire := next.wire.Log(EndOfStream)))
    case Success(Some(m)) =>
      var received := next.(wire := next.wire.Log(Received(m)));
      TurnFollows(env, received, m);
      var (after, going) := Turn(env, received, m);
      if going == Success(true) then AtEof(env, after) else None
  }

  lemma {:induction false} ServeExact(env: Env, wd: World)
    requires DI.Steady(wd)
    ensures var (after, r) := Serve(env, wd);
            var end := AtEof(env, wd);
            r == Success(()) && after.wire.poison.Some? <==> end.Some? && CleanupCallsBack(env, end.value)
    decreases |wd.wire.input|
  {
    hide DI.Recorded, DI.Observe, Turn, CloseOnEof, ReadFrame, CleanupCallsBack;
    DI.ReadingKeeps(wd);
    var read := ReadFrame(wd.wire.input, wd.wire.broken);
    var next := wd.(wire := wd.wire.(input := read.rest));
    match read.outcome
    case Failure(_) =>
    case Success(None) => CleanupExact(env, next.(wire := next.wire.Log(EndOfStream)));
    case Success(Some(m)) =>
      DI.TurnKeeps(env, next, m);
      var received := next.(wire := next.wire.Log(Received(m)));
      TurnFollows(env, received, m);
      var (after, going) := Turn(env, received, m);
      if going == Success(true) {
        ServeExact(env, after);
      }
  }

  /** A run succeeds with a poisoned cell exactly when its input ends cleanly and the guest then calls
      back while it is shut down. */
  lemma SuccessWithPoisonExact(env: Env, input: seq<byte>, broken: bool, room: Option<nat>)
    ensures var start := Initial(input, broken, room);
            var (after, r) := Serve(env, start);
            var end := AtEof(env, start);
            r == Success(()) && after.wire.poison.Some? <==> end.Some? && CleanupCallsBack(env, end.value)
  {
    hide Serve, AtEof, CleanupCallsBack, CloseOnEof;
    var start := Initial(input, broken, room);
    StartSteady(start);
    ServeExact(env, start);
  }

  lemma StartSteady(start: World)
    requires start.wire.log == [] && start.wire.poison == None && start.wire.sink.output == [] && start.plugin == None
    ensures DI.Steady(start)
  {
  }
}
