/**
 What crosses the boundary of the guest. Whatever the peer sends and the guest makes up, the server
 passes on only payloads that decode.
 */
module Payloads {
  import opened Bytes
  import D = Decoding
  import opened Protocol
  import opened Frames
  import opened Host

  predicate Decodes(payload: seq<byte>) {
    D.FromWire(payload).Ok?
  }

  /** Input of the guest, callbacks and results carry values. */
  predicate Carried(e: Event) {
    match e
    case Sent(m) =>
      (m.body.ResultReply? ==> Decodes(m.body.output)) && (m.body.BridgeInvoke? ==> Decodes(m.body.input))
    case Entered(call) => call.CallInvoke? ==> Decodes(call.input)
    case _ => true
  }

  predicate Clear(w: Wire) {
    forall k | 0 <= k < |w.log| :: Carried(w.log[k])
  }

  lemma ClearNext(w: Wire, e: Event)
    requires Clear(w) && Carried(e)
    ensures Clear(w.Log(e))
  {
  }

  // ---------------------------------------------------------------- imports

  lemma SendIsClear(w: Wire, b: Bridge, body: MessageBody)
    requires Clear(w) && (body.BridgeInvoke? ==> Decodes(body.input)) && !body.ResultReply?
    ensures Clear(SendRequest(w, b, body).0)
  {
    hide Decodes, NewMessage, PutFrame;
  }

  lemma AwaitIsClear(w: Wire, id: u64)
    requires Clear(w)
    ensures Clear(AwaitResponse(w, id).0)
  {
    hide Decodes, ReadFrame;
  }

  lemma RefuseIsClear(w: Wire, error: ProtocolError)
    requires Clear(w)
    ensures Clear(Refuse(w, error))
  {
    hide Decodes, Reason;
  }

  lemma CallIsClear(w: Wire, b: Bridge, body: MessageBody)
    requires Clear(w) && (body.BridgeInvoke? ==> Decodes(body.input)) && !body.ResultReply?
    ensures Clear(Call(w, b, body).0)
  {
    hide Clear, SendRequest, AwaitResponse, Refuse, Decodes;
    SendIsClear(w, b, body);
    var (w1, b1, sent) := SendRequest(w, b, body);
    match sent
    case Failure(error) => RefuseIsClear(w1, error);
    case Success(id) =>
      AwaitIsClear(w1, id);
      var (w2, answer) := AwaitResponse(w1, id);
      if answer.Failure? {
        RefuseIsClear(w2, answer.error);
      }
  }

  /** One import. A payload that does not decode fails the whole export call: before it reaches the
      peer on the way out, before it reaches the guest on the way in. */
  lemma ImportChecks(w: Wire, p: Plugin, op: BridgeOp)
    requires Clear(w)
    ensures var (w', p', r) := Import(w, p, op);
            && Clear(w') && p'.active == p.active
            && (op.OpInvoke? && p.active && !Decodes(op.input) ==> w' == w && r.Abort?)
            && (r.Answer? ==> p.active && (if op.OpInvoke? then Decodes(r.output) else r.output == []))
            && (!p.active ==> w' == w && r == ErrorCode(Ascii("bridge-denied")))
  {
    hide Clear, Call, Ascii, Reason;
    var body := match op
      case OpInvoke(operation, input) => BridgeInvoke(operation, input)
      case OpRetain(objectId, generation) => RetainHandle(objectId, generation)
      case OpRelease(objectId, generation) => ReleaseHandle(objectId, generation);
    if op.OpInvoke? ==> Decodes(op.input) {
      CallIsClear(w, p.bridge, body);
    }
    forall w: Wire, e | Clear(w) ensures Clear(Refuse(w, e)) {
      RefuseIsClear(w, e);
    }
  }

  lemma {:induction false} OpsAreClear(w: Wire, p: Plugin, ops: seq<BridgeOp>)
    requires Clear(w)
    ensures var (w', p', _) := RunOps(w, p, ops); Clear(w') && p'.active == p.active
    decreases |ops|
  {
    hide Clear, Import;
    if ops != [] {
      ImportChecks(w, p, ops[0]);
      var (w1, p1, _) := Import(w, p, ops[0]);
      OpsAreClear(w1, p1, ops[1..]);
    }
  }

  // ---------------------------------------------------------------- export calls

  /** The callback window is open during the call and shut after it. */
  lemma PluginCallIsClear(env: Env, w: Wire, p: Plugin, call: ExportCall)
    requires Clear(w) && (call.CallInvoke? ==> Decodes(call.input)) && !p.active
    ensures var (w', p', _) := PluginCall(env, w, p, call); Clear(w') && !p'.active
  {
    hide Clear, RunOps, Labelled, Ascii, Decodes;
    if !p.poisoned {
      var entered := p.(active := true, history := p.history + [call]);
      ClearNext(w, Entered(call));
      OpsAreClear(w.Log(Entered(call)), entered, env.guest(p.instance, entered.history).ops);
      var w1 := RunOps(w.Log(Entered(call)), entered, env.guest(p.instance, entered.history).ops).0;
      forall outcome ensures Clear(w1.Log(Left(call, outcome))) {
        ClearNext(w1, Left(call, outcome));
      }
    }
  }

  // ---------------------------------------------------------------- commands

  predicate Shut(wd: World) {
    Clear(wd.wire) && (wd.plugin.Some? ==> !wd.plugin.value.active)
  }

  lemma DispatchChecks(env: Env, wd: World, body: MessageBody)
    requires IsCommand(body) && Shut(wd)
    ensures var (after, r) := Dispatch(env, wd, body);
            Shut(after) && (body.Invoke? && r.Fine? ==> Decodes(r.value))
  {
    hide Clear, Dispatch, PluginCall, RuntimeError, Ascii;
    DispatchOutcome(env, wd, body);
    match CallOf(env, wd, body)
    case None =>
    case Some((w, p, call)) =>
      ClearNext(wd.wire, Instantiated);
      PluginCallIsClear(env, w, p, call);
      var result := PluginCall(env, w, p, call).2;
      assert result.Output? || result.GuestError? || result.EngineError?;
  }

  lemma TurnChecks(env: Env, wd: World, m: Message)
    requires Shut(wd)
    ensures Shut(Turn(env, wd.(wire := wd.wire.Log(Received(m))), m).0)
  {
    hide Clear, Dispatch, Decodes, NewMessage, PutFrame, Labelled, Ascii;
    ClearNext(wd.wire, Received(m));
    var received := wd.(wire := wd.wire.Log(Received(m)));
    if IsCommand(m.body) {
      DispatchChecks(env, received, m.body);
    }
    var (done, handled) := Handle(env, received, m.body);
    if handled.Success? {
      ReplyIsClear(done.wire, m.requestId, handled.value.0);
    }
  }

  lemma ReplyIsClear(w: Wire, id: u64, body: MessageBody)
    requires Clear(w) && (body.ResultReply? ==> Decodes(body.output)) && !body.BridgeInvoke?
    ensures Clear(Reply(w, id, body).0)
  {
    hide Decodes, NewMessage, PutFrame;
  }

  lemma CloseIsClear(env: Env, wd: World)
    requires Shut(wd)
    ensures Clear(CloseOnEof(env, wd.(wire := wd.wire.Log(EndOfStream))).wire)
  {
    hide Clear, PluginCall;
    ClearNext(wd.wire, EndOfStream);
    if wd.plugin.Some? {
      var w, p := wd.wire.Log(EndOfStream), wd.plugin.value;
      PluginCallIsClear(env, w, p, CallDisable);
      PluginCallIsClear(env, w, p, CallUnload);
      var (w1, p1, _) := PluginCall(env, w, p, CallDisable);
      PluginCallIsClear(env, w1, p1, CallUnload);
    }
  }

  lemma {:induction false} ServeChecks(env: Env, wd: World)
    requires Shut(wd)
    ensures Clear(Serve(env, wd).0.wire)
    decreases |wd.wire.input|
  {
    hide Clear, Turn, CloseOnEof, ReadFrame;
    var read := ReadFrame(wd.wire.input, wd.wire.broken);
    var next := wd.(wire := wd.wire.(input := read.rest));
    InputIsClear(wd.wire, read.rest);
    match read.outcome
    case Failure(_) =>
    case Success(None) => CloseIsClear(env, next);
    case Success(Some(m)) =>
      var received := next.(wire := next.wire.Log(Received(m)));
      TurnChecks(env, next, m);
      TurnFollows(env, received, m);
      var (after, going) := Turn(env, received, m);
      if going == Success(true) {
        ServeChecks(env, after);
      }
  }

  lemma InputIsClear(w: Wire, input: seq<byte>)
    ensures Clear(w.(input := input)) == Clear(w)
  {
  }

  /** In every run each invoke that enters the guest, each callback sent and each result sent carries a
      payload that decodes. */
  lemma RunsCarryValues(env: Env, input: seq<byte>, broken: bool, room: Option<nat>)
    ensures var log := Serve(env, Initial(input, broken, room)).0.wire.log;
            forall k | 0 <= k < |log| :: Carried(log[k])
  {
    hide Serve;
    ServeChecks(env, Initial(input, broken, room));
  }
}
