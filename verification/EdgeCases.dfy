/**
 Where the obvious stronger claims about the server stop being true.
 */
module EdgeCases {
  import opened Bytes
  import D = Decoding
  import opened Protocol
  import opened Frames
  import FL = FrameLaws
  import opened Host
  import R = Replies

  // ---------------------------------------------------------------- the bridge does not look at the cell

  /** A call does to streams and journal the same whether or not the cell is poisoned: after a failure
      the guest can go on sending callbacks within the same command. */
  lemma CallIgnoresPoison(w: Wire, b: Bridge, body: MessageBody, poison: Option<string>)
    ensures var (w1, b1, r1) := Call(w, b, body);
            var (w2, b2, r2) := Call(w.(poison := poison), b, body);
            w2 == w1.(poison := w2.poison) && b2 == b1 && r2 == r1
  {
    hide SendRequest, AwaitResponse, Reason;
    SendIgnoresPoison(w, b, body, poison);
    var (w1, b1, sent) := SendRequest(w, b, body);
    if sent.Success? {
      AwaitIgnoresPoison(w1, sent.value, poison);
    }
  }

  lemma SendIgnoresPoison(w: Wire, b: Bridge, body: MessageBody, poison: Option<string>)
    ensures var (w1, b1, r) := SendRequest(w, b, body);
            SendRequest(w.(poison := poison), b, body) == (w1.(poison := poison), b1, r)
  {
    hide NewMessage, PutFrame;
  }

  lemma AwaitIgnoresPoison(w: Wire, id: u64, poison: Option<string>)
    ensures var (w1, r) := AwaitResponse(w, id);
            AwaitResponse(w.(poison := poison), id) == (w1.(poison := poison), r)
  {
    hide ReadFrame;
  }

  /** The request an import makes. */
  function RequestOf(op: BridgeOp): MessageBody {
    match op
    case OpInvoke(operation, input) => BridgeInvoke(operation, input)
    case OpRetain(objectId, generation) => MessageBody.RetainHandle(objectId, generation)
    case OpRelease(objectId, generation) => MessageBody.ReleaseHandle(objectId, generation)
  }

  /** The next ID of the bridge makes a message of this body that can be framed and that the writer has
      room for. */
  predicate CanSend(sink: Sink, id: u64, body: MessageBody) {
    && NewMessage(id, body).Success?
    && var m := Message(id, body);
       FL.CanFrame(m) && (sink.room.Some? ==> |FL.FrameOf(m)| <= sink.room.value)
  }

  /** The import gets as far as the bridge's own call, and its request can be sent. The cell is not
      asked. */
  predicate Sends(w: Wire, p: Plugin, op: BridgeOp) {
    && p.active && p.session == p.bridge.session
    && (op.OpInvoke? ==> D.FromWire(op.input).Ok? && p.pluginId == p.bridge.pluginId)
    && CanSend(w.sink, p.bridge.next, RequestOf(op))
  }

  /** What was added to the log starts with this callback, and holds no other. */
  predicate Added(before: seq<Event>, after: seq<Event>, sent: Option<Message>) {
    && before <= after
    && (sent.Some? ==> |after| > |before| && after[|before|] == Sent(sent.value))
    && forall k | |before| + (if sent.Some? then 1 else 0) <= k < |after| :: !after[k].Sent?
  }

  lemma SendAdds(w: Wire, b: Bridge, body: MessageBody)
    ensures var (w', _, r) := SendRequest(w, b, body);
            && (r.Success? <==> CanSend(w.sink, b.next, body))
            && w'.log == if CanSend(w.sink, b.next, body) then w.log + [Sent(Message(b.next, body))] else w.log
  {
    hide Validate, Frame;
  }

  lemma AwaitAdds(w: Wire, id: u64)
    ensures var after := AwaitResponse(w, id).0.log;
            after == w.log || (|after| == |w.log| + 1 && w.log <= after && after[|w.log|].Received?)
  {
    hide ReadFrame;
  }

  lemma CallAdds(w: Wire, b: Bridge, body: MessageBody)
    ensures Added(w.log, Call(w, b, body).0.log,
                  if CanSend(w.sink, b.next, body) then Some(Message(b.next, body)) else None)
  {
    hide SendRequest, AwaitResponse, CanSend, Reason;
    SendAdds(w, b, body);
    var (w1, b1, sent) := SendRequest(w, b, body);
    if sent.Success? {
      AwaitAdds(w1, sent.value);
    }
  }

  /** Exactly when an import sends a callback, poisoned cell or not; and it sends no second one. */
  lemma ImportSendsExact(w: Wire, p: Plugin, op: BridgeOp)
    ensures Added(w.log, Import(w, p, op).0.log,
                  if Sends(w, p, op) then Some(Message(p.bridge.next, RequestOf(op))) else None)
  {
    hide Call, CanSend, D.FromWire, Ascii, Reason;
    CallAdds(w, p.bridge, RequestOf(op));
  }

  // ---------------------------------------------------------------- a failed unload strands the server

  /** When the unload call fails, be it refused or trapped, the plugin is gone but the state is not
      `Closed`. */
  lemma FailedUnloadLeavesNoPlugin(env: Env, wd: World)
    requires wd.state == Loaded || wd.state == Disabled
    requires wd.plugin.Some? && !PluginCall(env, wd.wire, wd.plugin.value, CallUnload).2.Output?
    ensures var (after, r) := ServerShutdown(env, wd);
            && after.state == wd.state && after.plugin == None && r.Fault?
            && r == Classify(PluginCall(env, wd.wire, wd.plugin.value, CallUnload).2)
  {
    hide PluginCall, RuntimeError;
    var result := PluginCall(env, wd.wire, wd.plugin.value, CallUnload).2;
    assert result.GuestError? || result.EngineError?;
  }

  predicate Stranded(wd: World) {
    && (wd.state == Loaded || wd.state == Disabled) && wd.plugin == None
    && wd.wire.poison == None && wd.wire.sink.room == None
  }

  /** `e` answers command `m` with invalid-state. */
  predicate Refuses(m: Message, e: Event) {
    && e.Sent? && e.m.requestId == m.requestId
    && e.m.body.ErrorReply? && e.m.body.code == Ascii(CodeLiteral(InvalidState))
  }

  predicate RefusalAt(log: seq<Event>, from: nat, k: nat)
    requires from <= k < |log|
  {
    match log[k]
    case Received(m) => m.requestId % 2 == 1 && IsCommand(m.body) ==> k + 1 < |log| && Refuses(m, log[k + 1])
    case Sent(_) => k > from && log[k - 1].Received? && Refuses(log[k - 1].m, log[k])
    case EndOfStream => k + 1 == |log|
    case _ => false
  }

  /** From `from` on nothing but commands and their refusals, and perhaps the end of input. */
  predicate OnlyRefusals(log: seq<Event>, from: nat) {
    forall k | from <= k < |log| :: RefusalAt(log, from, k)
  }

  lemma OneMoreRefusal(log: seq<Event>, from: nat, m: Message)
    requires from + 2 <= |log| && log[from] == Received(m) && Refuses(m, log[from + 1])
    requires OnlyRefusals(log, from + 2)
    ensures OnlyRefusals(log, from)
  {
    hide Ascii;
    forall k | from <= k < |log| ensures RefusalAt(log, from, k) {
      if k >= from + 2 {
        assert RefusalAt(log, from + 2, k);
      }
    }
  }

  /** The last event, if there is one more. */
  lemma LastEvent(log: seq<Event>, e: Event)
    requires e.EndOfStream? || (e.Received? && !(e.m.requestId % 2 == 1 && IsCommand(e.m.body)))
    ensures OnlyRefusals(log, |log|) && OnlyRefusals(log + [e], |log|)
  {
    hide Refuses;
  }

  lemma NothingToClose(env: Env, wd: World)
    requires wd.plugin == None
    ensures CloseOnEof(env, wd).wire == wd.wire
  {
    hide PluginCall;
  }

  lemma StrandedDispatch(env: Env, wd: World, body: MessageBody)
    requires IsCommand(body) && Stranded(wd)
    ensures var (after, r) := Dispatch(env, wd, body);
            && after == wd && r.Fault? && r.error.code == InvalidState && R.Answerable(body, r)
  {
    hide PluginCall, RuntimeError, Ascii;
  }

  lemma StrandedTurn(env: Env, wd: World, m: Message)
    requires Stranded(wd) && WellFormed(m)
    ensures var received := wd.(wire := wd.wire.Log(Received(m)));
            var (after, going) := Turn(env, received, m);
            if m.requestId % 2 == 1 && IsCommand(m.body) then
              && going == Success(true) && Stranded(after)
              && exists reply :: Refuses(m, reply) && after.wire.log == received.wire.log + [reply]
            else going.Failure? && after == received
  {
    hide Dispatch, Turn, FL.CanFrame, FL.FrameOf, Ascii;
    var received := wd.(wire := wd.wire.Log(Received(m)));
    if m.requestId % 2 == 1 {
      IdInRange(m);
      R.TurnExact(env, received, m);
      if IsCommand(m.body) {
        StrandedDispatch(env, received, m.body);
        var reply := Message(m.requestId, R.AnswerTo(m.body, Dispatch(env, received, m.body).1));
        assert Refuses(m, Sent(reply));
      }
    } else {
      EvenEnds(env, received, m);
    }
  }

  lemma IdInRange(m: Message)
    requires WellFormed(m)
    ensures m.requestId < I64_LIMIT
  {
  }

  lemma EvenEnds(env: Env, wd: World, m: Message)
    requires m.requestId % 2 == 0
    ensures Turn(env, wd, m) == (wd, Invalid("callback response arrived outside a callback"))
  {
  }

  /** From there no export is entered any more, and every command is refused as invalid-state, until the
      input ends or breaks the protocol. */
  lemma {:induction false} StrandedForGood(env: Env, wd: World)
    requires Stranded(wd)
    ensures var (after, r) := Serve(env, wd);
            && wd.wire.log <= after.wire.log && OnlyRefusals(after.wire.log, |wd.wire.log|)
            && (r.Success? ==> after.wire.log != [] && after.wire.log[|after.wire.log| - 1] == EndOfStream)
    decreases |wd.wire.input|
  {
    hide Turn, ReadFrame, CloseOnEof, Refuses, OnlyRefusals, NewMessage, WellFormed, RefusalAt;
    LastEvent(wd.wire.log, EndOfStream);
    var read := ReadFrame(wd.wire.input, wd.wire.broken);
    var next := wd.(wire := wd.wire.(input := read.rest));
    match read.outcome
    case Failure(_) =>
    case Success(None) => NothingToClose(env, next.(wire := next.wire.Log(EndOfStream)));
    case Success(Some(m)) =>
      var received := next.(wire := next.wire.Log(Received(m)));
      StrandedTurn(env, next, m);
      TurnFollows(env, received, m);
      var (after, going) := Turn(env, received, m);
      if going.Success? {
        StrandedForGood(env, after);
        OneMoreRefusal(Serve(env, after).0.wire.log, |wd.wire.log|, m);
      } else {
        LastEvent(wd.wire.log, Received(m));
      }
  }
}
