/**
 What the guest gets from an import: exactly the answer the peer gave to it, or a refusal, and for
 which reason.
 */
module BridgeAnswers {
  import opened Bytes
  import D = Decoding
  import opened Protocol
  import opened Frames
  import FL = FrameLaws
  import opened Host
  import EC = EdgeCases
  import V = Validation

  // ---------------------------------------------------------------- reading the log

  /** What was added is this callback and this response to it. */
  predicate Exchanged(before: seq<Event>, after: seq<Event>, id: u64, request: MessageBody, response: MessageBody) {
    after == before + [Sent(Message(id, request)), Received(Message(id, response))]
  }

  /** Something was added, a refusal last. */
  predicate Refusing(before: seq<Event>, after: seq<Event>) {
    |after| > |before| && after[|after| - 1].Refused?
  }

  /** What a result to be handed to the guest must be. */
  predicate Acceptable(op: BridgeOp, output: seq<byte>) {
    if op.OpInvoke? then D.FromWire(output).Ok? else output == []
  }

  /** A log is the record of at most one exchange, and then of no refusal. */
  lemma OneReading(before: seq<Event>, after: seq<Event>, id: u64, request: MessageBody, response: MessageBody)
    requires Exchanged(before, after, id, request, response)
    ensures !Refusing(before, after) && |after| > |before|
    ensures forall other :: Exchanged(before, after, id, request, other) ==> other == response
  {
    assert after[|after| - 1] == Received(Message(id, response));
  }

  lemma RefuseIsRefusing(before: seq<Event>, w: Wire)
    requires |before| <= |w.log|
    ensures forall error :: Refusing(before, Refuse(w, error).log)
  {
    hide Reason;
  }

  // ---------------------------------------------------------------- one call

  lemma CallExact(w: Wire, b: Bridge, body: MessageBody)
    ensures var (w', _, r) := Call(w, b, body);
            && (forall response :: r == Granted(response) <==> Exchanged(w.log, w'.log, b.next, body, response))
            && (r.Denied? ==> r.error.ProtocolFault? && Refusing(w.log, w'.log))
            && (r.Granted? ==> Exchanged(w.log, w'.log, b.next, body, r.value))
  {
    hide SendRequest, AwaitResponse, Reason, EC.CanSend;
    EC.SendAdds(w, b, body);
    SendKeepsId(w, b, body);
    var (w1, b1, sent) := SendRequest(w, b, body);
    if sent.Success? {
      AwaitExact(w1, sent.value);
      EC.AwaitAdds(w1, sent.value);
    }
    var (w', _, r) := Call(w, b, body);
    forall response ensures r == Granted(response) <==> Exchanged(w.log, w'.log, b.next, body, response) {
      if Exchanged(w.log, w'.log, b.next, body, response) {
        assert w'.log[|w'.log| - 1] == Received(Message(b.next, response));
      }
    }
  }

  lemma SendKeepsId(w: Wire, b: Bridge, body: MessageBody)
    ensures var (_, _, r) := SendRequest(w, b, body); r.Success? ==> r.value == b.next
  {
    hide NewMessage, PutFrame;
  }

  lemma AwaitExact(w: Wire, id: u64)
    ensures var (w', r) := AwaitResponse(w, id); r.Success? ==> w'.log == w.log + [Received(Message(id, r.value))]
  {
    hide ReadFrame;
  }

  // ---------------------------------------------------------------- one import

  lemma HandleAnswers(w: Wire, b: Bridge, session: u64, body: MessageBody)
    ensures var (w', _, r) := HandleCall(w, b, session, body);
            && (r.Granted? <==> Exchanged(w.log, w'.log, b.next, body, CallbackResult([])))
            && (forall code :: r == Denied(Callback(code)) <==>
                  Exchanged(w.log, w'.log, b.next, body, CallbackError(code)))
            && (r.Denied? && r.error.ProtocolFault? <==> Refusing(w.log, w'.log))
  {
    hide Call, Reason, Exchanged, Refusing;
    CallExact(w, b, body);
    RefuseIsRefusing(w.log, w);
    var (w1, b1, r1) := Call(w, b, body);
    if r1.Granted? {
      OneReading(w.log, w1.log, b.next, body, r1.value);
      RefuseIsRefusing(w.log, w1);
    }
    var w' := HandleCall(w, b, session, body).0;
    if response :| Exchanged(w.log, w'.log, b.next, body, response) {
      OneReading(w.log, w'.log, b.next, body, response);
    }
  }

  lemma InvokeAnswers(w: Wire, b: Bridge, pluginId: u64, session: u64, operation: Text, input: seq<byte>)
    ensures var (w', _, r) := InvokeBridge(w, b, pluginId, session, operation, input);
            var body := BridgeInvoke(operation, input);
            && (forall output :: r == Granted(output) <==>
                  Exchanged(w.log, w'.log, b.next, body, CallbackResult(output)))
            && (forall code :: r == Denied(Callback(code)) <==>
                  Exchanged(w.log, w'.log, b.next, body, CallbackError(code)))
            && (r.Denied? && r.error.ProtocolFault? <==> Refusing(w.log, w'.log))
  {
    hide Call, Reason, Exchanged, Refusing;
    var body := BridgeInvoke(operation, input);
    CallExact(w, b, body);
    RefuseIsRefusing(w.log, w);
    var (w1, b1, r1) := Call(w, b, body);
    if r1.Granted? {
      OneReading(w.log, w1.log, b.next, body, r1.value);
      RefuseIsRefusing(w.log, w1);
    }
    var w' := InvokeBridge(w, b, pluginId, session, operation, input).0;
    if response :| Exchanged(w.log, w'.log, b.next, body, response) {
      OneReading(w.log, w'.log, b.next, body, response);
    }
  }

  /** The import sent its callback and the peer answered it so. */
  predicate Exchange(w: Wire, p: Plugin, op: BridgeOp, response: MessageBody) {
    Exchanged(w.log, Import(w, p, op).0.log, p.bridge.next, EC.RequestOf(op), response)
  }

  /** The guest's payload does not decode, and nothing happened, or the peer's does not. */
  ghost predicate Failing(w: Wire, p: Plugin, op: BridgeOp) {
    && op.OpInvoke?
    && if D.FromWire(op.input).Err? then Import(w, p, op).0 == w
       else exists output :: Exchange(w, p, op, CallbackResult(output)) && D.FromWire(output).Err?
  }

  /** Exactly which answer the guest gets. It is handed a result exactly when the peer answered this very
      callback with that result; it is handed the peer's code exactly when the peer answered with that
      code; a refusal shows as "protocol-error"; the call fails exactly when what was to cross does not
      decode; and outside an export call nothing happens at all. */
  lemma ImportAnswers(w: Wire, p: Plugin, op: BridgeOp)
    requires p.active
    ensures forall output :: Import(w, p, op).2 == Answer(output) <==>
              Exchange(w, p, op, CallbackResult(output)) && Acceptable(op, output)
    ensures forall code :: Import(w, p, op).2 == ErrorCode(code) && !Refusing(w.log, Import(w, p, op).0.log) <==>
              Exchange(w, p, op, CallbackError(code))
    ensures Import(w, p, op).2 == Abort <==> Failing(w, p, op)
    ensures Refusing(w.log, Import(w, p, op).0.log) ==> Import(w, p, op).2 == ErrorCode(Ascii("protocol-error"))
  {
    hide HandleCall, InvokeBridge, D.FromWire, Ascii, Exchanged, Refusing;
    var request := EC.RequestOf(op);
    NothingExchanged(w.log, p.bridge.next, request);
    forall bytes ensures D.FromWire(bytes).Ok? || D.FromWire(bytes).Err? {}
    match op {
      case OpInvoke(operation, input) =>
        InvokeAnswers(w, p.bridge, p.pluginId, p.session, operation, input);
        var r := InvokeBridge(w, p.bridge, p.pluginId, p.session, operation, input).2;
        assert r.Granted? || (r.Denied? && (r.error.Callback? || r.error.ProtocolFault?));
      case _ =>
        HandleAnswers(w, p.bridge, p.session, request);
        var r := HandleCall(w, p.bridge, p.session, request).2;
        assert r.Granted? || (r.Denied? && (r.error.Callback? || r.error.ProtocolFault?));
    }
    var w' := Import(w, p, op).0;
    if response :| Exchanged(w.log, w'.log, p.bridge.next, request, response) {
      OneReading(w.log, w'.log, p.bridge.next, request, response);
    }
  }

  lemma NothingExchanged(log: seq<Event>, id: u64, request: MessageBody)
    ensures !Refusing(log, log) && forall response :: !Exchanged(log, log, id, request, response)
  {
  }

  lemma ClosedImport(w: Wire, p: Plugin, op: BridgeOp)
    requires !p.active
    ensures Import(w, p, op) == (w, p, ErrorCode(Ascii("bridge-denied")))
  {
  }

  // ---------------------------------------------------------------- which refusal

  /** Why no callback can be sent, if so. */
  ghost function SendTrouble(sink: Sink, id: u64, body: MessageBody): Option<string> {
    if id == 0 || id > 0x7FFF_FFFF_FFFF_FFFF then Some("callback request ID overflow")
    else if V.Judge(V.Rules(id, body)).Failure? then Some(V.Judge(V.Rules(id, body)).error.reason)
    else
      var m := Message(id, body);
      V.NewMessageExact(id, body);
      if Frame(m).Failure? then Some(Reason(Frame(m).error))
      else if sink.room.Some? && |Frame(m).value| > sink.room.value then Some("Bridge callback I/O failure")
      else None
  }

  /** Why what stands in the input is no response to callback `id`, if so. */
  function ReadTrouble(w: Wire, id: u64): Option<string> {
    match ReadFrame(w.input, w.broken).outcome
    case Failure(error) => Some(Reason(error))
    case Success(None) => Some("callback response is missing")
    case Success(Some(m)) => if m.requestId != id then Some("callback response request ID mismatch") else None
  }

  /** Why a response with the right ID is no answer, if so. */
  function KindTrouble(op: BridgeOp, response: MessageBody): Option<string> {
    if response.CallbackError? || (response.CallbackResult? && (op.OpInvoke? || response.output == [])) then None
    else if op.OpInvoke? then Some("invalid Bridge callback response")
    else Some("invalid handle callback response")
  }

  /** The first trouble of an import, in the order in which it is met. */
  ghost function Trouble(w: Wire, p: Plugin, op: BridgeOp): Option<string> {
    if op.OpInvoke? && D.FromWire(op.input).Err? then None
    else if op.OpInvoke? && (p.pluginId != p.bridge.pluginId || p.session != p.bridge.session)
    then Some("callback owner mismatch")
    else if p.session != p.bridge.session then Some("callback session mismatch")
    else
      match SendTrouble(w.sink, p.bridge.next, EC.RequestOf(op))
      case Some(reason) => Some(reason)
      case None =>
        match ReadTrouble(w, p.bridge.next)
        case Some(reason) => Some(reason)
        case None => KindTrouble(op, ReadFrame(w.input, w.broken).outcome.value.value.body)
  }

  lemma SendTroubleExact(w: Wire, b: Bridge, body: MessageBody)
    ensures var (w', b', r) := SendRequest(w, b, body);
            && w'.input == w.input && w'.broken == w.broken && w'.poison == w.poison
            && (r.Success? ==> r.value == b.next)
            && SendTrouble(w.sink, b.next, body) == if r.Failure? then Some(Reason(r.error)) else None
  {
    hide V.Rules, V.Judge, NewMessage, Frame;
    V.NewMessageExact(b.next, body);
  }

  lemma AwaitTroubleExact(w: Wire, id: u64)
    ensures var (w', r) := AwaitResponse(w, id);
            && w'.poison == w.poison
            && ReadTrouble(w, id) == (if r.Failure? then Some(Reason(r.error)) else None)
            && (r.Success? ==> r.value == ReadFrame(w.input, w.broken).outcome.value.value.body)
  {
    hide ReadFrame;
  }

  lemma CallTroubleExact(w: Wire, b: Bridge, body: MessageBody)
    ensures var (w', _, r) := Call(w, b, body);
            var trouble :=
              if SendTrouble(w.sink, b.next, body).Some? then SendTrouble(w.sink, b.next, body)
              else ReadTrouble(w, b.next);
            && (r.Denied? <==> trouble.Some?)
            && Recorded(w, w', trouble)
            && (r.Granted? ==> r.value == ReadFrame(w.input, w.broken).outcome.value.value.body)
  {
    hide SendRequest, AwaitResponse, SendTrouble, ReadTrouble, Reason, ReadFrame;
    SendTroubleExact(w, b, body);
    CallExact(w, b, body);
    var (w1, b1, sent) := SendRequest(w, b, body);
    if sent.Success? {
      AwaitTroubleExact(w1, sent.value);
      SameReading(w, w1, sent.value);
      var answer := AwaitResponse(w1, sent.value).1;
      assert answer.Success? || answer.Failure?;
    }
    assert sent.Success? || sent.Failure?;
    var (w', _, r) := Call(w, b, body);
    if r.Granted? {
      OneReading(w.log, w'.log, b.next, body, r.value);
    }
  }

  lemma SameReading(w: Wire, w1: Wire, id: u64)
    requires w1.input == w.input && w1.broken == w.broken
    ensures ReadTrouble(w1, id) == ReadTrouble(w, id)
  {
  }

  /** A trouble is the last thing in the log, and in the cell unless another is there. */
  predicate Recorded(before: Wire, after: Wire, trouble: Option<string>) {
    match trouble
    case None => !Refusing(before.log, after.log) && after.poison == before.poison
    case Some(reason) =>
      && Refusing(before.log, after.log) && after.log[|after.log| - 1] == Refused(reason)
      && after.poison == if before.poison.Some? then before.poison else Some(reason)
  }

  /** Exactly when an import is refused, and for which reason. */
  lemma ImportRefusals(w: Wire, p: Plugin, op: BridgeOp)
    requires p.active
    ensures Recorded(w, Import(w, p, op).0, Trouble(w, p, op))
  {
    hide Call, D.FromWire, Ascii, SendTrouble, ReadTrouble, ReadFrame;
    var request := EC.RequestOf(op);
    CallTroubleExact(w, p.bridge, request);
    var (w1, _, r) := Call(w, p.bridge, request);
    assert r.Granted? || r.Denied?;
    if op.OpInvoke? {
      assert D.FromWire(op.input).Ok? || D.FromWire(op.input).Err?;
    }
    var sending, reading := SendTrouble(w.sink, p.bridge.next, request), ReadTrouble(w, p.bridge.next);
    assert (sending.None? || sending.Some?) && (reading.None? || reading.Some?);
    if r.Granted? {
      CallExact(w, p.bridge, request);
      OneReading(w.log, w1.log, p.bridge.next, request, r.value);
    }
  }
}
