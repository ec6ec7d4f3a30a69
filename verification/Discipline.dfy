/**
 The wire discipline of whole runs. An automaton reads the log of a run; the theorem is that no
 run of the server, with any guest, any peer and any surroundings, ever drives it to `Violated`.
 */
module Discipline {
  import opened Bytes
  import D = Decoding
  import opened Protocol
  import opened Frames
  import FL = FrameLaws
  import opened Host

  // ---------------------------------------------------------------- the automaton

  datatype Phase =
    | Idle                               // between commands
    | Handling(id: u64, called: bool)    // a command was read; its export call is over or not begun
    | Running(id: u64)                   // inside the command's export call
    | Waiting(id: u64, callback: u64)    // a callback was written, its response is due
    | Crossed(id: u64)                   // a response with another ID was read
    | Poisoned(inside: bool)             // the bridge reported a protocol failure
    | Closing(inside: bool)              // the input ended; the guest is being shut down
    | Rejected                           // a callback response arrived as a command
    | Violated

  /** `next` is the ID the next callback of the current load attempt must carry, or, after a refusal or
      the end of input, the least it may carry. `tries` counts callbacks and refusals since the load
      attempt began, so no fewer than the IDs allocated. */
  datatype Trace = Trace(phase: Phase, next: nat, tries: nat)

  /** After this many allocations the IDs may wrap around. */
  const MANY := I64_LIMIT - 2

  predicate IsReply(body: MessageBody) {
    body.OkReply? || body.ResultReply? || body.ErrorReply?
  }

  predicate IsRequest(body: MessageBody) {
    body.BridgeInvoke? || body.RetainHandle? || body.ReleaseHandle?
  }

  /** One more refusal. */
  function Refusing(t: Trace, phase: Phase): Trace {
    t.(phase := phase, tries := t.tries + 1)
  }

  /** A callback whose ID is no longer prescribed, yet even and greater than those before. */
  predicate Later(t: Trace, e: Event) {
    && e.Sent? && IsRequest(e.m.body) && e.m.requestId % 2 == 0
    && (t.tries <= MANY ==> t.next <= e.m.requestId)
  }

  function Sending(t: Trace, id: nat, phase: Phase): Trace {
    Trace(phase, id + 2, t.tries + 1)
  }

  function Step(t: Trace, e: Event): Trace {
    match t.phase
    case Idle =>
      if e.Received? then t.(phase := if e.m.requestId % 2 == 1 then Handling(e.m.requestId, false) else Rejected)
      else if e.EndOfStream? then t.(phase := Closing(false))
      else t.(phase := Violated)
    case Handling(id, called) =>
      if e.Instantiated? && !called then t.(next := 2, tries := 0)
      else if e.Entered? && !called then t.(phase := Running(id))
      else if e.Sent? && e.m.requestId == id && IsReply(e.m.body) then t.(phase := Idle)
      else t.(phase := Violated)
    case Running(id) =>
      if e.Sent? && e.m.requestId == t.next && IsRequest(e.m.body)
      then Sending(t, e.m.requestId, Waiting(id, e.m.requestId))
      else if e.Left? then t.(phase := Handling(id, true))
      else if e.Refused? then Refusing(t, Poisoned(true))
      else t.(phase := Violated)
    case Waiting(id, callback) =>
      if e.Received? then t.(phase := if e.m.requestId == callback then Running(id) else Crossed(id))
      else if e.Refused? then Refusing(t, Poisoned(true))
      else t.(phase := Violated)
    case Crossed(_) =>
      if e.Refused? then Refusing(t, Poisoned(true)) else t.(phase := Violated)
    case Poisoned(inside) =>
      if inside && e.Received? then t
      else if inside && e.Refused? then Refusing(t, t.phase)
      else if inside && Later(t, e) then Sending(t, e.m.requestId, t.phase)
      else if inside && e.Left? then t.(phase := Poisoned(false))
      else t.(phase := Violated)
    case Closing(inside) =>
      if !inside && e.Entered? then t.(phase := Closing(true))
      else if inside && e.Left? then t.(phase := Closing(false))
      else if inside && e.Refused? then Refusing(t, t.phase)
      else if inside && Later(t, e) then Sending(t, e.m.requestId, t.phase)
      else t.(phase := Violated)
    case _ => t.(phase := Violated)
  }

  function Observe(log: seq<Event>): Trace {
    if log == [] then Trace(Idle, 2, 0) else Step(Observe(log[..|log| - 1]), log[|log| - 1])
  }

  lemma ObserveNext(log: seq<Event>, e: Event)
    ensures Observe(log + [e]) == Step(Observe(log), e)
  {
    hide Step;
    assert (log + [e])[..|log|] == log;
  }

  // ---------------------------------------------------------------- what the log records

  /** The reason of the first protocol failure. */
  function FirstRefusal(log: seq<Event>): Option<string> {
    if log == [] then None
    else
      var before := FirstRefusal(log[..|log| - 1]);
      var last := log[|log| - 1];
      if before == None && last.Refused? then Some(last.reason) else before
  }

  /** The frames of the messages that were sent. */
  function SentBytes(log: seq<Event>): seq<byte> {
    if log == [] then []
    else
      var before := SentBytes(log[..|log| - 1]);
      var last := log[|log| - 1];
      if last.Sent? && FL.CanFrame(last.m) then before + FL.FrameOf(last.m) else before
  }

  /** The poison cell holds the first reason ever reported, and the output is the frames sent and
      nothing else, unless the writer failed inside a frame. */
  ghost predicate Recorded(w: Wire) {
    w.poison == FirstRefusal(w.log) && FL.Holds(w.sink, SentBytes(w.log))
  }

  lemma RecordedQuiet(w: Wire, e: Event)
    requires Recorded(w) && !e.Sent? && !e.Refused?
    ensures Recorded(w.Log(e))
  {
    hide FL.CanFrame, FL.FrameOf;
    assert (w.log + [e])[..|w.log|] == w.log;
  }

  lemma RecordedRefuse(w: Wire, error: ProtocolError)
    requires Recorded(w)
    ensures Recorded(Refuse(w, error)) && Refuse(w, error).poison.Some?
  {
    hide FL.CanFrame, FL.FrameOf, Reason;
    assert (w.log + [Refused(Reason(error))])[..|w.log|] == w.log;
  }

  /** A write that succeeds is recorded; one that fails leaves at most part of its frame. */
  lemma RecordedPut(w: Wire, m: Message)
    requires Recorded(w) && WellFormed(m)
    ensures var (sink, written) := PutFrame(w.sink, m);
            && (written.Success? ==> Recorded(w.(sink := sink).Log(Sent(m))))
            && (written.Failure? ==> Recorded(w.(sink := sink)))
  {
    hide NewMessage, PutFrame, FL.CanFrame, FL.FrameOf, FL.Holds;
    FL.PutHolds(w.sink, SentBytes(w.log), m);
    assert (w.log + [Sent(m)])[..|w.log|] == w.log;
  }

  // ---------------------------------------------------------------- inside an export call

  /** Until IDs may wrap around, the bridge's counter is not behind the log's, nor far ahead of it. */
  predicate Ahead(t: Trace, next: u64) {
    t.tries <= MANY ==> t.next <= next <= 2 + 2 * t.tries
  }

  /** The same when the last allocation is not in the log yet. */
  predicate OneAhead(t: Trace, next: u64) {
    t.tries < MANY ==> t.next <= next <= 4 + 2 * t.tries
  }

  /** Inside an export call, with the bridge about to allocate `next`: the call of command `on`, or,
      without one, a call that shuts the guest down after the input ended. */
  ghost predicate InExport(w: Wire, next: u64, on: Option<u64>) {
    && Recorded(w)
    && var t := Observe(w.log);
       match t.phase
       case Running(running) => on == Some(running) && t.next == next && Ahead(t, next) && w.poison == None
       case Poisoned(inside) => on.Some? && inside && Ahead(t, next) && w.poison.Some?
       case Closing(inside) => on == None && inside && Ahead(t, next) && w.input == [] && !w.broken
       case _ => false
  }

  /** The same, after a callback with ID `callback` was written. */
  ghost predicate AfterRequest(w: Wire, next: u64, on: Option<u64>, callback: u64) {
    && Recorded(w)
    && var t := Observe(w.log);
       match t.phase
       case Waiting(running, due) =>
         on == Some(running) && due == callback && t.next == next && Ahead(t, next) && w.poison == None
       case Poisoned(inside) => on.Some? && inside && Ahead(t, next) && w.poison.Some?
       case Closing(inside) => on == None && inside && Ahead(t, next) && w.input == [] && !w.broken
       case _ => false
  }

  /** The bridge has failed but not yet said so. */
  ghost predicate BeforeRefusal(w: Wire, next: u64, on: Option<u64>) {
    && Recorded(w)
    && var t := Observe(w.log);
       OneAhead(t, next) &&
       match t.phase
       case Running(running) => on == Some(running)
       case Waiting(running, _) => on == Some(running)
       case Crossed(running) => on == Some(running)
       case Poisoned(inside) => on.Some? && inside
       case Closing(inside) => on == None && inside && w.input == [] && !w.broken
       case _ => false
  }

  lemma RefusalKeeps(w: Wire, error: ProtocolError, next: u64, on: Option<u64>)
    requires BeforeRefusal(w, next, on)
    ensures InExport(Refuse(w, error), next, on)
  {
    hide Recorded, FirstRefusal, SentBytes, Reason;
    RecordedRefuse(w, error);
    ObserveNext(w.log, Refused(Reason(error)));
  }

  lemma OnlyRecorded(w: Wire, next: u64, on: Option<u64>)
    requires InExport(w, next, on)
    ensures Recorded(w)
  {
  }

  lemma SentKeeps(w: Wire, sent: Wire, m: Message, on: Option<u64>)
    requires InExport(w, m.requestId, on) && IsRequest(m.body) && m.requestId % 2 == 0 && m.requestId < I64_LIMIT
    requires Recorded(sent) && sent == w.(sink := sent.sink).Log(Sent(m))
    ensures AfterRequest(sent, m.requestId + 2, on, m.requestId)
  {
    hide Recorded, Observe;
    ObserveNext(w.log, Sent(m));
  }

  lemma UnsentKeeps(w: Wire, unsent: Wire, next: u64, on: Option<u64>)
    requires InExport(w, next, on) && Recorded(unsent) && unsent == w.(sink := unsent.sink)
    ensures BeforeRefusal(unsent, (next + 2) % U64_LIMIT, on)
  {
    hide Recorded, Observe;
  }

  lemma RequestIsEven(id: u64, body: MessageBody)
    requires IsRequest(body) && NewMessage(id, body).Success?
    ensures id % 2 == 0
  {
  }

  lemma SendRequestKeeps(w: Wire, b: Bridge, body: MessageBody, on: Option<u64>)
    requires InExport(w, b.next, on) && IsRequest(body)
    ensures var (w', b', r) := SendRequest(w, b, body);
            match r
            case Success(callback) => AfterRequest(w', b'.next, on, callback)
            case Failure(_) => BeforeRefusal(w', b'.next, on)
  {
    hide Recorded, PutFrame, NewMessage, InExport, AfterRequest, BeforeRefusal;
    OnlyRecorded(w, b.next, on);
    UnsentKeeps(w, w, b.next, on);
    var made := NewMessage(b.next, body);
    if 0 < b.next < I64_LIMIT && made.Success? {
      RequestIsEven(b.next, body);
      RecordedPut(w, made.value);
      var (sink, written) := PutFrame(w.sink, made.value);
      if written.Success? {
        SentKeeps(w, w.(sink := sink).Log(Sent(made.value)), made.value, on);
      } else {
        UnsentKeeps(w, w.(sink := sink), b.next, on);
      }
    }
  }

  lemma AwaitResponseKeeps(w: Wire, next: u64, on: Option<u64>, callback: u64)
    requires AfterRequest(w, next, on, callback)
    ensures var (w', r) := AwaitResponse(w, callback);
            if r.Success? then InExport(w', next, on) else BeforeRefusal(w', next, on)
  {
    hide FirstRefusal, SentBytes, Observe, FromWire, NewMessage;
    var read := ReadFrame(w.input, w.broken);
    var w1 := w.(input := read.rest);
    if read.outcome.Success? && read.outcome.value.Some? {
      ObserveNext(w1.log, Received(read.outcome.value.value));
      RecordedQuiet(w1, Received(read.outcome.value.value));
    }
  }

  /** One callback, whatever the peer answers, keeps the discipline. */
  lemma CallKeeps(w: Wire, b: Bridge, body: MessageBody, on: Option<u64>)
    requires InExport(w, b.next, on) && IsRequest(body)
    ensures var (w', b', _) := Call(w, b, body); InExport(w', b'.next, on)
  {
    hide InExport, AfterRequest, BeforeRefusal, SendRequest, AwaitResponse, Refuse;
    SendRequestKeeps(w, b, body, on);
    var (w1, b1, sent) := SendRequest(w, b, body);
    match sent
    case Failure(error) => RefusalKeeps(w1, error, b1.next, on);
    case Success(callback) =>
      AwaitResponseKeeps(w1, b1.next, on, callback);
      var (w2, answer) := AwaitResponse(w1, callback);
      if answer.Failure? {
        RefusalKeeps(w2, answer.error, b1.next, on);
      }
  }

  lemma InExportCanRefuse(w: Wire, next: u64, on: Option<u64>)
    requires InExport(w, next, on)
    ensures BeforeRefusal(w, next, on)
  {
  }

  lemma BridgeKeeps(w: Wire, p: Plugin, op: BridgeOp, on: Option<u64>)
    requires InExport(w, p.bridge.next, on)
    ensures var (w', p', _) := Import(w, p, op); InExport(w', p'.bridge.next, on)
  {
    hide InExport, BeforeRefusal, Call, Refuse, D.FromWire, Ascii;
    InExportCanRefuse(w, p.bridge.next, on);
    var body := match op
      case OpInvoke(operation, input) => BridgeInvoke(operation, input)
      case OpRetain(objectId, generation) => RetainHandle(objectId, generation)
      case OpRelease(objectId, generation) => ReleaseHandle(objectId, generation);
    CallKeeps(w, p.bridge, body, on);
    var (w1, b1, r) := Call(w, p.bridge, body);
    InExportCanRefuse(w1, b1.next, on);
    forall error: ProtocolError ensures InExport(Refuse(w1, error), b1.next, on) {
      RefusalKeeps(w1, error, b1.next, on);
    }
    forall error: ProtocolError ensures InExport(Refuse(w, error), p.bridge.next, on) {
      RefusalKeeps(w, error, p.bridge.next, on);
    }
  }

  lemma {:induction false} OpsKeep(w: Wire, p: Plugin, ops: seq<BridgeOp>, on: Option<u64>)
    requires InExport(w, p.bridge.next, on)
    ensures var (w', p', _) := RunOps(w, p, ops); InExport(w', p'.bridge.next, on)
    decreases |ops|
  {
    hide InExport, Import;
    if ops != [] {
      BridgeKeeps(w, p, ops[0], on);
      var (w1, p1, r) := Import(w, p, ops[0]);
      if !r.Abort? {
        OpsKeep(w1, p1, ops[1..], on);
      }
    }
  }

  // ---------------------------------------------------------------- around an export call

  /** Where an export call may be entered: by command `on`, or to shut the guest down. */
  ghost predicate BeforeExport(w: Wire, next: u64, on: Option<u64>) {
    && Recorded(w)
    && var t := Observe(w.log);
       match t.phase
       case Handling(handled, called) =>
         on == Some(handled) && !called && t.next == next && Ahead(t, next) && w.poison == None
       case Closing(inside) => on == None && !inside && Ahead(t, next) && w.input == [] && !w.broken
       case _ => false
  }

  ghost predicate AfterExport(w: Wire, next: u64, on: Option<u64>) {
    && Recorded(w)
    && var t := Observe(w.log);
       match t.phase
       case Handling(handled, _) => on == Some(handled) && t.next == next && Ahead(t, next) && w.poison == None
       case Poisoned(inside) => on.Some? && !inside && w.poison.Some?
       case Closing(inside) => on == None && !inside && Ahead(t, next) && w.input == [] && !w.broken
       case _ => false
  }

  lemma EnterKeeps(w: Wire, next: u64, on: Option<u64>, call: ExportCall)
    requires BeforeExport(w, next, on)
    ensures InExport(w.Log(Entered(call)), next, on)
  {
    hide Recorded, Observe;
    RecordedQuiet(w, Entered(call));
    ObserveNext(w.log, Entered(call));
  }

  lemma LeaveKeeps(w: Wire, next: u64, on: Option<u64>, call: ExportCall, outcome: CallOutcome)
    requires InExport(w, next, on)
    ensures AfterExport(w.Log(Left(call, outcome)), next, on)
  {
    hide Recorded, Observe;
    RecordedQuiet(w, Left(call, outcome));
    ObserveNext(w.log, Left(call, outcome));
  }

  /** One export call, whatever guest and peer do, keeps the discipline. */
  lemma PluginCallKeeps(env: Env, w: Wire, p: Plugin, call: ExportCall, on: Option<u64>)
    requires BeforeExport(w, p.bridge.next, on)
    ensures var (w', p', _) := PluginCall(env, w, p, call); AfterExport(w', p'.bridge.next, on)
  {
    hide InExport, Recorded, Observe, RunOps, Labelled, Ascii;
    if !p.poisoned {
      var entered := p.(active := true, history := p.history + [call]);
      var g := env.guest(p.instance, entered.history);
      EnterKeeps(w, p.bridge.next, on, call);
      OpsKeep(w.Log(Entered(call)), entered, g.ops, on);
      var (w1, p1, completed) := RunOps(w.Log(Entered(call)), entered, g.ops);
      forall outcome ensures AfterExport(w1.Log(Left(call, outcome)), p1.bridge.next, on) {
        LeaveKeeps(w1, p1.bridge.next, on, call, outcome);
      }
    }
  }

  // ---------------------------------------------------------------- a command

  /** The bridge of the loaded store allocates the next ID the log allows. */
  predicate InStep(wd: World) {
    wd.plugin.Some? ==>
      var t := Observe(wd.wire.log);
      wd.plugin.value.bridge.next == t.next && Ahead(t, t.next)
  }

  /** Between commands. */
  ghost predicate Steady(wd: World) {
    Recorded(wd.wire) && wd.wire.poison == None && InStep(wd) && Observe(wd.wire.log).phase == Idle
  }

  /** Command `id` was read. */
  ghost predicate Started(wd: World, id: u64) {
    && Recorded(wd.wire) && wd.wire.poison == None && InStep(wd)
    && Observe(wd.wire.log).phase == Handling(id, false)
  }

  /** The engine is done with command `id`. */
  ghost predicate Handled(wd: World, id: u64) {
    && Recorded(wd.wire)
    && match Observe(wd.wire.log).phase
       case Handling(handled, _) => handled == id && wd.wire.poison == None && InStep(wd)
       case Poisoned(inside) => !inside && wd.wire.poison.Some?
       case _ => false
  }

  lemma InstantiateKeeps(w: Wire, id: u64)
    requires Recorded(w) && w.poison == None && Observe(w.log).phase == Handling(id, false)
    ensures BeforeExport(w.Log(Instantiated), 2, Some(id))
  {
    hide Recorded, Observe;
    RecordedQuiet(w, Instantiated);
    ObserveNext(w.log, Instantiated);
  }

  lemma DispatchKeeps(env: Env, wd: World, body: MessageBody, id: u64)
    requires IsCommand(body) && Started(wd, id)
    ensures Handled(Dispatch(env, wd, body).0, id)
  {
    hide Recorded, Observe, PluginCall, Dispatch, D.FromWire, RuntimeError, Ascii;
    DispatchOutcome(env, wd, body);
    match CallOf(env, wd, body)
    case None =>
    case Some((w, p, call)) =>
      InstantiateKeeps(wd.wire, id);
      PluginCallKeeps(env, w, p, call, Some(id));
  }

  lemma ReplyKeeps(w: Wire, id: u64, body: MessageBody)
    requires Recorded(w) && Observe(w.log).phase.Handling? && Observe(w.log).phase.id == id && IsReply(body)
    ensures var (w', r) := Reply(w, id, body);
            && Recorded(w') && w'.poison == w.poison
            && Observe(w'.log) == (if r.Success? then Observe(w.log).(phase := Idle) else Observe(w.log))
  {
    hide Recorded, Observe, PutFrame;
    var made := NewMessage(id, body);
    if made.Success? {
      RecordedPut(w, made.value);
      ObserveNext(w.log, Sent(made.value));
      assert PutFrame(w.sink, made.value).1.Success? || PutFrame(w.sink, made.value).1.Failure?;
    }
  }

  /** How a run may end, and with what result. */
  ghost predicate Orderly(wd: World, r: Outcome<()>) {
    && Recorded(wd.wire)
    && match Observe(wd.wire.log).phase
       case Idle => wd.wire.poison == None && (r.Success? ==> wd.state == Closed)
       case Handling(_, _) => wd.wire.poison == None && r.Failure?
       case Rejected => wd.wire.poison == None && r == Invalid("callback response arrived outside a callback")
       case Poisoned(inside) => !inside && wd.wire.poison.Some? && r == Invalid(wd.wire.poison.value)
       case Closing(inside) => !inside && r == Success(())
       case _ => false
  }

  /** What a turn leaves: the next command may be read, or the run may end. */
  ghost predicate Turned(wd: World, r: Outcome<bool>) {
    match r
    case Success(going) => Steady(wd) && (!going ==> wd.state == Closed)
    case Failure(error) => Orderly(wd, Failure(error))
  }

  lemma HandleShape(env: Env, wd: World, body: MessageBody)
    ensures var (after, r) := Handle(env, wd, body);
            && after == (if IsCommand(body) then Dispatch(env, wd, body).0 else wd)
            && (r.Success? ==> IsReply(r.value.0))
            && (r.Success? && r.value.1 ==> after.state == Closed)
  {
    hide Fatal, Labelled, Ascii, PluginCall, D.FromWire;
  }

  lemma ReceiveKeeps(wd: World, m: Message)
    requires Steady(wd)
    ensures var received := wd.(wire := wd.wire.Log(Received(m)));
            if m.requestId % 2 == 1 then Started(received, m.requestId)
            else Orderly(received, Invalid("callback response arrived outside a callback"))
  {
    hide Recorded, Observe;
    RecordedQuiet(wd.wire, Received(m));
    ObserveNext(wd.wire.log, Received(m));
  }

  lemma TurnKeeps(env: Env, wd: World, m: Message)
    requires Steady(wd)
    ensures var (after, r) := Turn(env, wd.(wire := wd.wire.Log(Received(m))), m); Turned(after, r)
  {
    hide Recorded, Observe, Dispatch, Handle, Reply;
    ReceiveKeeps(wd, m);
    if m.requestId % 2 == 1 {
      var received := wd.(wire := wd.wire.Log(Received(m)));
      HandleShape(env, received, m.body);
      if IsCommand(m.body) {
        DispatchKeeps(env, received, m.body, m.requestId);
      }
      var (after, r) := Handle(env, received, m.body);
      if after.wire.poison == None && r.Success? {
        ReplyKeeps(after.wire, m.requestId, r.value.0);
      }
    }
  }

  // ---------------------------------------------------------------- the end of input

  lemma CloseKeeps(env: Env, wd: World)
    requires Steady(wd) && wd.wire.input == [] && !wd.wire.broken
    ensures Orderly(CloseOnEof(env, wd.(wire := wd.wire.Log(EndOfStream))), Success(()))
  {
    hide Recorded, Observe, PluginCall;
    RecordedQuiet(wd.wire, EndOfStream);
    ObserveNext(wd.wire.log, EndOfStream);
    if wd.plugin.Some? {
      var w, p := wd.wire.Log(EndOfStream), wd.plugin.value;
      PluginCallKeeps(env, w, p, CallUnload, None);
      PluginCallKeeps(env, w, p, CallDisable, None);
      var (w1, p1, _) := PluginCall(env, w, p, CallDisable);
      PluginCallKeeps(env, w1, p1, CallUnload, None);
    }
  }

  // ---------------------------------------------------------------- whole runs

  lemma ReadingKeeps(wd: World)
    requires Steady(wd)
    ensures var r := ReadFrame(wd.wire.input, wd.wire.broken);
            && Steady(wd.(wire := wd.wire.(input := r.rest)))
            && (r.outcome == Success(None) ==> r.rest == [] && !wd.wire.broken)
  {
    hide SentBytes, FirstRefusal, Observe, FromWire, NewMessage;
  }

  lemma {:induction false} ServeKeeps(env: Env, wd: World)
    requires Steady(wd)
    ensures var (after, r) := Serve(env, wd); Orderly(after, r)
    decreases |wd.wire.input|
  {
    hide Recorded, Observe, Turn, CloseOnEof, ReadFrame;
    ReadingKeeps(wd);
    var read := ReadFrame(wd.wire.input, wd.wire.broken);
    var next := wd.(wire := wd.wire.(input := read.rest));
    match read.outcome
    case Failure(_) =>
    case Success(None) => CloseKeeps(env, next);
    case Success(Some(m)) =>
      TurnKeeps(env, next, m);
      TurnFollows(env, next.(wire := next.wire.Log(Received(m))), m);
      var (after, going) := Turn(env, next.(wire := next.wire.Log(Received(m))), m);
      if going == Success(true) {
        ServeKeeps(env, after);
      }
  }

  /** Every run, for every guest, every peer, every reading of the package and every writer. */
  lemma RunsAreOrderly(env: Env, input: seq<byte>, broken: bool, room: Option<nat>)
    ensures var (after, r) := Serve(env, Initial(input, broken, room)); Orderly(after, r)
  {
    ServeKeeps(env, Initial(input, broken, room));
  }
}
