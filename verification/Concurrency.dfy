/**
 Any number of threads calling one `ProcessBridge` at once. The bridge is shared and has one lock
 per stream, so a call is four atomic steps: allocate an ID, write a frame, read a frame, and, when
 something went wrong, report it. A run is any interleaving of such steps.
 */
module Concurrency {
  import opened Bytes
  import opened Protocol
  import opened Frames
  import FL = FrameLaws
  import opened Host

  // ---------------------------------------------------------------- states and steps

  /** `ticket` counts allocations; it stands for the call, the ID follows from it. */
  datatype Caller =
    | Idle
    | Holding(ticket: nat, id: u64, body: MessageBody)
    | Awaiting(ticket: nat, id: u64)
    | Failing(ticket: nat, error: ProtocolError)
    | Finished(ticket: nat, result: BridgeResult<MessageBody>)

  /** What `caller` began, and the ID it was given. */
  datatype Begun = Begun(caller: nat, id: u64, body: MessageBody)

  /** Frame `m` was written or read by `caller` on behalf of call `ticket`. */
  datatype Traffic = Traffic(caller: nat, ticket: nat, m: Message)

  /** The shared state, then the threads, then history: the calls in the order of their allocations,
      the frames written, the frames read, and what was reported. */
  datatype State = State(
    input: seq<byte>, broken: bool, sink: Sink, next: u64, poison: Option<string>,
    callers: seq<Caller>,
    calls: seq<Begun>, sent: seq<Traffic>, taken: seq<Traffic>, reports: seq<string>)

  datatype Step = Begin(caller: nat, body: MessageBody) | Write(caller: nat) | Read(caller: nat) | Report(caller: nat)

  predicate Enabled(s: State, step: Step) {
    && step.caller < |s.callers|
    && var c := s.callers[step.caller];
       match step
       case Begin(_, _) => c.Idle? || c.Finished?
       case Write(_) => c.Holding?
       case Read(_) => c.Awaiting?
       case Report(_) => c.Failing?
  }

  function Apply(s: State, step: Step): State
    requires Enabled(s, step)
  {
    var i := step.caller;
    var c := s.callers[i];
    match step
    case Begin(_, body) =>
      var ticket, id := |s.calls|, s.next;
      var c' := if id == 0 || id >= I64_LIMIT then Failing(ticket, InvalidData("callback request ID overflow"))
                else Holding(ticket, id, body);
      s.(next := (id + 2) % U64_LIMIT, calls := s.calls + [Begun(i, id, body)], callers := s.callers[i := c'])
    case Write(_) =>
      (match NewMessage(c.id, c.body)
       case Failure(error) => s.(callers := s.callers[i := Failing(c.ticket, error)])
       case Success(m) =>
         var (sink, written) := PutFrame(s.sink, m);
         match written
         case Failure(error) => s.(sink := sink, callers := s.callers[i := Failing(c.ticket, error)])
         case Success(_) =>
           s.(sink := sink, sent := s.sent + [Traffic(i, c.ticket, m)],
              callers := s.callers[i := Awaiting(c.ticket, c.id)]))
    case Read(_) =>
      var r := ReadFrame(s.input, s.broken);
      (match r.outcome
       case Failure(error) => s.(input := r.rest, callers := s.callers[i := Failing(c.ticket, error)])
       case Success(None) =>
         s.(input := r.rest, callers := s.callers[i := Failing(c.ticket, InvalidData("callback response is missing"))])
       case Success(Some(m)) =>
         var c' := if m.requestId != c.id
                   then Failing(c.ticket, InvalidData("callback response request ID mismatch"))
                   else Finished(c.ticket, Granted(m.body));
         s.(input := r.rest, taken := s.taken + [Traffic(i, c.ticket, m)], callers := s.callers[i := c']))
    case Report(_) =>
      s.(poison := if s.poison == None then Some(Reason(c.error)) else s.poison,
         reports := s.reports + [Reason(c.error)],
         callers := s.callers[i := Finished(c.ticket, Denied(ProtocolFault(c.error)))])
  }

  predicate Possible(s: State, steps: seq<Step>)
    decreases |steps|
  {
    steps == [] || (Enabled(s, steps[0]) && Possible(Apply(s, steps[0]), steps[1..]))
  }

  function Run(s: State, steps: seq<Step>): State
    requires Possible(s, steps)
    decreases |steps|
  {
    if steps == [] then s else Run(Apply(s, steps[0]), steps[1..])
  }

  /** A new bridge with `n` threads. */
  function Start(input: seq<byte>, broken: bool, sink: Sink, n: nat): State {
    State(input, broken, sink, 2, None, seq(n, _ => Idle), [], [], [], [])
  }

  // ---------------------------------------------------------------- what every step keeps

  /** The ID of the k-th allocation. */
  function IdOf(k: nat): u64 {
    (2 + 2 * k) % U64_LIMIT
  }

  predicate Allocations(s: State) {
    && s.next == IdOf(|s.calls|)
    && forall k | 0 <= k < |s.calls| :: s.calls[k].id == IdOf(k)
  }

  predicate Owns(calls: seq<Begun>, caller: nat, ticket: nat) {
    ticket < |calls| && calls[ticket].caller == caller
  }

  /** The frame a call is to write: its own ID, and the body it was begun with. */
  function Request(calls: seq<Begun>, ticket: nat): Message
    requires ticket < |calls|
  {
    Message(IdOf(ticket), calls[ticket].body)
  }

  predicate Absent(ts: seq<Traffic>, ticket: nat) {
    forall k | 0 <= k < |ts| :: ts[k].ticket != ticket
  }

  /** What a thread's place in its call says about the history. */
  predicate CallerFits(s: State, i: nat, c: Caller) {
    match c
    case Idle => true
    case Holding(ticket, id, body) =>
      && Owns(s.calls, i, ticket) && Message(id, body) == Request(s.calls, ticket)
      && Absent(s.sent, ticket) && Absent(s.taken, ticket)
    case Awaiting(ticket, id) =>
      && Owns(s.calls, i, ticket) && id == IdOf(ticket)
      && Traffic(i, ticket, Request(s.calls, ticket)) in s.sent && Absent(s.taken, ticket)
    case Failing(ticket, _) => Owns(s.calls, i, ticket)
    case Finished(ticket, result) =>
      && Owns(s.calls, i, ticket)
      && (if result.Granted? then
            && Traffic(i, ticket, Request(s.calls, ticket)) in s.sent
            && Traffic(i, ticket, Message(IdOf(ticket), result.value)) in s.taken
          else s.reports != [])
  }

  predicate CallersFit(s: State) {
    forall i | 0 <= i < |s.callers| :: CallerFits(s, i, s.callers[i])
  }

  /** Each frame belongs to a call of the thread that handled it, and no call handled two. */
  predicate Orderly(calls: seq<Begun>, ts: seq<Traffic>) {
    && (forall k | 0 <= k < |ts| :: Owns(calls, ts[k].caller, ts[k].ticket))
    && (forall j, k | 0 <= j < k < |ts| :: ts[j].ticket != ts[k].ticket)
  }

  /** What was written for a call is its request. */
  predicate SentFits(s: State) {
    forall k | 0 <= k < |s.sent| :: s.sent[k].ticket < |s.calls| && s.sent[k].m == Request(s.calls, s.sent[k].ticket)
  }

  predicate Crossed(t: Traffic) {
    t.m.requestId != IdOf(t.ticket)
  }

  /** A thread that read a response to another call fails, and says so. */
  predicate CrossingsFail(s: State) {
    forall k | 0 <= k < |s.taken| && Crossed(s.taken[k]) ::
      s.reports != [] || (s.taken[k].caller < |s.callers| && s.callers[s.taken[k].caller].Failing?)
  }

  predicate Inv(s: State) {
    && Allocations(s) && CallersFit(s)
    && Orderly(s.calls, s.sent) && SentFits(s)
    && Orderly(s.calls, s.taken) && CrossingsFail(s)
    && s.poison == (if s.reports == [] then None else Some(s.reports[0]))
  }

  // ---------------------------------------------------------------- one thread moves, the others stay

  /** Only thread `i` moved, and only for calls of its own. */
  predicate Moved(s: State, s': State, i: nat) {
    && i < |s.callers| && |s'.callers| == |s.callers|
    && (forall j | 0 <= j < |s.callers| && j != i :: s'.callers[j] == s.callers[j])
    && s.calls <= s'.calls && s.sent <= s'.sent && s.taken <= s'.taken && s.reports <= s'.reports
    && (forall k | |s.sent| <= k < |s'.sent| :: Owns(s'.calls, i, s'.sent[k].ticket))
    && (forall k | |s.taken| <= k < |s'.taken| :: Owns(s'.calls, i, s'.taken[k].ticket))
  }

  lemma OtherFits(s: State, s': State, i: nat, j: nat)
    requires Moved(s, s', i) && j < |s.callers| && j != i && CallerFits(s, j, s.callers[j])
    ensures CallerFits(s', j, s'.callers[j])
  {
    hide IdOf;
    var c := s.callers[j];
    if c.Holding? || c.Awaiting? || c.Failing? || c.Finished? {
      assert s'.calls[c.ticket] == s.calls[c.ticket];
    }
    assert forall t | t in s.sent :: t in s'.sent;
    assert forall t | t in s.taken :: t in s'.taken;
  }

  lemma AllFit(s: State, s': State, i: nat)
    requires CallersFit(s) && Moved(s, s', i) && CallerFits(s', i, s'.callers[i])
    ensures CallersFit(s')
  {
    hide CallerFits, Moved;
    SameLength(s, s', i);
    forall j | 0 <= j < |s'.callers| ensures CallerFits(s', j, s'.callers[j]) {
      if j != i {
        OtherFits(s, s', i, j);
      }
    }
  }

  lemma SameLength(s: State, s': State, i: nat)
    requires Moved(s, s', i)
    ensures i < |s.callers| && |s'.callers| == |s.callers|
  {
  }

  lemma OrderlyNext(calls: seq<Begun>, ts: seq<Traffic>, t: Traffic)
    requires Orderly(calls, ts) && Owns(calls, t.caller, t.ticket) && Absent(ts, t.ticket)
    ensures Orderly(calls, ts + [t])
  {
  }

  lemma NextId(k: nat)
    ensures (IdOf(k) + 2) % U64_LIMIT == IdOf(k + 1)
  {
  }

  lemma BeginKeeps(s: State, step: Step)
    requires Inv(s) && Enabled(s, step) && step.Begin?
    ensures Inv(Apply(s, step))
  {
    hide IdOf, CallersFit;
    NextId(|s.calls|);
    var s' := Apply(s, step);
    NewTicket(s, |s.calls|);
    AllFit(s, s', step.caller);
  }

  /** A ticket not given out yet has no traffic. */
  lemma NewTicket(s: State, ticket: nat)
    requires Orderly(s.calls, s.sent) && Orderly(s.calls, s.taken) && |s.calls| <= ticket
    ensures Absent(s.sent, ticket) && Absent(s.taken, ticket)
  {
  }

  lemma WriteKeeps(s: State, step: Step)
    requires Inv(s) && Enabled(s, step) && step.Write?
    ensures Inv(Apply(s, step))
  {
    hide NewMessage, PutFrame, IdOf, Absent, Orderly, CallersFit;
    var s' := Apply(s, step);
    var c := s.callers[step.caller];
    ThisFits(s, step.caller);
    var made := NewMessage(c.id, c.body);
    if made.Success? {
      OrderlyNext(s.calls, s.sent, Traffic(step.caller, c.ticket, made.value));
    }
    AllFit(s, s', step.caller);
  }

  lemma ThisFits(s: State, i: nat)
    requires CallersFit(s) && i < |s.callers|
    ensures CallerFits(s, i, s.callers[i])
  {
  }

  lemma ReadKeeps(s: State, step: Step)
    requires Inv(s) && Enabled(s, step) && step.Read?
    ensures Inv(Apply(s, step))
  {
    hide ReadFrame, NewMessage, PutFrame, WellFormed, IdOf, Absent, Orderly, CallersFit, CrossingsFail;
    var s' := Apply(s, step);
    var c := s.callers[step.caller];
    ThisFits(s, step.caller);
    var read := ReadFrame(s.input, s.broken).outcome;
    if read.Success? && read.value.Some? {
      OrderlyNext(s.calls, s.taken, Traffic(step.caller, c.ticket, read.value.value));
    }
    AllFit(s, s', step.caller);
    ReadCrossings(s, step);
  }

  lemma ReadCrossings(s: State, step: Step)
    requires Inv(s) && Enabled(s, step) && step.Read?
    ensures CrossingsFail(Apply(s, step))
  {
    hide ReadFrame, NewMessage, PutFrame, WellFormed, IdOf, Absent, Orderly, CallersFit;
    ThisFits(s, step.caller);
  }

  lemma ReportKeeps(s: State, step: Step)
    requires Inv(s) && Enabled(s, step) && step.Report?
    ensures Inv(Apply(s, step))
  {
    hide Reason, IdOf, Absent, Orderly, CallersFit;
    ThisFits(s, step.caller);
    AllFit(s, Apply(s, step), step.caller);
  }

  lemma StepKeeps(s: State, step: Step)
    requires Inv(s) && Enabled(s, step)
    ensures Inv(Apply(s, step))
  {
    hide Inv, Apply, Enabled;
    match step
    case Begin(_, _) => BeginKeeps(s, step);
    case Write(_) => WriteKeeps(s, step);
    case Read(_) => ReadKeeps(s, step);
    case Report(_) => ReportKeeps(s, step);
  }

  lemma {:induction false} RunKeeps(s: State, steps: seq<Step>)
    requires Inv(s) && Possible(s, steps)
    ensures Inv(Run(s, steps))
    decreases |steps|
  {
    hide Inv, Apply, Enabled;
    if steps != [] {
      StepKeeps(s, steps[0]);
      RunKeeps(Apply(s, steps[0]), steps[1..]);
    }
  }

  // ---------------------------------------------------------------- every interleaving

  /** IDs repeat every 2^63 allocations and never in between. */
  lemma IdsRepeat(j: nat, k: nat)
    requires j <= k
    ensures IdOf(j) == IdOf(k) <==> (k - j) % I64_LIMIT == 0
  {
    IdPeriod(j);
    IdPeriod(k);
    SameRemainder(j + 1, k + 1);
  }

  lemma SameRemainder(a: nat, b: nat)
    requires a <= b
    ensures a % I64_LIMIT == b % I64_LIMIT <==> (b - a) % I64_LIMIT == 0
  {
    var d := b / I64_LIMIT - a / I64_LIMIT;
    assert b - a == d * I64_LIMIT + (b % I64_LIMIT - a % I64_LIMIT);
  }

  lemma IdPeriod(k: nat)
    ensures IdOf(k) == 2 * ((k + 1) % I64_LIMIT)
  {
    var q, r := (k + 1) / I64_LIMIT, (k + 1) % I64_LIMIT;
    assert 2 + 2 * k == q * U64_LIMIT + 2 * r;
  }

  /** Whatever the interleaving and the peer: a call that returns a body wrote its own request, with the
      ID it allocated and the body it was begun with, and its own thread read the response with that ID.
      No call writes or reads two frames, every frame written is the request of the call that wrote it,
      and the first 2^63 IDs are different. A response read by the wrong call makes that call fail; once
      every failure has been reported, the cell is poisoned, with the first reason reported. */
  lemma CallsGetTheirOwnResponses(input: seq<byte>, broken: bool, sink: Sink, n: nat, steps: seq<Step>)
    requires Possible(Start(input, broken, sink, n), steps)
    ensures var s := Run(Start(input, broken, sink, n), steps);
            && (forall i | 0 <= i < |s.callers| && s.callers[i].Finished? && s.callers[i].result.Granted? ::
                  var ticket := s.callers[i].ticket;
                  && ticket < |s.calls|
                  && var call := s.calls[ticket];
                     && call.caller == i
                     && Traffic(i, ticket, Message(call.id, call.body)) in s.sent
                     && Traffic(i, ticket, Message(call.id, s.callers[i].result.value)) in s.taken)
            && (forall k | 0 <= k < |s.sent| ::
                  var t := s.sent[k];
                  t.ticket < |s.calls| && t.m == Message(s.calls[t.ticket].id, s.calls[t.ticket].body))
            && Orderly(s.calls, s.sent) && Orderly(s.calls, s.taken)
            && (forall j, k | 0 <= j < k < |s.calls| && k < I64_LIMIT :: s.calls[j].id != s.calls[k].id)
            && (forall i | 0 <= i < |s.callers| && s.callers[i].Finished? && s.callers[i].result.Denied? ::
                  s.poison.Some?)
            && (forall k | 0 <= k < |s.taken| && Crossed(s.taken[k]) ::
                  s.poison.Some? || (s.taken[k].caller < |s.callers| && s.callers[s.taken[k].caller].Failing?))
            && s.poison == (if s.reports == [] then None else Some(s.reports[0]))
  {
    hide Run, Possible, IdOf, Orderly;
    var start := Start(input, broken, sink, n);
    StartFits(input, broken, sink, n);
    RunKeeps(start, steps);
    var s := Run(start, steps);
    forall i | 0 <= i < |s.callers| ensures CallerFits(s, i, s.callers[i]) {
    }
    forall j, k | 0 <= j < k < |s.calls| && k < I64_LIMIT ensures s.calls[j].id != s.calls[k].id {
      IdsRepeat(j, k);
    }
  }

  lemma StartFits(input: seq<byte>, broken: bool, sink: Sink, n: nat)
    ensures Inv(Start(input, broken, sink, n))
  {
  }

  function Messages(ts: seq<Traffic>): seq<Message> {
    if ts == [] then [] else Messages(ts[..|ts| - 1]) + [ts[|ts| - 1].m]
  }

  lemma MessagesNext(ts: seq<Traffic>, t: Traffic)
    ensures Messages(ts + [t]) == Messages(ts) + [t.m]
  {
    assert (ts + [t])[..|ts|] == ts;
  }

  /** The output is the frames written, whole and in order, unless the writer failed inside one. */
  ghost predicate Whole(s: State) {
    FL.Framable(Messages(s.sent)) && FL.Holds(s.sink, FL.FrameAll(Messages(s.sent)))
  }

  lemma StepKeepsWhole(s: State, step: Step)
    requires Whole(s) && Enabled(s, step)
    ensures Whole(Apply(s, step))
  {
    hide NewMessage, ReadFrame, PutFrame, FL.Holds, FL.FrameAll, FL.CanFrame, FL.FrameOf, Messages;
    if step.Write? {
      var c := s.callers[step.caller];
      var made := NewMessage(c.id, c.body);
      if made.Success? {
        var before := Messages(s.sent);
        MessagesNext(s.sent, Traffic(step.caller, c.ticket, made.value));
        FL.PutHolds(s.sink, FL.FrameAll(before), made.value);
        if PutFrame(s.sink, made.value).1.Success? {
          FL.FrameOneMore(before, made.value);
        }
      }
    }
  }

  lemma {:induction false} RunKeepsWhole(s: State, steps: seq<Step>)
    requires Whole(s) && Possible(s, steps)
    ensures Whole(Run(s, steps))
    decreases |steps|
  {
    hide Whole, Apply, Enabled;
    if steps != [] {
      StepKeepsWhole(s, steps[0]);
      RunKeepsWhole(Apply(s, steps[0]), steps[1..]);
    }
  }

  /** So whoever reads the output of any interleaving gets exactly the requests written, with at most
      a truncation at the end where the writer failed. */
  lemma OutputIsWholeFrames(input: seq<byte>, broken: bool, room: Option<nat>, n: nat, steps: seq<Step>)
    requires Possible(Start(input, broken, Sink([], room), n), steps)
    ensures var s := Run(Start(input, broken, Sink([], room), n), steps);
            var (read, end) := FL.ReadAll(s.sink.output, false);
            && read == Messages(s.sent)
            && end in {Success(()), Invalid("truncated frame header"), Invalid("truncated frame body")}
            && (s.sink.room == None ==> end == Success(()))
  {
    hide Possible, Run, Messages, FL.ReadAll, FL.FrameOf, FL.CanFrame;
    NothingSent();
    var start := Start(input, broken, Sink([], room), n);
    RunKeepsWhole(start, steps);
    var s := Run(start, steps);
    FL.HeldReadsBack(s.sink, Messages(s.sent));
  }

  lemma NothingSent()
    ensures Messages([]) == []
  {
  }

  // ---------------------------------------------------------------- one thread alone

  predicate Matches(s: State, w: Wire, b: Bridge) {
    w.input == s.input && w.broken == s.broken && w.sink == s.sink && w.poison == s.poison && b.next == s.next
  }

  /** The bridge after an allocation. */
  function Allocated(b: Bridge): Bridge {
    b.(next := (b.next + 2) % U64_LIMIT)
  }

  lemma BeginAlone(s: State, w: Wire, b: Bridge, i: nat, body: MessageBody)
    requires Matches(s, w, b) && Enabled(s, Begin(i, body))
    ensures var s' := Apply(s, Begin(i, body));
            && Matches(s', w, Allocated(b)) && |s'.callers| == |s.callers|
            && s'.callers[i] == if b.next == 0 || b.next >= I64_LIMIT
                                then Failing(|s.calls|, InvalidData("callback request ID overflow"))
                                else Holding(|s.calls|, b.next, body)
  {
  }

  lemma WriteAlone(s: State, w: Wire, b: Bridge, i: nat)
    requires Matches(s, w, Allocated(b)) && Enabled(s, Write(i))
    requires s.callers[i].id == b.next && 0 < b.next < I64_LIMIT
    ensures var c := s.callers[i];
            var s' := Apply(s, Write(i));
            var (w', b', r) := SendRequest(w, b, c.body);
            && Matches(s', w', b') && |s'.callers| == |s.callers|
            && s'.callers[i] == match r
                                case Failure(e) => Failing(c.ticket, e)
                                case Success(id) => Awaiting(c.ticket, id)
  {
    hide NewMessage, PutFrame;
  }

  lemma AwaitAlone(s: State, w: Wire, b: Bridge, i: nat)
    requires Matches(s, w, b) && Enabled(s, Read(i))
    ensures var c := s.callers[i];
            var (w', r) := AwaitResponse(w, c.id);
            var s' := Apply(s, Read(i));
            Matches(s', w', b) && |s'.callers| == |s.callers|
            && s'.callers[i] == match r
                                case Failure(e) => Failing(c.ticket, e)
                                case Success(response) => Finished(c.ticket, Granted(response))
  {
    hide ReadFrame;
  }

  lemma ReportAlone(s: State, w: Wire, b: Bridge, i: nat)
    requires Matches(s, w, b) && Enabled(s, Report(i))
    ensures var c := s.callers[i];
            var s' := Apply(s, Report(i));
            Matches(s', Refuse(w, c.error), b) && |s'.callers| == |s.callers|
            && s'.callers[i] == Finished(c.ticket, Denied(ProtocolFault(c.error)))
  {
    hide Reason;
  }

  /** A thread that is not disturbed does in its own steps what the sequential `Call` does. */
  lemma AloneIsSequential(s: State, w: Wire, b: Bridge, i: nat, body: MessageBody) returns (steps: seq<Step>)
    requires Matches(s, w, b) && Enabled(s, Begin(i, body))
    ensures Possible(s, steps) && forall k | 0 <= k < |steps| :: steps[k].caller == i
    ensures var (w', b', r) := Call(w, b, body);
            var s' := Run(s, steps);
            Matches(s', w', b') && i < |s'.callers| && s'.callers[i] == Finished(|s.calls|, r)
  {
    hide Apply, AwaitResponse, Refuse, Matches, NewMessage, PutFrame;
    steps := [Begin(i, body)];
    var s' := Apply(s, steps[0]);
    BeginAlone(s, w, b, i, body);
    RunOne(s, steps[0]);
    if s'.callers[i].Holding? {
      WriteAlone(s', w, b, i);
      RunMore(s, steps, Write(i));
      steps, s' := steps + [Write(i)], Apply(s', Write(i));
    }
    var (w1, b1, sent) := SendRequest(w, b, body);
    if sent.Failure? {
      ReportAlone(s', w1, b1, i);
      RunMore(s, steps, Report(i));
      steps := steps + [Report(i)];
    } else {
      AwaitAlone(s', w1, b1, i);
      RunMore(s, steps, Read(i));
      steps, s' := steps + [Read(i)], Apply(s', Read(i));
      var (w2, answer) := AwaitResponse(w1, sent.value);
      if answer.Failure? {
        ReportAlone(s', w2, b1, i);
        RunMore(s, steps, Report(i));
        steps := steps + [Report(i)];
      }
    }
  }

  lemma RunOne(s: State, step: Step)
    requires Enabled(s, step)
    ensures Possible(s, [step]) && Run(s, [step]) == Apply(s, step)
  {
    hide Apply;
    assert [step][1..] == [];
  }

  lemma {:induction false} RunMore(s: State, steps: seq<Step>, step: Step)
    requires Possible(s, steps) && Enabled(Run(s, steps), step)
    ensures Possible(s, steps + [step]) && Run(s, steps + [step]) == Apply(Run(s, steps), step)
    decreases |steps|
  {
    hide Apply, Enabled;
    if steps == [] {
      RunOne(s, step);
      assert steps + [step] == [step];
    } else {
      RunMore(Apply(s, steps[0]), steps[1..], step);
      assert (steps + [step])[1..] == steps[1..] + [step];
    }
  }
}
