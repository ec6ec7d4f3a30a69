/**
 What the wire discipline means for a log, read without the automaton: who may speak when, and
 which ID each frame bears.
 */
module Traces {
  import opened Bytes
  import opened Protocol
  import opened Frames
  import FL = FrameLaws
  import opened Host
  import opened Discipline

  // ---------------------------------------------------------------- reading a log

  /** An export call was entered and not left yet. */
  predicate Inside(log: seq<Event>) {
    if log == [] then false
    else
      var last := log[|log| - 1];
      last.Entered? || (!last.Left? && Inside(log[..|log| - 1]))
  }

  predicate Ended(log: seq<Event>) {
    log != [] && (log[|log| - 1].EndOfStream? || Ended(log[..|log| - 1]))
  }

  /** The command that was read and not answered yet. */
  function Pending(log: seq<Event>): Option<u64> {
    if log == [] then None
    else
      var before := log[..|log| - 1];
      var last := log[|log| - 1];
      if last.Received? && !Inside(before) then Some(last.m.requestId)
      else if last.Sent? && IsReply(last.m.body) then None
      else Pending(before)
  }

  /** Callbacks sent since the last load attempt began. */
  function Callbacks(log: seq<Event>): nat {
    if log == [] || log[|log| - 1].Instantiated? then 0
    else
      var last := log[|log| - 1];
      Callbacks(log[..|log| - 1]) + if last.Sent? && IsRequest(last.m.body) then 1 else 0
  }

  /** A callback was sent and nothing was read since. */
  predicate Awaits(log: seq<Event>) {
    if log == [] || log[|log| - 1].Received? then false
    else
      var last := log[|log| - 1];
      (last.Sent? && IsRequest(last.m.body)) || Awaits(log[..|log| - 1])
  }

  /** The ID of the last callback sent since the last load attempt began, or 0. */
  function Highest(log: seq<Event>): nat {
    if log == [] || log[|log| - 1].Instantiated? then 0
    else
      var last := log[|log| - 1];
      if last.Sent? && IsRequest(last.m.body) then last.m.requestId else Highest(log[..|log| - 1])
  }

  /** Callbacks sent and failures reported since then. */
  function Tried(log: seq<Event>): nat {
    if log == [] || log[|log| - 1].Instantiated? then 0
    else
      var last := log[|log| - 1];
      Tried(log[..|log| - 1]) + if last.Refused? || (last.Sent? && IsRequest(last.m.body)) then 1 else 0
  }

  function SentMessages(log: seq<Event>): seq<Message> {
    if log == [] then []
    else
      var last := log[|log| - 1];
      SentMessages(log[..|log| - 1]) + if last.Sent? && FL.CanFrame(last.m) then [last.m] else []
  }

  // ---------------------------------------------------------------- the automaton knows these

  predicate Unspoilt(log: seq<Event>) {
    FirstRefusal(log) == None && !Ended(log)
  }

  predicate Regular(log: seq<Event>) {
    Unspoilt(log) && Observe(log).next == 2 + 2 * Callbacks(log)
  }

  predicate Known(log: seq<Event>) {
    var t := Observe(log);
    && (t.phase != Violated ==> t.tries == Tried(log) && t.next == Highest(log) + 2)
    && match t.phase
       case Idle => !Inside(log) && Regular(log) && !Awaits(log) && Pending(log) == None
       case Handling(id, _) =>
         !Inside(log) && Regular(log) && !Awaits(log) && id % 2 == 1 && Pending(log) == Some(id)
       case Running(id) => Inside(log) && Regular(log) && !Awaits(log) && id % 2 == 1 && Pending(log) == Some(id)
       case Waiting(id, callback) =>
         && Inside(log) && Regular(log) && id % 2 == 1 && Pending(log) == Some(id)
         && log != [] && IsCallback(log[|log| - 1], callback)
       case Crossed(_) => Inside(log) && Unspoilt(log)
       case Poisoned(inside) => Inside(log) == inside && FirstRefusal(log).Some? && !Ended(log)
       case Closing(inside) => Inside(log) == inside && Ended(log)
       case Rejected => !Inside(log) && Unspoilt(log)
       case Violated => true
  }

  predicate IsCallback(e: Event, id: u64) {
    e.Sent? && IsRequest(e.m.body) && e.m.requestId == id
  }

  lemma KnownNext(log: seq<Event>, e: Event)
    requires Known(log)
    ensures Known(log + [e])
  {
    hide Observe;
    assert (log + [e])[..|log|] == log;
    ObserveNext(log, e);
  }

  lemma EmptyKnown()
    ensures Known([])
  {
  }

  lemma {:induction false} AllKnown(log: seq<Event>)
    ensures Known(log)
    decreases |log|
  {
    hide Known, Observe;
    if log == [] {
      EmptyKnown();
    } else {
      AllKnown(log[..|log| - 1]);
      KnownNext(log[..|log| - 1], log[|log| - 1]);
      assert log[..|log| - 1] + [log[|log| - 1]] == log;
    }
  }

  // ---------------------------------------------------------------- who may speak when

  /** What the event at `k` says about everything before it.
      - A command is read only when the last one was answered, no callback ever failed and no
        export runs; inside an export only the response to the callback just sent is read, and a
        response with another ID is refused at once.
      - A reply bears the ID of the one unanswered command; a callback is sent only inside an
        export, and the IDs of one load attempt are 2, 4, 6, …
      - No callback is sent, no export left and no command answered while a callback is open.
      - Once one was refused, or the input ended, IDs stay even and rising, as long as the load attempt
        has not tried so often that they may wrap around. */
  predicate Proper(log: seq<Event>, k: nat)
    requires k < |log|
  {
    var before := log[..k];
    match log[k]
    case Received(m) =>
      && !Ended(before)
      && (if Inside(before) then FirstRefusal(before) == None ==> Answers(log, k, m)
          else FirstRefusal(before) == None && Pending(before) == None && (m.requestId % 2 == 0 ==> k + 1 == |log|))
    case Sent(m) =>
      if IsReply(m.body) then
        && !Inside(before) && Unspoilt(before) && !Awaits(before)
        && Pending(before) == Some(m.requestId) && m.requestId % 2 == 1
      else
        && IsRequest(m.body) && Inside(before) && m.requestId % 2 == 0
        && (Tried(before) <= MANY ==> Highest(before) < m.requestId)
        && (Unspoilt(before) ==> !Awaits(before) && m.requestId == 2 + 2 * Callbacks(before))
    case Instantiated => !Inside(before) && Unspoilt(before) && Pending(before).Some?
    case Entered(_) =>
      !Inside(before) && (Ended(before) || (FirstRefusal(before) == None && Pending(before).Some?))
    case Left(_, _) => Inside(before) && (Unspoilt(before) ==> !Awaits(before))
    case Refused(_) => Inside(before)
    case EndOfStream => !Inside(before) && Unspoilt(before) && Pending(before) == None
  }

  /** The frame at `k` is the response due, or the run refuses it. */
  predicate Answers(log: seq<Event>, k: nat, m: Message)
    requires k < |log|
  {
    && k > 0 && log[k - 1].Sent? && IsRequest(log[k - 1].m.body)
    && (m.requestId == log[k - 1].m.requestId || (k + 1 < |log| && log[k + 1].Refused?))
  }

  lemma {:induction false} PrefixClean(log: seq<Event>, k: nat)
    requires k <= |log| && Observe(log).phase != Violated
    ensures Observe(log[..k]).phase != Violated
    decreases |log|
  {
    if k == |log| {
      assert log[..k] == log;
    } else {
      var before := log[..|log| - 1];
      assert log[..k] == before[..k];
      PrefixClean(before, k);
    }
  }

  lemma ObserveAt(log: seq<Event>, k: nat)
    requires k < |log|
    ensures Observe(log[..k + 1]) == Step(Observe(log[..k]), log[k])
  {
    hide Step;
    ObserveNext(log[..k], log[k]);
    assert log[..k] + [log[k]] == log[..k + 1];
  }

  lemma EventIsProper(log: seq<Event>, k: nat)
    requires k < |log| && Observe(log).phase != Violated && !Observe(log).phase.Crossed?
    ensures Proper(log, k)
  {
    hide Observe, Inside, Ended, Pending, Callbacks, Awaits, Highest, Tried, FirstRefusal;
    PrefixClean(log, k);
    PrefixClean(log, k + 1);
    AllKnown(log[..k]);
    ObserveAt(log, k);
    assert log[..|log|] == log;
    if k + 1 < |log| {
      PrefixClean(log, k + 2);
      ObserveAt(log, k + 1);
    }
  }

  // ---------------------------------------------------------------- every run

  lemma {:induction false} SentBytesAreFrames(log: seq<Event>)
    ensures FL.Framable(SentMessages(log)) && SentBytes(log) == FL.FrameAll(SentMessages(log))
    decreases |log|
  {
    hide FL.CanFrame, FL.FrameOf, FL.FrameAll;
    if log == [] {
      NoFrames();
    } else {
      SentBytesAreFrames(log[..|log| - 1]);
      var last := log[|log| - 1];
      assert SentMessages(log[..|log| - 1]) + [] == SentMessages(log[..|log| - 1]);
      if last.Sent? && FL.CanFrame(last.m) {
        FL.FrameOneMore(SentMessages(log[..|log| - 1]), last.m);
      }
    }
  }

  lemma NoFrames()
    ensures FL.FrameAll([]) == []
  {
  }

  /** The trace discipline of every run: any guest, any peer, any package, any writer. */
  lemma RunsAreDisciplined(env: Env, input: seq<byte>, broken: bool, room: Option<nat>)
    ensures var (after, r) := Serve(env, Initial(input, broken, room));
            var log := after.wire.log;
            && !Inside(log)
            && forall k | 0 <= k < |log| :: Proper(log, k)
  {
    hide Serve, Observe, Proper, FirstRefusal, SentBytes, Inside, Ended, Pending, Callbacks, Awaits, Highest, Tried;
    RunsAreOrderly(env, input, broken, room);
    var log := Serve(env, Initial(input, broken, room)).0.wire.log;
    AllKnown(log);
    forall k | 0 <= k < |log| ensures Proper(log, k) {
      EventIsProper(log, k);
    }
  }

  /** The cell keeps the first reason ever reported, and a run in which one was reported before the
      end of input ends with exactly that reason. After the end of input it is ignored. */
  lemma PoisonDominates(env: Env, input: seq<byte>, broken: bool, room: Option<nat>)
    ensures var (after, r) := Serve(env, Initial(input, broken, room));
            var log := after.wire.log;
            && after.wire.poison == FirstRefusal(log)
            && (Ended(log) ==> r == Success(()))
            && (!Ended(log) && FirstRefusal(log).Some? ==> r == Invalid(FirstRefusal(log).value))
  {
    hide Serve, Observe, FirstRefusal, SentBytes, Inside, Ended, Pending, Callbacks, Awaits, Highest, Tried;
    RunsAreOrderly(env, input, broken, room);
    AllKnown(Serve(env, Initial(input, broken, room)).0.wire.log);
  }

  /** Whoever reads the output of a run gets exactly the messages that were sent, and then a clean end,
      or, if the writer failed inside a frame, a truncation. */
  lemma OutputReadsBack(env: Env, input: seq<byte>, broken: bool, room: Option<nat>)
    ensures var after := Serve(env, Initial(input, broken, room)).0;
            var (read, end) := FL.ReadAll(after.wire.sink.output, false);
            && read == SentMessages(after.wire.log)
            && end in {Success(()), Invalid("truncated frame header"), Invalid("truncated frame body")}
            && (room == None ==> end == Success(()))
  {
    hide Serve, Observe, FirstRefusal, SentBytes, SentMessages, FL.CanFrame, FL.FrameOf, FL.FrameAll, FL.ReadAll;
    RunsAreOrderly(env, input, broken, room);
    ServeFollows(env, Initial(input, broken, room));
    var after := Serve(env, Initial(input, broken, room)).0;
    SentBytesAreFrames(after.wire.log);
    FL.HeldReadsBack(after.wire.sink, SentMessages(after.wire.log));
  }
}
