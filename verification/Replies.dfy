/**
 Which commands are answered. A reply that cannot be framed ends the run instead, and so does a
 store that an earlier call poisoned.
 */
module Replies {
  import opened Bytes
  import BV = BridgeValue
  import D = Decoding
  import opened Protocol
  import opened Frames
  import FL = FrameLaws
  import PL = ProtocolLaws
  import opened Host
  import opened Discipline

  // ---------------------------------------------------------------- replies that can be framed

  /** Where the dash of a code is. */
  function Dash(code: HostCode): nat {
    match code
    case WitMismatch => 3
    case FuelExhausted => 4
    case PathEscape => 4
    case GuestFailure => 5
    case DeadlineExceeded => 8
    case ResourceLimit => 8
    case _ => 7
  }

  /** Lower-case letters with one dash among them. */
  predicate TwoWords(s: string, dash: nat) {
    && 0 < dash < |s| - 1 <= 127
    && forall i | 0 <= i < |s| :: if i == dash then s[i] == '-' else 'a' <= s[i] <= 'z'
  }

  lemma StateCodes(code: HostCode)
    requires code.InvalidState? || code.WitMismatch? || code.GuestFailure? || code.PathEscape?
    ensures TwoWords(CodeLiteral(code), Dash(code))
  {
  }

  lemma FatalCodes(code: HostCode)
    requires Fatal(code)
    ensures TwoWords(CodeLiteral(code), Dash(code))
  {
  }

  lemma InvalidCodes(code: HostCode)
    requires code.InvalidValue? || code.InvalidDescriptor? || code.InvalidComponent?
    ensures TwoWords(CodeLiteral(code), Dash(code))
  {
  }

  lemma TwoWordsAreKebab(s: string, dash: nat)
    requires TwoWords(s, dash)
    ensures ValidCode(Ascii(s)) && BV.Lower(Ascii(s)[0])
  {
  }

  lemma CodeIsValid(code: HostCode)
    ensures ValidCode(Ascii(CodeLiteral(code))) && BV.Lower(Ascii(CodeLiteral(code))[0])
    ensures |CodeLiteral(code)| > 0
  {
    hide Ascii, ValidCode, CodeLiteral;
    if Fatal(code) {
      FatalCodes(code);
    } else if code.InvalidValue? || code.InvalidDescriptor? || code.InvalidComponent? {
      InvalidCodes(code);
    } else {
      StateCodes(code);
    }
    TwoWordsAreKebab(CodeLiteral(code), Dash(code));
  }

  lemma StartsWithLetterIsNotBlank(t: seq<byte>)
    requires t != [] && BV.Lower(t[0])
    ensures !Blank(t)
  {
  }

  /** An error reply is valid exactly when code, separator and message fit in 4096 bytes. */
  lemma ErrorBodyValid(error: HostError)
    ensures Validate(ErrorBody(error)).Success? <==>
            |CodeLiteral(error.code)| + 2 + |error.message| <= MAX_ERROR_MESSAGE_BYTES
  {
    hide Blank, ValidCode, Ascii;
    CodeIsValid(error.code);
    var code := Ascii(CodeLiteral(error.code));
    StartsWithLetterIsNotBlank(Labelled(code, error.message));
  }

  /** The streams after `m` was written and recorded. */
  function Written(w: Wire, m: Message): Wire
    requires FL.CanFrame(m)
  {
    w.(sink := Sink(w.sink.output + FL.FrameOf(m), None)).Log(Sent(m))
  }

  /** What the server can put into a reply frame. */
  predicate Deliverable(body: MessageBody) {
    match body
    case OkReply => true
    case ResultReply(output) => |output| <= MAX_FRAME_BYTES - 127
    case ErrorReply(_, _) => Validate(body).Success?
    case _ => false
  }

  lemma ReplyIsMade(id: u64, body: MessageBody)
    requires id % 2 == 1 && id < I64_LIMIT && IsReply(body)
    ensures NewMessage(id, body).Success? <==> Validate(body).Success?
  {
    hide Validate, Utf8, Blank;
    assert !UsesEvenId(body);
    if Validate(body).Success? {
      assert NewMessage(id, body).Success?;
    } else {
      assert NewMessage(id, body).Failure?;
    }
  }

  lemma PutWorks(sink: Sink, m: Message)
    requires sink.room == None && WellFormed(m)
    ensures PutFrame(sink, m).1.Success? <==> FL.CanFrame(m)
    ensures PutFrame(sink, m).0 == if FL.CanFrame(m) then Sink(sink.output + FL.FrameOf(m), None) else sink
  {
    hide NewMessage, Frame;
  }

  /** With a writer that works, a reply is written exactly when it is deliverable, as one frame
      after what was written before. Otherwise nothing is written. */
  lemma ReplyExact(w: Wire, id: u64, body: MessageBody)
    requires w.sink.room == None && id % 2 == 1 && id < I64_LIMIT && IsReply(body)
    ensures var (after, r) := Reply(w, id, body);
            && (r.Success? <==> Deliverable(body))
            && (if Deliverable(body) then
                  var m := Message(id, body);
                  FL.CanFrame(m) && after == Written(w, m)
                else after == w)
  {
    hide Validate, NewMessage, PutFrame, Frame, FL.FrameOf;
    ReplyIsMade(id, body);
    PlainReplyValid(body);
    var made := NewMessage(id, body);
    if made.Success? {
      ReplyFrames(made.value);
      PutWorks(w.sink, made.value);
    }
  }

  lemma PlainReplyValid(body: MessageBody)
    ensures body.OkReply? || body.ResultReply? ==> Validate(body).Success?
  {
  }

  lemma ReplyFrames(m: Message)
    requires WellFormed(m) && IsReply(m.body)
    ensures Frame(m).Success? <==> Deliverable(m.body)
  {
    hide Frame, Validate;
    FL.FrameExact(m);
    FL.BodyIsValid(m);
    FL.ValidTexts(m.body);
  }

  lemma ResultContent(m: Message)
    requires WellFormed(m) && m.body.ResultReply?
    ensures BV.Content(CanonicalValue(m)) == 47 + |m.body.output|
  {
    hide BV.EntriesContent, BV.EntriesNodes, BV.EntriesHeight, BV.WireEntries, BV.WireEntry, BV.Nodes, BV.Height,
         Validate, Ascii;
    var f := Fields(m.body);
    var e := Envelope(m.requestId, KindText(ResultKind), f);
    NoContent();
    assert e[..0] == [] && e[..4] == e && f[..0] == [] && f[..1] == f;
    BV.EntriesStep(f, 0);
    BV.EntriesStep(e, 0);
    BV.EntriesStep(e, 1);
    BV.EntriesStep(e, 2);
    BV.EntriesStep(e, 3);
    PL.MapSize(f);
    PL.MapSize(e);
  }

  lemma NoContent()
    ensures BV.EntriesContent([]) == 0
  {
  }

  /** Why a reply is not written: an error is no valid message, a result has too much content for a value
      or is too long for a frame. */
  function Undelivered(body: MessageBody): string {
    if !body.ResultReply? then "invalid process response"
    else if |body.output| > 16 * 1024 * 1024 - 47 then "message cannot be encoded as Bridge Value v1"
    else "frame length is outside bounds"
  }

  lemma UndeliveredExact(w: Wire, id: u64, body: MessageBody)
    requires w.sink.room == None && id % 2 == 1 && id < I64_LIMIT && IsReply(body) && !Deliverable(body)
    ensures Reply(w, id, body) == (w, Invalid(Undelivered(body)))
  {
    hide Validate, NewMessage, PutFrame, Frame, FL.FrameOf;
    ReplyIsMade(id, body);
    PlainReplyValid(body);
    if body.ResultReply? {
      var m := NewMessage(id, body).value;
      ResultIsTooLong(m);
      PutFails(w.sink, m);
    }
  }

  lemma PutFails(sink: Sink, m: Message)
    requires WellFormed(m) && Frame(m).Failure?
    ensures PutFrame(sink, m) == (sink, Failure(Frame(m).error))
  {
    hide Frame, NewMessage;
  }

  lemma ResultIsTooLong(m: Message)
    requires WellFormed(m) && m.body.ResultReply? && |m.body.output| > MAX_FRAME_BYTES - 127
    ensures Frame(m) == Invalid(Undelivered(m.body))
  {
    hide NewMessage, CanonicalValue, BV.Sound, BV.Wire, BV.Content, BV.Nodes, BV.Height, PL.EncodedLength;
    ResultContent(m);
    PL.EncodedLengthExact(m);
    ResultLength(m);
    FL.EnvelopeIsSmall(m);
    FL.BodyIsValid(m);
    if |m.body.output| <= MAX_FRAME_BYTES - 47 {
      OutputIsSound(m.body);
      FL.EnvelopeSoundness(m);
    }
  }

  lemma OutputIsSound(body: MessageBody)
    requires Validate(body).Success? && body.ResultReply? && |body.output| <= BV.MAX_BYTE_BYTES
    ensures BV.Sound(BV.Map(Fields(body)))
  {
    hide Validate;
    assert |Ascii("output")| == 6;
  }

  lemma ResultLength(m: Message)
    requires m.body.ResultReply?
    ensures PL.EncodedLength(m.body) == 127 + |m.body.output|
  {
  }

  // ---------------------------------------------------------------- turns

  /** Whether the engine's answer to a command can be passed on. */
  predicate Answerable(body: MessageBody, r: HostResult<seq<byte>>) {
    match r
    case Fine(output) => body.Invoke? ==> |output| <= MAX_FRAME_BYTES - 127
    case Fault(error) =>
      !Fatal(error.code) && |CodeLiteral(error.code)| + 2 + |error.message| <= MAX_ERROR_MESSAGE_BYTES
  }

  /** The reply that answers a command. */
  function AnswerTo(body: MessageBody, r: HostResult<seq<byte>>): MessageBody {
    match r
    case Fine(output) => if body.Invoke? then ResultReply(output) else OkReply
    case Fault(error) => ErrorBody(error)
  }

  /** Exactly when a command is answered, and with what: its export call must not have poisoned the
      cell, the failure must not be fatal, and the reply must fit. Every other command ends the run, with
      the poison reason if there is one and else with the fatal code if there is one, and nothing is
      written for it beyond its own callbacks. */
  lemma TurnExact(env: Env, wd: World, m: Message)
    requires wd.wire.sink.room == None && m.requestId % 2 == 1 && m.requestId < I64_LIMIT
    ensures var (after, going) := Turn(env, wd, m);
            if IsCommand(m.body) then
              var (done, r) := Dispatch(env, wd, m.body);
              && (going.Success? <==> done.wire.poison == None && Answerable(m.body, r))
              && (if going.Success? then
                    var answer := Message(m.requestId, AnswerTo(m.body, r));
                    && FL.CanFrame(answer)
                    && after == done.(wire := Written(done.wire, answer))
                    && (going.value <==> !(m.body.Shutdown? && r.Fine?))
                  else
                    && after == done
                    && (done.wire.poison.Some? ==> going == Invalid(done.wire.poison.value))
                    && (done.wire.poison == None && r.Fault? && Fatal(r.error.code) ==>
                          going == Invalid(CodeLiteral(r.error.code))))
            else
              && after == wd
              && going == (if wd.wire.poison.Some? then Invalid(wd.wire.poison.value)
                           else Invalid("child-only message arrived as a parent command"))
  {
    hide Dispatch, Reply, Validate, Frame, ErrorBody, Ascii, Fatal;
    if IsCommand(m.body) {
      DispatchFollows(env, wd, m.body);
      var (done, r) := Dispatch(env, wd, m.body);
      if r.Fault? {
        ErrorBodyValid(r.error);
      }
      AnswerIsReply(m.body, r);
      ReplyExact(done.wire, m.requestId, AnswerTo(m.body, r));
    }
  }

  lemma AnswerIsReply(body: MessageBody, r: HostResult<seq<byte>>)
    ensures IsReply(AnswerTo(body, r))
    ensures r.Fault? ==> AnswerTo(body, r).ErrorReply?
  {
    hide Ascii, Labelled;
  }

  // ---------------------------------------------------------------- poisoned stores

  const POISONED := Ascii("runtime-failure: store is poisoned")

  /** Two neighbouring characters of `needle` that are nowhere neighbours in `t`. */
  predicate Apart(t: seq<byte>, needle: seq<byte>, j: nat) {
    && j + 1 < |needle|
    && forall i | 0 <= i < |t| - 1 :: t[i] == needle[j] ==> t[i + 1] != needle[j + 1]
  }

  lemma NotContained(t: seq<byte>, needle: string, j: nat)
    requires Apart(t, Ascii(needle), j)
    ensures !Contains(t, needle)
  {
    hide Ascii;
    var n := Ascii(needle);
    forall i | 0 <= i <= |t| ensures !At(t, i, n) {
      assert i + |n| <= |t| ==> t[i..i + |n|][j] == t[i + j] && t[i..i + |n|][j + 1] == t[i + j + 1];
    }
  }

  /** Where rare letters of the text are, and what is next to them. */
  predicate Consonants(t: seq<byte>) {
    forall i | 0 <= i < |t| ::
      (t[i] == 'f' as int ==> i == 8) && (t[i] == 'l' as int ==> i == 11) && (t[i] == 'm' as int ==> i == 5)
  }

  predicate MoreConsonants(t: seq<byte>) {
    forall i | 0 <= i < |t| ::
      (t[i] == 'd' as int ==> i == 33) && (t[i] == 'p' as int ==> i == 26) && t[i] != 'v' as int
  }

  predicate Neighbours(t: seq<byte>) {
    |t| == 34 && t[4] == 'i' as int && t[9] == 'a' as int && t[12] == 'u' as int && t[25] == ' ' as int
  }

  lemma PoisonedConsonants()
    ensures Consonants(POISONED) && Neighbours(POISONED)
  {
  }

  lemma PoisonedMoreConsonants()
    ensures MoreConsonants(POISONED)
  {
  }

  lemma ConsonantsApart(t: seq<byte>)
    requires Consonants(t) && MoreConsonants(t) && Neighbours(t)
    ensures Apart(t, Ascii("fuel"), 0) && Apart(t, Ascii("epoch"), 0) && Apart(t, Ascii("deadline"), 0)
    ensures Apart(t, Ascii("limit"), 0) && Apart(t, Ascii("memory"), 1) && Apart(t, Ascii("invalid-value"), 1)
  {
  }

  lemma PoisonedIsFatal()
    ensures RuntimeError(POISONED).code == RuntimeFailure
  {
    hide Contains, Ascii, Apart;
    PoisonedConsonants();
    PoisonedMoreConsonants();
    ConsonantsApart(POISONED);
    NotContained(POISONED, "fuel", 0);
    NotContained(POISONED, "epoch", 0);
    NotContained(POISONED, "deadline", 0);
    NotContained(POISONED, "limit", 0);
    NotContained(POISONED, "memory", 1);
    NotContained(POISONED, "invalid-value", 1);
  }

  lemma InvalidValueApart()
    ensures var t := Ascii("invalid-value");
            && Apart(t, Ascii("fuel"), 0) && Apart(t, Ascii("epoch"), 1) && Apart(t, Ascii("deadline"), 0)
            && Apart(t, Ascii("limit"), 2) && Apart(t, Ascii("memory"), 0)
  {
  }

  lemma InvalidValueIsRecoverable()
    ensures RuntimeError(Ascii("invalid-value")) == HostError(InvalidValue, Ascii("invalid-value"))
  {
    hide Ascii, Apart;
    var t := Ascii("invalid-value");
    InvalidValueApart();
    NotContained(t, "fuel", 0);
    NotContained(t, "epoch", 1);
    NotContained(t, "deadline", 0);
    NotContained(t, "limit", 2);
    NotContained(t, "memory", 0);
    assert At(t, 0, t);
  }

  /** A command that would enter a poisoned store ends the run, unanswered, and its guest never
      runs: neither streams nor log change. */
  lemma PoisonedStoreEnds(env: Env, wd: World, m: Message)
    requires wd.wire.poison == None && m.requestId % 2 == 1 && IsCommand(m.body)
    requires var call := CallOf(env, wd, m.body); call.Some? && call.value.1.poisoned
    ensures var (after, r) := Turn(env, wd, m);
            r == Invalid("runtime-failure") && after.wire == wd.wire && after.state == wd.state
  {
    hide Dispatch, RuntimeError, Labelled, D.FromWire, RunOps, Reply;
    DispatchOutcome(env, wd, m.body);
    PoisonedIsFatal();
  }

  lemma MalformedInvokeRefused(env: Env, wd: World, body: MessageBody)
    requires body.Invoke? && wd.state == Enabled && wd.plugin.Some? && D.FromWire(body.input).Err?
    ensures Dispatch(env, wd, body) == (wd, Fault(HostError(InvalidValue, Ascii("invalid-value"))))
  {
    hide RuntimeError, D.FromWire, Ascii;
    InvalidValueIsRecoverable();
  }

  /** Input that does not decode is refused before the store is looked at, poisoned or not, and the
      run goes on. */
  lemma MalformedInvokeAnswered(env: Env, wd: World, m: Message)
    requires wd.wire.poison == None && wd.wire.sink.room == None && m.requestId % 2 == 1 && m.requestId < I64_LIMIT
    requires m.body.Invoke? && wd.state == Enabled && wd.plugin.Some? && D.FromWire(m.body.input).Err?
    ensures var (after, r) := Turn(env, wd, m);
            var answer := Message(m.requestId, ErrorBody(HostError(InvalidValue, Ascii("invalid-value"))));
            && r == Success(true) && FL.CanFrame(answer)
            && after == wd.(wire := Written(wd.wire, answer))
  {
    hide Dispatch, D.FromWire, Turn, Ascii, ErrorBody, FL.CanFrame, FL.FrameOf;
    MalformedInvokeRefused(env, wd, m.body);
    var error := HostError(InvalidValue, Ascii("invalid-value"));
    TurnExact(env, wd, m);
    assert Answerable(m.body, Fault(error));
  }
}
