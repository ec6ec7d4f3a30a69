/**
 Framed streams read back as they were written, and never as anything else: a stream cut short
 yields a prefix of its messages. Also which messages can be framed at all.
 */
module FrameLaws {
  import opened Bytes
  import BV = BridgeValue
  import opened Protocol
  import PL = ProtocolLaws
  import opened Frames

  /** A frame in front of anything is read as its message, leaving exactly the rest. */
  lemma ReadFramed(m: Message, rest: seq<byte>, broken: bool)
    requires CanFrame(m)
    ensures ReadFrame(FrameOf(m) + rest, broken) == Reading(Success(Some(m)), rest)
  {
    hide ToWire, FromWire, NewMessage, BigEndian, FromBigEndian;
    var body := ToWire(m).value;
    var input := FrameOf(m) + rest;
    FixedPowers();
    BigEndianRoundTrip(|body|, 4);
    PL.EncodeThenDecode(m);
    assert input[..4] == BigEndian(|body|, 4);
    assert input[4..4 + |body|] == body;
    assert input[4 + |body|..] == rest;
  }

  /** A frame cut anywhere is a truncation (or the stream's own failure), never a message;
      only nothing at all is a clean end. */
  lemma ReadCut(m: Message, n: nat, broken: bool)
    requires CanFrame(m) && n < |FrameOf(m)|
    ensures ReadFrame(FrameOf(m)[..n], broken) ==
            Reading(if n == 0 then (if broken then Failure(Io) else Success(None))
                    else EndOfInput(broken, if n < 4 then "truncated frame header" else "truncated frame body"), [])
  {
    hide ToWire, FromWire, NewMessage, BigEndian, FromBigEndian;
    var body := ToWire(m).value;
    var input := FrameOf(m)[..n];
    FixedPowers();
    BigEndianRoundTrip(|body|, 4);
    if n >= 4 {
      assert input[..4] == BigEndian(|body|, 4);
    }
  }

  /** A header within bounds and as many bytes: they are consumed, whatever they hold, and read as one
      message or refused as no message. */
  lemma ReadPayload(input: seq<byte>, n: nat, broken: bool)
    requires 1 <= n <= 16 * 1024 * 1024 && 4 + n <= |input| && input[..4] == BigEndian(n, 4)
    ensures ReadFrame(input, broken) ==
            match FromWire(input[4..4 + n])
            case Success(m) => Reading(Success(Some(m)), input[4 + n..])
            case Failure(error) => Reading(Failure(error), input[4 + n..])
  {
    hide FromWire, BigEndian, FromBigEndian, NewMessage, Power256;
    FixedPowers();
    BigEndianRoundTrip(n, 4);
  }

  /** Every message read is a frame's worth of bytes long, and could be written again. */
  lemma ReadIsWritable(input: seq<byte>, broken: bool)
    requires ReadFrame(input, broken).outcome.Success? && ReadFrame(input, broken).outcome.value.Some?
    ensures var m := ReadFrame(input, broken).outcome.value.value;
            CanFrame(m) && |FrameOf(m)| == |input| - |ReadFrame(input, broken).rest|
  {
    hide ToWire, FromWire, NewMessage, BigEndian, FromBigEndian;
    var length := FromBigEndian(input[..4]);
    PL.DecodeThenEncode(input[4..4 + length]);
  }

  // ---------------------------------------------------------------- whole streams

  predicate CanFrame(m: Message) {
    WellFormed(m) && Frame(m).Success?
  }

  /** The frame of a message that has one. */
  function FrameOf(m: Message): seq<byte>
    requires CanFrame(m)
  {
    Frame(m).value
  }

  predicate Framable(ms: seq<Message>) {
    forall i | 0 <= i < |ms| :: CanFrame(ms[i])
  }

  /** What writing the messages one after another produces. */
  function FrameAll(ms: seq<Message>): seq<byte>
    requires Framable(ms)
  {
    if ms == [] then [] else FrameOf(ms[0]) + FrameAll(ms[1..])
  }

  lemma {:induction false} FrameOneMore(ms: seq<Message>, m: Message)
    requires Framable(ms) && CanFrame(m)
    ensures Framable(ms + [m]) && FrameAll(ms + [m]) == FrameAll(ms) + FrameOf(m)
    decreases |ms|
  {
    hide CanFrame, FrameOf;
    if ms == [] {
      assert ms + [m] == [m] && [m][1..] == [];
    } else {
      FrameOneMore(ms[1..], m);
      assert (ms + [m])[1..] == ms[1..] + [m];
      assert (ms + [m])[0] == ms[0];
      assert FrameOf(ms[0]) + (FrameAll(ms[1..]) + FrameOf(m)) == FrameOf(ms[0]) + FrameAll(ms[1..]) + FrameOf(m);
    }
  }

  /** Reads frames until the end or the first error. */
  function ReadAll(input: seq<byte>, broken: bool): (seq<Message>, Outcome<()>)
    decreases |input|
  {
    var r := ReadFrame(input, broken);
    match r.outcome
    case Failure(error) => ([], Failure(error))
    case Success(None) => ([], Success(()))
    case Success(Some(m)) =>
      var (ms, end) := ReadAll(r.rest, broken);
      ([m] + ms, end)
  }

  lemma FrameIsLong(m: Message)
    requires CanFrame(m)
    ensures |FrameOf(m)| > 4
  {
    hide ToWire, NewMessage;
  }

  lemma FrameAllStep(ms: seq<Message>, k: nat)
    requires Framable(ms) && 1 <= k <= |ms|
    ensures |FrameAll(ms[..k])| == |FrameOf(ms[0])| + |FrameAll(ms[1..][..k - 1])|
  {
    hide CanFrame, FrameOf;
    assert ms[..k][0] == ms[0] && ms[..k][1..] == ms[1..][..k - 1];
  }

  /** `n` bytes of the written stream hold the first `k` frames and not one more. */
  predicate HoldsFrames(ms: seq<Message>, n: nat, k: nat)
    requires Framable(ms)
  {
    k <= |ms| && |FrameAll(ms[..k])| <= n && (k < |ms| ==> n < |FrameAll(ms[..k + 1])|)
  }

  lemma HoldsOneMore(ms: seq<Message>, n: nat, j: nat)
    requires Framable(ms) && ms != [] && |FrameOf(ms[0])| <= n && HoldsFrames(ms[1..], n - |FrameOf(ms[0])|, j)
    ensures HoldsFrames(ms, n, j + 1) && ms[..j + 1] == [ms[0]] + ms[1..][..j]
    ensures |FrameAll(ms[..j + 1])| == |FrameOf(ms[0])| + |FrameAll(ms[1..][..j])|
  {
    hide CanFrame, FrameOf, FrameAll;
    FrameAllStep(ms, j + 1);
    if j + 1 < |ms| {
      FrameAllStep(ms, j + 2);
    }
  }

  predicate Truncated(end: Outcome<()>) {
    end == Invalid("truncated frame header") || end == Invalid("truncated frame body")
  }

  /** What reading `n` bytes of the stream gives when they hold `k` frames. */
  predicate ReadsFrames(ms: seq<Message>, input: seq<byte>, k: nat)
    requires Framable(ms) && k <= |ms|
  {
    var (read, end) := ReadAll(input, false);
    read == ms[..k] && (if |input| == |FrameAll(ms[..k])| then end == Success(()) else Truncated(end))
  }

  lemma CutInFirst(ms: seq<Message>, n: nat)
    requires Framable(ms) && ms != [] && n < |FrameOf(ms[0])|
    ensures HoldsFrames(ms, n, 0) && n <= |FrameAll(ms)| && ReadsFrames(ms, FrameAll(ms)[..n], 0)
  {
    hide CanFrame, FrameOf, ReadFrame;
    FrameAllStep(ms, 1);
    assert FrameAll(ms)[..n] == FrameOf(ms[0])[..n];
    ReadCut(ms[0], n, false);
    if n == 0 {
      EmptyInput();
    }
  }

  lemma PastFirst(ms: seq<Message>, input: seq<byte>, rest: seq<byte>, j: nat)
    requires Framable(ms) && ms != [] && j < |ms| && input == FrameOf(ms[0]) + rest
    requires ReadsFrames(ms[1..], rest, j)
    ensures ReadsFrames(ms, input, j + 1)
  {
    hide CanFrame, FrameOf, ReadFrame, FrameAll;
    ReadFramed(ms[0], rest, false);
    FrameAllStep(ms, j + 1);
    assert ms[..j + 1] == [ms[0]] + ms[1..][..j];
  }

  /** Reading the first `n` bytes of a written stream gives exactly the messages whose frames lie
      wholly within them. The end is clean exactly at a frame boundary; anywhere else it is a
      truncation. */
  lemma {:induction false} ReadPrefix(ms: seq<Message>, n: nat) returns (k: nat)
    requires Framable(ms) && n <= |FrameAll(ms)|
    ensures k <= |ms| && HoldsFrames(ms, n, k) && ReadsFrames(ms, FrameAll(ms)[..n], k)
    decreases |ms|
  {
    hide CanFrame, FrameOf, HoldsFrames, ReadsFrames;
    if ms == [] {
      NothingWritten();
      k := 0;
    } else if n < |FrameOf(ms[0])| {
      CutInFirst(ms, n);
      k := 0;
    } else {
      var first := FrameOf(ms[0]);
      var rest := FrameAll(ms[1..])[..n - |first|];
      assert FrameAll(ms)[..n] == first + rest;
      var j := ReadPrefix(ms[1..], n - |first|);
      HoldsOneMore(ms, n, j);
      k := j + 1;
      PastFirst(ms, FrameAll(ms)[..n], rest, j);
    }
  }

  lemma NothingWritten()
    ensures HoldsFrames([], 0, 0) && ReadsFrames([], [], 0) && FrameAll([]) == []
  {
    EmptyInput();
  }

  lemma EmptyInput()
    ensures ReadFrame([], false) == Reading(Success(None), [])
  {
  }

  /** The whole stream reads back as the whole sequence, and then ends cleanly. */
  lemma {:induction false} ReadAllWritten(ms: seq<Message>)
    requires Framable(ms)
    ensures ReadAll(FrameAll(ms), false) == (ms, Success(()))
    decreases |ms|
  {
    hide CanFrame, FrameOf, ReadFrame;
    if ms == [] {
      EmptyInput();
    } else {
      ReadFramed(ms[0], FrameAll(ms[1..]), false);
      ReadAllWritten(ms[1..]);
      assert [ms[0]] + ms[1..] == ms;
    }
  }

  // ---------------------------------------------------------------- what a writer holds

  /** The writer took `whole`, and after it nothing, or, if it then failed, part of one more frame. */
  ghost predicate Holds(sink: Sink, whole: seq<byte>) {
    || sink.output == whole
    || (sink.room == Some(0) && exists m: Message :: CanFrame(m) && whole < sink.output < whole + FrameOf(m))
  }

  lemma PutHolds(sink: Sink, whole: seq<byte>, m: Message)
    requires Holds(sink, whole) && WellFormed(m)
    ensures var (after, r) := PutFrame(sink, m);
            && (r.Success? ==> CanFrame(m) && Holds(after, whole + FrameOf(m)))
            && (r.Failure? ==> Holds(after, whole))
  {
    hide NewMessage, ToWire;
    if CanFrame(m) {
      FrameIsLong(m);
      var frame := FrameOf(m);
      if sink.output == whole && sink.room.Some? && 0 < sink.room.value < |frame| {
        assert whole < whole + frame[..sink.room.value] < whole + frame;
      }
      if sink.room == Some(0) {
        assert sink.output + frame[..0] == sink.output;
      }
    }
  }

  lemma {:induction false} FrameAllGrows(ms: seq<Message>, k: nat)
    requires Framable(ms) && k <= |ms|
    ensures |FrameAll(ms[..k])| <= |FrameAll(ms)|
    decreases |ms|
  {
    hide CanFrame, FrameOf;
    if k > 0 {
      FrameAllStep(ms, k);
      FrameAllGrows(ms[1..], k - 1);
    }
  }

  /** Whoever reads what a writer holds gets exactly the messages written, and a clean end exactly when
      the writer was not cut off inside a frame. */
  lemma HeldReadsBack(sink: Sink, ms: seq<Message>)
    requires Framable(ms) && Holds(sink, FrameAll(ms))
    ensures var (read, end) := ReadAll(sink.output, false);
            && read == ms && (end == Success(()) <==> sink.output == FrameAll(ms))
            && end in {Success(()), Invalid("truncated frame header"), Invalid("truncated frame body")}
  {
    hide CanFrame, FrameOf, FrameAll, ReadAll;
    if sink.output == FrameAll(ms) {
      ReadAllWritten(ms);
    } else {
      var m: Message :| CanFrame(m) && FrameAll(ms) < sink.output < FrameAll(ms) + FrameOf(m);
      var more := ms + [m];
      FrameOneMore(ms, m);
      var k := ReadPrefix(more, |sink.output|);
      assert sink.output == FrameAll(more)[..|sink.output|];
      assert more[..|ms|] == ms && more[..|more|] == more;
      if k < |ms| {
        assert more[..k + 1] == ms[..k + 1];
        FrameAllGrows(ms, k + 1);
      }
      assert k == |ms|;
    }
  }

  // ---------------------------------------------------------------- what can be framed

  /** A tree's content is part of its wire form. */
  lemma {:induction false} ContentBelowWire(v: Value)
    ensures BV.Content(v) <= |BV.Wire(v)|
    decreases v
  {
    hide BigEndian, BV.WireCode;
    match v
    case Array(items) => ItemsContentBelowWire(items);
    case Map(entries) => EntriesContentBelowWire(entries);
    case _ =>
  }

  lemma {:induction false} ItemsContentBelowWire(items: seq<Value>)
    ensures BV.ItemsContent(items) <= |BV.WireItems(items)|
    decreases items
  {
    hide BV.Content, BV.Wire;
    if items != [] {
      ItemsContentBelowWire(items[..|items| - 1]);
      ContentBelowWire(items[|items| - 1]);
    }
  }

  lemma {:induction false} EntriesContentBelowWire(entries: seq<Entry>)
    ensures BV.EntriesContent(entries) <= |BV.WireEntries(entries)|
    decreases entries
  {
    hide BV.Content, BV.Wire, BigEndian;
    if entries != [] {
      EntriesContentBelowWire(entries[..|entries| - 1]);
      ContentBelowWire(entries[|entries| - 1].value);
    }
  }

  lemma {:induction false} FlatEntries(e: seq<Entry>)
    requires forall i | 0 <= i < |e| :: BV.Nodes(e[i].value) == 1 && BV.Height(e[i].value) == 1
    ensures BV.EntriesNodes(e) == |e| && BV.EntriesHeight(e) <= 1
    decreases |e|
  {
    hide BV.Nodes, BV.Height;
    if e != [] {
      FlatEntries(e[..|e| - 1]);
    }
  }

  lemma EnvelopeIsSmall(m: Message)
    requires WellFormed(m)
    ensures BV.Nodes(CanonicalValue(m)) <= 9 && BV.Height(CanonicalValue(m)) <= 3
  {
    hide Validate, KindText, Ascii, Fields, BV.EntriesNodes, BV.EntriesHeight, BV.EntriesContent, BV.WireEntries;
    var f := Fields(m.body);
    var e := Envelope(m.requestId, KindText(KindOf(m.body)), f);
    FieldsAreFlat(m.body);
    FlatEntries(f);
    FlatEntries(e[..3]);
    assert e[..4] == e;
    BV.EntriesStep(e, 3);
    PL.MapSize(f);
    PL.MapSize(e);
  }

  lemma FieldsAreFlat(body: MessageBody)
    requires Validate(body).Success?
    ensures |Fields(body)| <= 4
    ensures forall i | 0 <= i < |Fields(body)| ::
              BV.Nodes(Fields(body)[i].value) == 1 && BV.Height(Fields(body)[i].value) == 1
  {
    hide Validate, Ascii;
    PL.ValidIds(body);
  }

  /** The strings whose length validation leaves open are within the string limit. */
  predicate TextsFit(body: MessageBody) {
    match body
    case Load(packageRoot, entrypoint, _, _) =>
      |packageRoot| <= BV.MAX_STRING_BYTES && |entrypoint| <= BV.MAX_STRING_BYTES
    case Invoke(operation, _, _) => |operation| <= BV.MAX_STRING_BYTES
    case BridgeInvoke(operation, _) => |operation| <= BV.MAX_STRING_BYTES
    case _ => true
  }

  lemma ValidTexts(body: MessageBody)
    requires Validate(body).Success?
    ensures body.ErrorReply? ==> |body.code| <= 128 && |body.message| <= MAX_ERROR_MESSAGE_BYTES
    ensures body.CallbackError? ==> |body.code| <= 128
  {
    hide Blank, BV.Kebab;
  }

  lemma FieldsSound(body: MessageBody)
    requires Validate(body).Success? && PL.EncodedLength(body) <= MAX_FRAME_BYTES
    ensures BV.Sound(BV.Map(Fields(body))) <==> TextsFit(body)
  {
    hide Validate, Fields, BV.DistinctKeys;
    PL.FieldsDistinct(body);
    FieldsAreFlat(body);
    EachFieldSound(body);
    var f := Fields(body);
    assert BV.Sound(BV.Map(f)) <==>
           forall i | 0 <= i < |f| :: |f[i].key| <= BV.MAX_STRING_BYTES && BV.Sound(f[i].value);
  }

  lemma EachFieldSound(body: MessageBody)
    requires Validate(body).Success? && PL.EncodedLength(body) <= MAX_FRAME_BYTES
    ensures TextsFit(body) <==>
            forall i | 0 <= i < |Fields(body)| ::
              |Fields(body)[i].key| <= BV.MAX_STRING_BYTES && BV.Sound(Fields(body)[i].value)
  {
    hide Validate;
    PL.ValidIds(body);
    ValidTexts(body);
    var f := Fields(body);
    assert |f| > 0 ==> (BV.Sound(f[0].value) || !BV.Sound(f[0].value));
    assert |f| > 1 ==> (BV.Sound(f[1].value) || !BV.Sound(f[1].value));
  }

  lemma EnvelopeSoundness(m: Message)
    requires WellFormed(m)
    ensures BV.Sound(CanonicalValue(m)) <==> BV.Sound(BV.Map(Fields(m.body)))
  {
    hide Validate, KindText, Fields;
    PL.EnvelopeDistinct(m.requestId, KindText(KindOf(m.body)), Fields(m.body));
    PL.KindTextShape(KindOf(m.body));
    var e := Envelope(m.requestId, KindText(KindOf(m.body)), Fields(m.body));
    assert e[3].value == BV.Map(Fields(m.body));
    assert BV.Sound(e[0].value) && BV.Sound(e[1].value) && BV.Sound(e[2].value);
  }

  /** Which messages can be written, in closed form: no string beyond its limit, and the exact
      encoded length within the frame limit. Nothing else can fail. */
  lemma FrameExact(m: Message)
    requires WellFormed(m)
    ensures Frame(m).Success? <==> TextsFit(m.body) && PL.EncodedLength(m.body) <= MAX_FRAME_BYTES
    ensures Frame(m).Success? ==> |Frame(m).value| == 4 + PL.EncodedLength(m.body)
  {
    hide NewMessage, CanonicalValue, BV.Sound, BV.Wire, BV.Content, BV.Nodes, BV.Height, TextsFit,
         PL.EncodedLength, BigEndian;
    PL.EncodedLengthExact(m);
    EnvelopeIsSmall(m);
    ContentBelowWire(CanonicalValue(m));
    EnvelopeSoundness(m);
    BodyIsValid(m);
    if PL.EncodedLength(m.body) <= MAX_FRAME_BYTES {
      FieldsSound(m.body);
    }
  }

  lemma BodyIsValid(m: Message)
    requires WellFormed(m)
    ensures Validate(m.body).Success?
  {
  }
}
