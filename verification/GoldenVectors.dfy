/**
 Bytes that are fixed once and for all: the vectors with which the repository guards its formats, and
 the spelling of every error code.
 */
module GoldenVectors {
  import opened Bytes
  import BV = BridgeValue
  import CL = CodecLaws
  import D = Decoding
  import FL = FrameLaws
  import PL = ProtocolLaws
  import opened Protocol
  import opened Frames
  import LH = LaunchHook

  // ---------------------------------------------------------------- small numbers

  lemma SmallNumber(n: nat)
    requires n < 256
    ensures BigEndian(n, 4) == [0, 0, 0, n]
    ensures BigEndian(n, 8) == [0, 0, 0, 0, 0, 0, 0, n]
  {
    assert BigEndian(0, 2) == [0, 0];
    assert BigEndian(0, 3) == [0, 0, 0];
    assert BigEndian(0, 5) == [0, 0, 0, 0, 0];
    assert BigEndian(0, 7) == [0, 0, 0, 0, 0, 0, 0];
  }

  /** The wire form of a short string. */
  function Str(s: string): seq<byte>
    requires |s| < 256
  {
    [0xDB, 0, 0, 0, |s|] + Ascii(s)
  }

  function Int(n: byte): seq<byte> {
    [0x92, 2, 0xD3, 0, 0, 0, 0, 0, 0, 0, n]
  }

  lemma ShortString(s: string)
    requires |s| < 256
    ensures BV.WireString(Ascii(s)) == Str(s)
  {
    hide Ascii, BigEndian;
    SmallNumber(|s|);
  }

  lemma ShortNumber(n: byte)
    ensures BV.Wire(BV.Integer(n)) == Int(n)
  {
    hide BigEndian;
    SmallNumber(n);
    assert [0xD3] + BigEndian(n, 8) == [0xD3, 0, 0, 0, 0, 0, 0, 0, n];
  }

  lemma ShortWord(s: string)
    requires |s| < 256
    ensures BV.Wire(BV.String(Ascii(s))) == [0x92, 4] + Str(s)
  {
    hide Ascii, BV.WireString;
    ShortString(s);
  }

  /** The integer 42. */
  lemma FortyTwo()
    ensures BV.ToWire(BV.Integer(42)) == BV.Ok([0x92, 0x02, 0xD3, 0, 0, 0, 0, 0, 0, 0, 42])
    ensures D.FromWire([0x92, 0x02, 0xD3, 0, 0, 0, 0, 0, 0, 0, 42]) == BV.Ok(BV.Integer(42))
  {
    hide D.FromWire, BV.Wire;
    ShortNumber(42);
    CL.EncodeThenDecode(BV.Integer(42));
  }

  // ---------------------------------------------------------------- error codes

  function Spelling(code: BV.ErrorCode): string {
    match code
    case InvalidArgument => "invalid-argument"
    case InvalidResult => "invalid-result"
    case PermissionDenied => "permission-denied"
    case StaleHandle => "stale-handle"
    case TypeMismatch => "type-mismatch"
    case Cancelled => "cancelled"
    case CallbackFailed => "callback-failed"
    case Unavailable => "unavailable"
    case Internal => "internal"
  }

  lemma ErrorCodes(code: BV.ErrorCode)
    ensures BV.Wire(BV.Error(code)) == [0x92, 9] + Str(Spelling(code))
  {
    hide Ascii, BV.WireString;
    ShortString(Spelling(code));
  }

  // ---------------------------------------------------------------- maps

  lemma EmptyMap()
    ensures BV.Wire(BV.Map([])) == [0x92, 7, 0xDD, 0, 0, 0, 0]
  {
    hide BigEndian;
    SmallNumber(0);
    PL.NoEntriesLength();
    assert [0xDD] + (BigEndian(0, 4) + []) == [0xDD, 0, 0, 0, 0];
  }

  /** The wire form of a short key with its value. */
  function Pair(key: string, value: seq<byte>): seq<byte>
    requires |key| < 256
  {
    [0x92] + Str(key) + value
  }

  lemma ShortPair(key: string, v: BV.Value)
    requires |key| < 256
    ensures BV.WireEntry(BV.Entry(Ascii(key), v)) == Pair(key, BV.Wire(v))
  {
    hide Ascii, BV.WireString, BV.Wire;
    ShortString(key);
  }

  lemma TwoEntries(e: seq<BV.Entry>)
    requires |e| == 2
    ensures BV.Wire(BV.Map(e)) == [0x92, 7, 0xDD, 0, 0, 0, 2] + BV.WireEntry(e[0]) + BV.WireEntry(e[1])
  {
    hide BigEndian, BV.WireEntry, BV.WireEntries;
    SmallNumber(2);
    PL.NoEntriesLength();
    BV.EntriesStep(e, 0);
    BV.EntriesStep(e, 1);
    assert e[..0] == [] && e[..2] == e;
    MapWire(e);
  }

  lemma FourEntries(e: seq<BV.Entry>)
    requires |e| == 4
    ensures BV.Wire(BV.Map(e))
         == [0x92, 7, 0xDD, 0, 0, 0, 4] + BV.WireEntry(e[0]) + BV.WireEntry(e[1]) + BV.WireEntry(e[2])
            + BV.WireEntry(e[3])
  {
    hide BigEndian, BV.WireEntry, BV.WireEntries;
    SmallNumber(4);
    PL.NoEntriesLength();
    BV.EntriesStep(e, 0);
    BV.EntriesStep(e, 1);
    BV.EntriesStep(e, 2);
    BV.EntriesStep(e, 3);
    assert e[..0] == [] && e[..4] == e;
    MapWire(e);
  }

  lemma MapWire(e: seq<BV.Entry>)
    ensures BV.Wire(BV.Map(e)) == [0x92, 7, 0xDD] + BigEndian(|e|, 4) + BV.WireEntries(e)
  {
    hide BigEndian, BV.WireEntries, BV.Wire, BV.Payload, BV.Tag;
    MapHead(e);
    MapPayload(BV.Map(e));
    Prefixed(BigEndian(|e|, 4), BV.WireEntries(e));
  }

  lemma MapPayload(v: BV.Value)
    requires v.Map?
    ensures BV.Payload(v) == [0xDD] + (BigEndian(|v.entries|, 4) + BV.WireEntries(v.entries))
  {
    hide BigEndian, BV.WireEntries;
  }

  lemma MapHead(e: seq<BV.Entry>)
    ensures BV.Wire(BV.Map(e)) == [0x92, 7] + BV.Payload(BV.Map(e))
  {
    hide BigEndian, BV.WireEntries, BV.Payload;
  }

  lemma Prefixed(a: seq<byte>, b: seq<byte>)
    ensures [0x92, 7] + ([0xDD] + (a + b)) == [0x92, 7, 0xDD] + a + b
  {
  }

  // ---------------------------------------------------------------- the answers of the launch hook

  lemma HookUnchanged()
    ensures BV.Wire(LH.Answer(LH.Unchanged))
         == [0x92, 7, 0xDD, 0, 0, 0, 2] + Pair("contractVersion", Int(1)) + Pair("action", [0x92, 4] + Str("unchanged"))
  {
    hide Ascii, BV.Wire, BV.WireEntry;
    TwoEntries(LH.Answer(LH.Unchanged).entries);
    ShortPair("contractVersion", BV.Integer(1));
    ShortPair("action", BV.String(Ascii("unchanged")));
    ShortNumber(1);
    ShortWord("unchanged");
  }

  lemma PatchUnchanged()
    ensures BV.Wire(LH.PatchAnswer())
         == [0x92, 7, 0xDD, 0, 0, 0, 2] + Pair("schemaVersion", Int(1)) + Pair("action", [0x92, 4] + Str("unchanged"))
  {
    hide Ascii, BV.Wire, BV.WireEntry;
    TwoEntries(LH.PatchAnswer().entries);
    ShortPair("schemaVersion", BV.Integer(1));
    ShortPair("action", BV.String(Ascii("unchanged")));
    ShortNumber(1);
    ShortWord("unchanged");
  }

  // ---------------------------------------------------------------- frames

  const HELLO_BYTES :=
    [0x92, 7, 0xDD, 0, 0, 0, 4] + Pair("protocolVersion", Int(1)) + Pair("requestId", Int(7))
    + Pair("kind", [0x92, 4] + Str("hello")) + Pair("payload", [0x92, 7, 0xDD, 0, 0, 0, 0])

  /** The frame of hello with ID 7. */
  lemma HelloFrame()
    ensures WellFormed(Message(7, Hello)) && Frame(Message(7, Hello)) == Success([0, 0, 0, 0x6B] + HELLO_BYTES)
  {
    hide Ascii, BV.Wire, BV.WireEntry, BigEndian, Frame, BV.Encodable;
    var m := Message(7, Hello);
    FL.FrameExact(m);
    PL.EncodedLengthExact(m);
    var e := Envelope(7, Ascii("hello"), []);
    FourEntries(e);
    ShortPair("protocolVersion", BV.Integer(1));
    ShortPair("requestId", BV.Integer(7));
    ShortPair("kind", BV.String(Ascii("hello")));
    ShortPair("payload", BV.Map([]));
    ShortNumber(1);
    ShortNumber(7);
    ShortWord("hello");
    EmptyMap();
    SmallNumber(0x6B);
    FrameIsHeaderAndBody(m);
  }

  lemma FrameIsHeaderAndBody(m: Message)
    requires WellFormed(m) && Frame(m).Success?
    ensures var body := BV.Wire(CanonicalValue(m)); Frame(m) == Success(BigEndian(|body|, 4) + body)
  {
    hide BV.Wire, BigEndian, BV.Encodable, CanonicalValue, NewMessage;
  }

  /** A header whose length is zero or beyond 16 MiB is refused as soon as it is read, and fewer than four
      bytes are no header. */
  lemma BadHeaders(n: nat, rest: seq<byte>, broken: bool)
    requires n < U32_LIMIT && (n == 0 || n > 16 * 1024 * 1024)
    ensures ReadFrame(BigEndian(n, 4) + rest, broken) == Reading(Invalid("frame length is outside bounds"), rest)
  {
    hide BigEndian, FromWire;
    FixedPowers();
    BigEndianRoundTrip(n, 4);
    var input := BigEndian(n, 4) + rest;
    assert input[..4] == BigEndian(n, 4) && input[4..] == rest;
  }

  lemma ShortHeaders(input: seq<byte>)
    requires |input| < 4
    ensures ReadFrame(input, false)
         == (if input == [] then Reading(Success(None), []) else Reading(Invalid("truncated frame header"), []))
    ensures ReadFrame(input, true) == Reading(Failure(Io), [])
  {
  }
}
