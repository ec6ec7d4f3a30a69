/**
 A generic MessagePack reader, written from the "Formats" section of the MessagePack specification
 alone, and the proof that it finds in every Bridge Value v1 encoding exactly one object, and which:
 pairs of a tag and the value's own data.
 */
module MessagePack {
  import opened Bytes
  import BV = BridgeValue
  import CL = CodecLaws
  import D = Decoding

  // ---------------------------------------------------------------- the reader

  datatype Object =
    | Nil
    | Boolean(flag: bool)
    | Number(number: int)
    | Single(pattern: nat)                 // float 32, as its bits
    | Double(pattern: nat)                 // float 64, as its bits
    | Text(bytes: seq<byte>)
    | Binary(bytes: seq<byte>)
    | List(items: seq<Object>)
    | Dictionary(pairs: seq<Object>)       // keys and values by turns
    | Extension(kind: byte, bytes: seq<byte>)

  /** An object and where it ends. */
  datatype Reading = Reading(found: Object, end: nat)

  /** The number these bytes write in base 256, first digit first. */
  function Unsigned(s: seq<byte>): nat {
    if s == [] then 0 else s[0] * Power256(|s| - 1) + Unsigned(s[1..])
  }

  /** The same in two's complement. */
  function Signed(s: seq<byte>): int
    requires s != []
  {
    if s[0] >= 0x80 then Unsigned(s) - Power256(|s|) else Unsigned(s)
  }

  /** The `n` bytes at `offset`. */
  function Slice(input: seq<byte>, offset: nat, n: nat): Option<seq<byte>> {
    if offset + n <= |input| then Some(input[offset..offset + n]) else None
  }

  function ReadUnsigned(input: seq<byte>, offset: nat, width: nat): Option<nat> {
    match Slice(input, offset, width)
    case Some(s) => Some(Unsigned(s))
    case None => None
  }

  /** A number of `width` bytes after the format byte. */
  function ReadNumber(input: seq<byte>, offset: nat, width: nat, signed: bool): Option<Reading>
    requires width > 0
  {
    match Slice(input, offset + 1, width)
    case Some(s) => Some(Reading(Number(if signed then Signed(s) else Unsigned(s)), offset + 1 + width))
    case None => None
  }

  function ReadFloat(input: seq<byte>, offset: nat, width: nat): Option<Reading> {
    match ReadUnsigned(input, offset + 1, width)
    case Some(n) => Some(Reading(if width == 4 then Single(n) else Double(n), offset + 1 + width))
    case None => None
  }

  /** A length of `width` bytes after the format byte, and as many bytes of data. */
  function ReadBytes(input: seq<byte>, offset: nat, width: nat, text: bool): Option<Reading> {
    match ReadUnsigned(input, offset + 1, width)
    case None => None
    case Some(n) =>
      match Slice(input, offset + 1 + width, n)
      case Some(s) => Some(Reading(if text then Text(s) else Binary(s), offset + 1 + width + n))
      case None => None
  }

  function ReadExtension(input: seq<byte>, offset: nat, n: nat): Option<Reading> {
    match Slice(input, offset, n + 1)
    case Some(s) => Some(Reading(Extension(s[0], s[1..]), offset + 1 + n))
    case None => None
  }

  function ReadLongExtension(input: seq<byte>, offset: nat, width: nat): (r: Option<Reading>)
    ensures r.Some? ==> r.value.end > offset
  {
    match ReadUnsigned(input, offset + 1, width)
    case Some(n) => ReadExtension(input, offset + 1 + width, n)
    case None => None
  }

  function ReadShortText(input: seq<byte>, offset: nat, n: nat): Option<Reading> {
    match Slice(input, offset + 1, n)
    case Some(s) => Some(Reading(Text(s), offset + 1 + n))
    case None => None
  }

  function ReadObject(input: seq<byte>, offset: nat): (r: Option<Reading>)
    ensures r.Some? ==> r.value.end > offset
    decreases |input| - offset, 1
  {
    if offset >= |input| then None
    else
      var b: int := input[offset];
      if b <= 0x7F then Some(Reading(Number(b), offset + 1))              // positive fixint
      else if b <= 0x8F then ReadMembers(input, offset + 1, 2 * (b - 0x80), true)  // fixmap
      else if b <= 0x9F then ReadMembers(input, offset + 1, b - 0x90, false)       // fixarray
      else if b <= 0xBF then ReadShortText(input, offset, b - 0xA0)       // fixstr
      else if b == 0xC0 then Some(Reading(Nil, offset + 1))
      else if b == 0xC1 then None                                         // never used
      else if b == 0xC2 then Some(Reading(Boolean(false), offset + 1))
      else if b == 0xC3 then Some(Reading(Boolean(true), offset + 1))
      else if b == 0xC4 then ReadBytes(input, offset, 1, false)           // bin 8
      else if b == 0xC5 then ReadBytes(input, offset, 2, false)           // bin 16
      else if b == 0xC6 then ReadBytes(input, offset, 4, false)           // bin 32
      else if b == 0xC7 then ReadLongExtension(input, offset, 1)          // ext 8
      else if b == 0xC8 then ReadLongExtension(input, offset, 2)          // ext 16
      else if b == 0xC9 then ReadLongExtension(input, offset, 4)          // ext 32
      else if b == 0xCA then ReadFloat(input, offset, 4)                  // float 32
      else if b == 0xCB then ReadFloat(input, offset, 8)                  // float 64
      else if b == 0xCC then ReadNumber(input, offset, 1, false)          // uint 8
      else if b == 0xCD then ReadNumber(input, offset, 2, false)          // uint 16
      else if b == 0xCE then ReadNumber(input, offset, 4, false)          // uint 32
      else if b == 0xCF then ReadNumber(input, offset, 8, false)          // uint 64
      else if b == 0xD0 then ReadNumber(input, offset, 1, true)           // int 8
      else if b == 0xD1 then ReadNumber(input, offset, 2, true)           // int 16
      else if b == 0xD2 then ReadNumber(input, offset, 4, true)           // int 32
      else if b == 0xD3 then ReadNumber(input, offset, 8, true)           // int 64
      else if b == 0xD4 then ReadExtension(input, offset + 1, 1)          // fixext 1
      else if b == 0xD5 then ReadExtension(input, offset + 1, 2)          // fixext 2
      else if b == 0xD6 then ReadExtension(input, offset + 1, 4)          // fixext 4
      else if b == 0xD7 then ReadExtension(input, offset + 1, 8)          // fixext 8
      else if b == 0xD8 then ReadExtension(input, offset + 1, 16)         // fixext 16
      else if b == 0xD9 then ReadBytes(input, offset, 1, true)            // str 8
      else if b == 0xDA then ReadBytes(input, offset, 2, true)            // str 16
      else if b == 0xDB then ReadBytes(input, offset, 4, true)            // str 32
      else if b == 0xDC then ReadContainer(input, offset, 2, false)       // array 16
      else if b == 0xDD then ReadContainer(input, offset, 4, false)       // array 32
      else if b == 0xDE then ReadContainer(input, offset, 2, true)        // map 16
      else if b == 0xDF then ReadContainer(input, offset, 4, true)        // map 32
      else Some(Reading(Number(b - 256), offset + 1))                     // negative fixint
  }

  /** A count of `width` bytes after the format byte, and as many members. */
  function ReadContainer(input: seq<byte>, offset: nat, width: nat, pairs: bool): (r: Option<Reading>)
    requires offset < |input|
    ensures r.Some? ==> r.value.end > offset
    decreases |input| - offset, 0
  {
    match ReadUnsigned(input, offset + 1, width)
    case Some(n) => ReadMembers(input, offset + 1 + width, if pairs then 2 * n else n, pairs)
    case None => None
  }

  function ReadMembers(input: seq<byte>, offset: nat, n: nat, pairs: bool): (r: Option<Reading>)
    ensures r.Some? ==> r.value.end >= offset
    decreases |input| - offset, 3
  {
    match ReadObjects(input, offset, n)
    case Some((items, end)) => Some(Reading(if pairs then Dictionary(items) else List(items), end))
    case None => None
  }

  /** `n` objects, one after the other. */
  function ReadObjects(input: seq<byte>, offset: nat, n: nat): (r: Option<(seq<Object>, nat)>)
    ensures r.Some? ==> |r.value.0| == n && r.value.1 >= offset
    decreases |input| - offset, 2
  {
    if n == 0 then Some(([], offset))
    else
      match ReadObject(input, offset)
      case None => None
      case Some(first) =>
        match ReadObjects(input, first.end, n - 1)
        case None => None
        case Some((rest, end)) => Some(([first.found] + rest, end))
  }

  // ---------------------------------------------------------------- numbers

  lemma {:induction false} UnsignedOneMore(s: seq<byte>, b: byte)
    ensures Unsigned(s + [b]) == 256 * Unsigned(s) + b
  {
    if s == [] {
      assert s + [b] == [b] && [b][1..] == [];
    } else {
      UnsignedOneMore(s[1..], b);
      assert (s + [b])[1..] == s[1..] + [b];
      PowerStep(s[0], |s|);
    }
  }

  lemma PowerStep(x: nat, n: nat)
    requires n > 0
    ensures x * Power256(n) == 256 * (x * Power256(n - 1))
  {
  }

  lemma {:induction false} UnsignedBelow(s: seq<byte>)
    ensures Unsigned(s) < Power256(|s|)
  {
    if s != [] {
      UnsignedBelow(s[1..]);
      OneDigit(s[0], Power256(|s| - 1), Unsigned(s[1..]));
    }
  }

  lemma OneDigit(digit: byte, p: nat, rest: nat)
    requires rest < p
    ensures digit * p + rest < 256 * p
  {
    assert (255 - digit) * p >= 0;
  }

  /** The codec's integers are base 256 with the first digit first. */
  lemma {:induction false} BigEndianIsUnsigned(x: nat, n: nat)
    requires x < Power256(n)
    ensures Unsigned(BigEndian(x, n)) == x
  {
    if n > 0 {
      BigEndianIsUnsigned(x / 256, n - 1);
      UnsignedOneMore(BigEndian(x / 256, n - 1), x % 256);
    }
  }

  /** And its signed integers are in two's complement. */
  lemma SignedBitsAreSigned(x: i64)
    ensures Signed(BigEndian(SignedBits(x), 8)) == x
  {
    hide BigEndian;
    FixedPowers();
    BigEndianIsUnsigned(SignedBits(x), 8);
    var s := BigEndian(SignedBits(x), 8);
    UnsignedBelow(s[1..]);
    SevenBytes();
  }

  lemma SevenBytes()
    ensures Power256(7) == 0x100_0000_0000_0000
  {
    assert Power256(2) == 256 * Power256(1);
    assert Power256(4) == 256 * Power256(3);
    assert Power256(6) == 256 * Power256(5);
  }

  // ---------------------------------------------------------------- what an encoding holds

  /** The object a value is written as. */
  function Shape(v: BV.Value): Object
    decreases v
  {
    match v
    case Null => List([Number(0), Nil])
    case Bool(flag) => List([Number(1), Boolean(flag)])
    case Integer(number) => List([Number(2), Number(number)])
    case Float(bits) => List([Number(3), Double(bits)])
    case String(text) => List([Number(4), Text(text)])
    case Bytes(bytes) => List([Number(5), Binary(bytes)])
    case Array(items) => List([Number(6), List(Shapes(items))])
    case Map(entries) => List([Number(7), List(EntryShapes(entries))])
    case Handle(h) => List([Number(8), List([Number(h.objectId), Number(h.generation), Text(h.typeName)])])
    case Error(code) => List([Number(9), Text(BV.WireCode(code))])
  }

  function Shapes(items: seq<BV.Value>): (r: seq<Object>)
    ensures |r| == |items|
    decreases items
  {
    if items == [] then [] else Shapes(items[..|items| - 1]) + [Shape(items[|items| - 1])]
  }

  function EntryShapes(entries: seq<BV.Entry>): (r: seq<Object>)
    ensures |r| == |entries|
    decreases entries
  {
    if entries == [] then []
    else
      var e := entries[|entries| - 1];
      EntryShapes(entries[..|entries| - 1]) + [List([Text(e.key), Shape(e.value)])]
  }

  /** One more object after `n`. */
  lemma {:induction false} ObjectsOneMore(input: seq<byte>, offset: nat, n: nat)
    ensures ReadObjects(input, offset, n + 1) ==
            match ReadObjects(input, offset, n)
            case None => None
            case Some((items, end)) =>
              match ReadObject(input, end)
              case None => None
              case Some(last) => Some((items + [last.found], last.end))
    decreases n
  {
    hide ReadObject;
    if n > 0 {
      match ReadObject(input, offset)
      case None =>
      case Some(first) =>
        ObjectsOneMore(input, first.end, n - 1);
        match ReadObjects(input, first.end, n - 1)
        case None =>
        case Some((items, end)) =>
          match ReadObject(input, end)
          case None =>
          case Some(last) => assert [first.found] + (items + [last.found]) == [first.found] + items + [last.found];
    } else {
      match ReadObject(input, offset)
      case None =>
      case Some(first) => assert [first.found] + [] == [] + [first.found];
    }
  }

  /** Where this object stands, and where it ends. */
  predicate Stands(input: seq<byte>, offset: nat, o: Object, end: nat) {
    ReadObject(input, offset) == Some(Reading(o, end))
  }

  /** A fixarray of two objects. */
  lemma PairStands(input: seq<byte>, offset: nat, a: Object, middle: nat, b: Object, end: nat)
    requires At(input, offset, [0x92]) && Stands(input, offset + 1, a, middle) && Stands(input, middle, b, end)
    ensures Stands(input, offset, List([a, b]), end)
  {
    assert input[offset] == input[offset..offset + 1][0];
    assert ReadObjects(input, end, 0) == Some(([], end));
    assert [b] + [] == [b] && [a] + [b] == [a, b];
    assert ReadObjects(input, middle, 1) == Some(([b], end));
    assert ReadObjects(input, offset + 1, 2) == Some(([a] + [b], end));
  }

  lemma TripleStands(input: seq<byte>, offset: nat, a: Object, i: nat, b: Object, j: nat, c: Object, end: nat)
    requires At(input, offset, [0x93])
    requires Stands(input, offset + 1, a, i) && Stands(input, i, b, j) && Stands(input, j, c, end)
    ensures Stands(input, offset, List([a, b, c]), end)
  {
    assert input[offset] == input[offset..offset + 1][0];
    assert ReadObjects(input, end, 0) == Some(([], end));
    assert [c] + [] == [c] && [a] + ([b] + [c]) == [a, b, c];
    assert ReadObjects(input, j, 1) == Some(([c], end));
    assert ReadObjects(input, i, 2) == Some(([b] + [c], end));
    assert ReadObjects(input, offset + 1, 3) == Some(([a] + ([b] + [c]), end));
  }

  /** A length field where the codec wrote one. */
  lemma LengthStands(input: seq<byte>, offset: nat, n: nat)
    requires n < U32_LIMIT && At(input, offset, BigEndian(n, 4))
    ensures ReadUnsigned(input, offset, 4) == Some(n)
  {
    FixedPowers();
    BigEndianIsUnsigned(n, 4);
  }

  /** A format byte, a length field and data. */
  lemma DataStands(input: seq<byte>, offset: nat, format: byte, s: seq<byte>)
    requires format == 0xDB || format == 0xC6
    requires |s| < U32_LIMIT && At(input, offset, [format] + (BigEndian(|s|, 4) + s))
    ensures Stands(input, offset, if format == 0xDB then Text(s) else Binary(s), offset + 5 + |s|)
  {
    hide BigEndian, At, ReadUnsigned, ReadBytes, ReadContainer, ReadMembers;
    AtSplit(input, offset, [format], BigEndian(|s|, 4) + s);
    AtSplit(input, offset + 1, BigEndian(|s|, 4), s);
    FirstByte(input, offset, format);
    LengthStands(input, offset + 1, |s|);
    BytesStand(input, offset, s, format == 0xDB);
  }

  lemma FirstByte(input: seq<byte>, offset: nat, b: byte)
    requires At(input, offset, [b])
    ensures offset < |input| && input[offset] == b
  {
    assert input[offset] == input[offset..offset + 1][0];
  }

  lemma BytesStand(input: seq<byte>, offset: nat, s: seq<byte>, text: bool)
    requires ReadUnsigned(input, offset + 1, 4) == Some(|s|) && At(input, offset + 5, s)
    ensures ReadBytes(input, offset, 4, text) == Some(Reading(if text then Text(s) else Binary(s), offset + 5 + |s|))
  {
    hide ReadUnsigned;
  }

  lemma StringStands(input: seq<byte>, offset: nat, s: seq<byte>)
    requires |s| < U32_LIMIT && At(input, offset, BV.WireString(s))
    ensures Stands(input, offset, Text(s), offset + |BV.WireString(s)|)
  {
    hide Stands, At;
    DataStands(input, offset, 0xDB, s);
  }

  /** A format byte and eight bytes. */
  lemma EightStand(input: seq<byte>, offset: nat, format: byte, x: u64)
    requires At(input, offset, [format] + BigEndian(x, 8))
    ensures format == 0xCF ==> Stands(input, offset, Number(x), offset + 9)
    ensures format == 0xCB ==> Stands(input, offset, Double(x), offset + 9)
    ensures format == 0xD3 ==> Stands(input, offset, Number(Signed(BigEndian(x, 8))), offset + 9)
  {
    hide BigEndian, Signed;
    AtSplit(input, offset, [format], BigEndian(x, 8));
    FixedPowers();
    BigEndianIsUnsigned(x, 8);
    assert input[offset] == input[offset..offset + 1][0];
  }

  lemma SmallStands(input: seq<byte>, offset: nat, b: byte)
    requires At(input, offset, [b])
    ensures b <= 9 ==> Stands(input, offset, Number(b), offset + 1)
    ensures b == 0xC0 ==> Stands(input, offset, Nil, offset + 1)
    ensures b == 0xC2 ==> Stands(input, offset, Boolean(false), offset + 1)
    ensures b == 0xC3 ==> Stands(input, offset, Boolean(true), offset + 1)
  {
    assert input[offset] == input[offset..offset + 1][0];
  }

  /** An array32 head and its members. */
  lemma ArrayStands(input: seq<byte>, offset: nat, items: seq<Object>, members: seq<byte>)
    requires |items| < U32_LIMIT && At(input, offset, [0xDD] + (BigEndian(|items|, 4) + members))
    requires ReadObjects(input, offset + 5, |items|) == Some((items, offset + 5 + |members|))
    ensures Stands(input, offset, List(items), offset + 5 + |members|)
  {
    hide BigEndian, ReadObjects, Unsigned, ReadUnsigned;
    AtSplit(input, offset, [0xDD], BigEndian(|items|, 4) + members);
    AtSplit(input, offset + 1, BigEndian(|items|, 4), members);
    LengthStands(input, offset + 1, |items|);
    assert input[offset] == input[offset..offset + 1][0];
    assert ReadMembers(input, offset + 5, |items|, false) == Some(Reading(List(items), offset + 5 + |members|));
    assert ReadContainer(input, offset, 4, false) == Some(Reading(List(items), offset + 5 + |members|));
  }

  // ---------------------------------------------------------------- values

  lemma HandleStands(input: seq<byte>, offset: nat, h: BV.HandleValue)
    requires BV.ValidHandle(h) && At(input, offset, BV.Payload(BV.Handle(h)))
    ensures Stands(input, offset, Shape(BV.Handle(h)).items[1], offset + |BV.Payload(BV.Handle(h))|)
  {
    hide Stands, At, BV.WireString, BigEndian, BV.Kebab;
    var name := BV.WireString(h.typeName);
    AtSplit(input, offset, [0x93], BV.WireUint64(h.objectId) + (BV.WireUint64(h.generation) + name));
    AtSplit(input, offset + 1, BV.WireUint64(h.objectId), BV.WireUint64(h.generation) + name);
    AtSplit(input, offset + 10, BV.WireUint64(h.generation), name);
    EightStand(input, offset + 1, 0xCF, h.objectId);
    EightStand(input, offset + 10, 0xCF, h.generation);
    StringStands(input, offset + 19, h.typeName);
    TripleStands(input, offset, Number(h.objectId), offset + 10, Number(h.generation), offset + 19, Text(h.typeName),
                 offset + 19 + |name|);
  }

  lemma {:induction false} PayloadStands(input: seq<byte>, offset: nat, v: BV.Value)
    requires BV.Sound(v) && At(input, offset, BV.Payload(v))
    ensures Stands(input, offset, Shape(v).items[1], offset + |BV.Payload(v)|)
    decreases v, 0
  {
    hide Stands, At, BigEndian, BV.WireItems, BV.WireEntries, BV.WireString, BV.WireCode, BV.ValidHandle, Signed,
         ReadObjects, Shapes, EntryShapes;
    match v {
      case Null => SmallStands(input, offset, 0xC0);
      case Bool(flag) => SmallStands(input, offset, if flag then 0xC3 else 0xC2);
      case Integer(number) =>
        EightStand(input, offset, 0xD3, SignedBits(number));
        SignedBitsAreSigned(number);
      case Float(bits) => EightStand(input, offset, 0xCB, bits);
      case String(text) => StringStands(input, offset, text);
      case Bytes(bytes) => DataStands(input, offset, 0xC6, bytes);
      case Array(items) =>
        MembersStart(input, offset, |items|, BV.WireItems(items));
        ItemsStand(input, offset + 5, items);
        ArrayStands(input, offset, Shapes(items), BV.WireItems(items));
      case Map(entries) =>
        MembersStart(input, offset, |entries|, BV.WireEntries(entries));
        EntriesStand(input, offset + 5, entries);
        ArrayStands(input, offset, EntryShapes(entries), BV.WireEntries(entries));
      case Handle(h) => HandleStands(input, offset, h);
      case Error(code) => StringStands(input, offset, BV.WireCode(code));
    }
  }

  lemma MembersStart(input: seq<byte>, offset: nat, n: nat, members: seq<byte>)
    requires At(input, offset, [0xDD] + (BigEndian(n, 4) + members))
    ensures At(input, offset + 5, members)
  {
    hide At, BigEndian;
    AtSplit(input, offset, [0xDD], BigEndian(n, 4) + members);
    AtSplit(input, offset + 1, BigEndian(n, 4), members);
  }

  lemma {:induction false} ItemsStand(input: seq<byte>, offset: nat, items: seq<BV.Value>)
    requires forall i | 0 <= i < |items| :: BV.Sound(items[i])
    requires At(input, offset, BV.WireItems(items))
    ensures ReadObjects(input, offset, |items|) == Some((Shapes(items), offset + |BV.WireItems(items)|))
    decreases items
  {
    hide BV.Sound, BV.Wire, At, ReadObject, Shape;
    if items != [] {
      var init, last := items[..|items| - 1], items[|items| - 1];
      AtSplit(input, offset, BV.WireItems(init), BV.Wire(last));
      ItemsStand(input, offset, init);
      ValueStands(input, offset + |BV.WireItems(init)|, last);
      ObjectsOneMore(input, offset, |init|);
    }
  }

  lemma {:induction false} EntriesStand(input: seq<byte>, offset: nat, entries: seq<BV.Entry>)
    requires BV.EntriesSound(entries)
    requires At(input, offset, BV.WireEntries(entries))
    ensures ReadObjects(input, offset, |entries|) == Some((EntryShapes(entries), offset + |BV.WireEntries(entries)|))
    decreases entries
  {
    hide BV.Sound, BV.Wire, At, ReadObject, Shape;
    if entries != [] {
      var init, last := entries[..|entries| - 1], entries[|entries| - 1];
      AtSplit(input, offset, BV.WireEntries(init), BV.WireEntry(last));
      EntriesStand(input, offset, init);
      EntryStands(input, offset + |BV.WireEntries(init)|, last);
      ObjectsOneMore(input, offset, |init|);
    }
  }

  lemma {:induction false} EntryStands(input: seq<byte>, offset: nat, e: BV.Entry)
    requires |e.key| <= BV.MAX_STRING_BYTES && BV.Sound(e.value)
    requires At(input, offset, BV.WireEntry(e))
    ensures Stands(input, offset, List([Text(e.key), Shape(e.value)]), offset + |BV.WireEntry(e)|)
    decreases e
  {
    hide BV.Sound, BV.Wire, BV.WireString, Stands, At, Shape;
    AtSplit(input, offset, [0x92], BV.WireString(e.key) + BV.Wire(e.value));
    AtSplit(input, offset + 1, BV.WireString(e.key), BV.Wire(e.value));
    StringStands(input, offset + 1, e.key);
    ValueStands(input, offset + 6 + |e.key|, e.value);
    PairStands(input, offset, Text(e.key), offset + 6 + |e.key|, Shape(e.value), offset + |BV.WireEntry(e)|);
  }

  /** Where a value lies the reader finds the value's object, and it ends where the value ends. */
  lemma {:induction false} ValueStands(input: seq<byte>, offset: nat, v: BV.Value)
    requires BV.Sound(v) && At(input, offset, BV.Wire(v))
    ensures Stands(input, offset, Shape(v), offset + |BV.Wire(v)|)
    decreases v, 1
  {
    hide Stands, At, BV.Payload, BV.Sound, Shapes, EntryShapes, BV.WireCode;
    var head, tag := [0x92], [BV.Tag(v)];
    assert [0x92, BV.Tag(v)] + BV.Payload(v) == head + (tag + BV.Payload(v));
    AtSplit(input, offset, head, tag + BV.Payload(v));
    AtSplit(input, offset + 1, tag, BV.Payload(v));
    SmallStands(input, offset + 1, BV.Tag(v));
    PayloadStands(input, offset + 2, v);
    PairStands(input, offset, Number(BV.Tag(v)), offset + 2, Shape(v).items[1], offset + |BV.Wire(v)|);
  }

  /** Every successful encoding is exactly one MessagePack object, which holds exactly the value's data. */
  lemma EncodingIsOneObject(v: BV.Value)
    requires BV.ToWire(v).Ok?
    ensures var wire := BV.ToWire(v).value;
            ReadObject(wire, 0) == Some(Reading(Shape(v), |wire|))
  {
    hide BV.Wire, BV.Sound, Shape, ReadObject;
    var w := BV.Wire(v);
    assert w[0..|w|] == w;
    ValueStands(w, 0, v);
  }

  /** And whatever the decoder accepts is one, holding exactly the data of the value that comes out. */
  lemma DecodedIsOneObject(input: seq<byte>)
    requires D.FromWire(input).Ok?
    ensures ReadObject(input, 0) == Some(Reading(Shape(D.FromWire(input).value), |input|))
  {
    hide BV.ToWire, D.FromWire, Shape, ReadObject;
    CL.DecodeThenEncode(input);
    EncodingIsOneObject(D.FromWire(input).value);
  }
}
