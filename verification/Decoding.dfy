/**
 The Bridge Value v1 decoder as pure functions on a cursor. Nothing here is shared with the
 encoder; module CodecLaws relates the two.
 */
module Decoding {
  import opened Bytes
  import opened BridgeValue

  /** The decoder's mutable fields. */
  datatype Cursor = Cursor(offset: nat, content: nat, values: nat)

  /** A value together with the cursor after it, or a rejection. */
  datatype Decoded<+T> = Done(value: T, cursor: Cursor) | Failed {
    predicate IsFailure() { Failed? }
    function PropagateFailure<U>(): Decoded<U>
      requires Failed?
    {
      Failed
    }
    function Extract(): (T, Cursor)
      requires Done?
    {
      (value, cursor)
    }
  }

  // ---------------------------------------------------------------- reading steps

  function TakeByte(input: seq<byte>, c: Cursor): Decoded<byte> {
    if c.offset < |input| then Done(input[c.offset], c.(offset := c.offset + 1)) else Failed
  }

  function Expect(input: seq<byte>, c: Cursor, expected: byte): Decoded<()> {
    var (b, c) :- TakeByte(input, c);
    if b == expected then Done((), c) else Failed
  }

  function Take(input: seq<byte>, c: Cursor, length: nat): Decoded<seq<byte>> {
    if c.offset + length <= |input|
    then Done(input[c.offset..c.offset + length], c.(offset := c.offset + length))
    else Failed
  }

  /** `u32::from_be_bytes`, widened. */
  function TakeLength(input: seq<byte>, c: Cursor): Decoded<nat> {
    var (bytes, c) :- Take(input, c, 4);
    Done(FromBigEndian(bytes), c)
  }

  /** `u64::from_be_bytes`. */
  function TakeBits(input: seq<byte>, c: Cursor): Decoded<u64> {
    var (bytes, c) :- Take(input, c, 8);
    BigEndianCanonical(bytes);
    FixedPowers();
    Done(FromBigEndian(bytes), c)
  }

  function TakeUint64(input: seq<byte>, c: Cursor): Decoded<u64> {
    var (_, c) :- Expect(input, c, 0xCF);
    TakeBits(input, c)
  }

  function AddContent(c: Cursor, length: nat, limit: nat): Decoded<()> {
    if length <= limit && c.content + length <= MAX_TOTAL_CONTENT_BYTES
    then Done((), c.(content := c.content + length))
    else Failed
  }

  function StringLength(input: seq<byte>, c: Cursor, limit: nat): Decoded<nat> {
    var (_, c) :- Expect(input, c, 0xDB);
    var (length, c) :- TakeLength(input, c);
    if length <= limit then Done(length, c) else Failed
  }

  function ReadString(input: seq<byte>, c: Cursor, length: nat): Decoded<Text> {
    var (bytes, c) :- Take(input, c, length);
    if Utf8(bytes) then Done(bytes, c) else Failed
  }

  function TakeString(input: seq<byte>, c: Cursor, limit: nat): Decoded<Text> {
    var (length, c) :- StringLength(input, c, limit);
    var (_, c) :- AddContent(c, length, limit);
    ReadString(input, c, length)
  }

  function TakeMetadata(input: seq<byte>, c: Cursor, limit: nat): Decoded<Text> {
    var (length, c) :- StringLength(input, c, limit);
    ReadString(input, c, length)
  }

  function ContainerLength(input: seq<byte>, c: Cursor): Decoded<nat> {
    var (_, c) :- Expect(input, c, 0xDD);
    var (length, c) :- TakeLength(input, c);
    if length <= MAX_CONTAINER_ENTRIES then Done(length, c) else Failed
  }

  function TakeHandle(input: seq<byte>, c: Cursor): Decoded<Value> {
    var (_, c) :- Expect(input, c, 0x93);
    var (objectId, c) :- TakeUint64(input, c);
    var (generation, c) :- TakeUint64(input, c);
    var (typeName, c) :- TakeMetadata(input, c, MAX_METADATA_BYTES);
    var handle := HandleValue(objectId, generation, typeName);
    if ValidHandle(handle) then Done(Handle(handle), c) else Failed
  }

  /** The branches that have no members. */
  function TakeScalar(input: seq<byte>, c: Cursor, tag: byte): Decoded<Value> {
    if tag == 0 then
      var (_, c) :- Expect(input, c, 0xC0);
      Done(Null, c)
    else if tag == 1 then
      var (b, c) :- TakeByte(input, c);
      if b == 0xC2 then Done(Bool(false), c) else if b == 0xC3 then Done(Bool(true), c) else Failed
    else if tag == 2 then
      var (_, c) :- Expect(input, c, 0xD3);
      var (bits, c) :- TakeBits(input, c);
      Done(Integer(FromSignedBits(bits)), c)
    else if tag == 3 then
      var (_, c) :- Expect(input, c, 0xCB);
      var (bits, c) :- TakeBits(input, c);
      if Finite(bits) then Done(Float(bits), c) else Failed
    else if tag == 4 then
      var (text, c) :- TakeString(input, c, MAX_STRING_BYTES);
      Done(String(text), c)
    else if tag == 5 then
      var (_, c) :- Expect(input, c, 0xC6);
      var (length, c) :- TakeLength(input, c);
      var (_, c) :- AddContent(c, length, MAX_BYTE_BYTES);
      var (bytes, c) :- Take(input, c, length);
      Done(Bytes(bytes), c)
    else if tag == 8 then
      TakeHandle(input, c)
    else if tag == 9 then
      var (encoded, c) :- TakeMetadata(input, c, MAX_METADATA_BYTES);
      match CodeFromWire(encoded) {
        case Some(code) => Done(Error(code), c)
        case None => Failed
      }
    else Failed
  }

  // ---------------------------------------------------------------- values

  function DecodeValue(input: seq<byte>, c: Cursor, depth: nat): Decoded<Value>
    decreases if depth <= MAX_DEPTH then MAX_DEPTH + 1 - depth else 0, 0
  {
    if depth > MAX_DEPTH || c.values >= MAX_TOTAL_VALUES then Failed
    else
      var c := c.(values := c.values + 1);
      var (_, c) :- Expect(input, c, 0x92);
      var (tag, c) :- TakeByte(input, c);
      if tag == 6 then
        var (items, c) :- DecodeArray(input, c, depth + 1);
        Done(Array(items), c)
      else if tag == 7 then
        var (entries, c) :- DecodeMap(input, c, depth + 1);
        Done(Map(entries), c)
      else TakeScalar(input, c, tag)
  }

  function DecodeArray(input: seq<byte>, c: Cursor, depth: nat): Decoded<seq<Value>>
    decreases if depth <= MAX_DEPTH then MAX_DEPTH + 1 - depth else 0, MAX_CONTAINER_ENTRIES + 2
  {
    var (length, c) :- ContainerLength(input, c);
    DecodeItems(input, c, depth, length)
  }

  function DecodeMap(input: seq<byte>, c: Cursor, depth: nat): Decoded<seq<Entry>>
    decreases if depth <= MAX_DEPTH then MAX_DEPTH + 1 - depth else 0, MAX_CONTAINER_ENTRIES + 2
  {
    var (length, c) :- ContainerLength(input, c);
    DecodeEntries(input, c, depth, length)
  }

  /** The first `n` members of an array. */
  function DecodeItems(input: seq<byte>, c: Cursor, depth: nat, n: nat): (r: Decoded<seq<Value>>)
    ensures r.Done? ==> |r.value| == n
    decreases if depth <= MAX_DEPTH then MAX_DEPTH + 1 - depth else 0, n + 1
  {
    if n == 0 then Done([], c)
    else
      var (items, c) :- DecodeItems(input, c, depth, n - 1);
      var (item, c) :- DecodeValue(input, c, depth);
      Done(items + [item], c)
  }

  /** The first `n` entries of a map. */
  function DecodeEntries(input: seq<byte>, c: Cursor, depth: nat, n: nat): (r: Decoded<seq<Entry>>)
    ensures r.Done? ==> |r.value| == n
    decreases if depth <= MAX_DEPTH then MAX_DEPTH + 1 - depth else 0, n + 1
  {
    if n == 0 then Done([], c)
    else
      var (entries, c) :- DecodeEntries(input, c, depth, n - 1);
      var (key, c) :- DecodeKey(input, c);
      if exists i | 0 <= i < |entries| :: entries[i].key == key then Failed
      else
        var (value, c) :- DecodeValue(input, c, depth);
        Done(entries + [Entry(key, value)], c)
  }

  /** The head of a map entry. */
  function DecodeKey(input: seq<byte>, c: Cursor): Decoded<Text> {
    var (_, c) :- Expect(input, c, 0x92);
    TakeString(input, c, MAX_STRING_BYTES)
  }

  /** A rejected member rejects the container. */
  lemma {:induction false} ItemsFailEarly(input: seq<byte>, c: Cursor, depth: nat, i: nat, n: nat)
    requires i <= n && DecodeItems(input, c, depth, i).Failed?
    ensures DecodeItems(input, c, depth, n).Failed?
    decreases n
  {
    hide DecodeKey, DecodeValue;
    if i < n {
      ItemsFailEarly(input, c, depth, i, n - 1);
    }
  }

  lemma {:induction false} EntriesFailEarly(input: seq<byte>, c: Cursor, depth: nat, i: nat, n: nat)
    requires i <= n && DecodeEntries(input, c, depth, i).Failed?
    ensures DecodeEntries(input, c, depth, n).Failed?
    decreases n
  {
    hide DecodeKey, DecodeValue;
    if i < n {
      EntriesFailEarly(input, c, depth, i, n - 1);
    }
  }

  /** `Value::from_wire`. */
  function FromWire(input: seq<byte>): Result<Value> {
    match DecodeValue(input, Cursor(0, 0, 0), 0)
    case Done(v, c) => if c.offset == |input| then Ok(v) else Err(InvalidResult)
    case Failed => Err(InvalidResult)
  }
}
