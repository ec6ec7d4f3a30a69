/**
 The decoder accepts exactly the wire forms of encodable trees: every reading step is related
 to the bytes it accepts, in both directions, up to whole values.
 */
module CodecLaws {
  import opened Bytes
  import opened BridgeValue
  import opened Decoding

  // ---------------------------------------------------------------- reading steps, exactly

  lemma ExpectExact(input: seq<byte>, c: Cursor, expected: byte, after: Cursor)
    ensures Expect(input, c, expected) == Done((), after) <==>
            At(input, c.offset, [expected]) && after == c.(offset := c.offset + 1)
  {
    if c.offset < |input| {
      var slice := input[c.offset..c.offset + 1];
      assert |slice| == 1 && slice[0] == input[c.offset];
    }
  }

  lemma TakeLengthExact(input: seq<byte>, c: Cursor, n: nat, after: Cursor)
    ensures TakeLength(input, c) == Done(n, after) <==>
            && n < U32_LIMIT && At(input, c.offset, BigEndian(n, 4))
            && after == c.(offset := c.offset + 4)
  {
    FixedPowers();
    if n < U32_LIMIT {
      BigEndianRoundTrip(n, 4);
    }
    if c.offset + 4 <= |input| {
      BigEndianCanonical(input[c.offset..c.offset + 4]);
    }
  }

  lemma TakeBitsExact(input: seq<byte>, c: Cursor, x: u64, after: Cursor)
    ensures TakeBits(input, c) == Done(x, after) <==>
            At(input, c.offset, BigEndian(x, 8)) && after == c.(offset := c.offset + 8)
  {
    FixedPowers();
    BigEndianRoundTrip(x, 8);
    if c.offset + 8 <= |input| {
      BigEndianCanonical(input[c.offset..c.offset + 8]);
    }
  }

  lemma TakeUint64Exact(input: seq<byte>, c: Cursor, x: u64, after: Cursor)
    ensures TakeUint64(input, c) == Done(x, after) <==>
            At(input, c.offset, WireUint64(x)) && after == c.(offset := c.offset + 9)
  {
    hide TakeBits, BigEndian;
    var next := c.(offset := c.offset + 1);
    ExpectExact(input, c, 0xCF, next);
    TakeBitsExact(input, next, x, after);
    AtSplit(input, c.offset, [0xCF], BigEndian(x, 8));
  }

  lemma StringLengthExact(input: seq<byte>, c: Cursor, limit: nat, n: nat, after: Cursor)
    ensures StringLength(input, c, limit) == Done(n, after) <==>
            && n <= limit && n < U32_LIMIT && At(input, c.offset, [0xDB] + BigEndian(n, 4))
            && after == c.(offset := c.offset + 5)
  {
    hide TakeLength, BigEndian;
    var next := c.(offset := c.offset + 1);
    ExpectExact(input, c, 0xDB, next);
    TakeLengthExact(input, next, n, after);
    AtSplit(input, c.offset, [0xDB], BigEndian(n, 4));
  }

  /** What a string read after its length was accepted. */
  lemma ReadStringExact(input: seq<byte>, c: Cursor, t: Text, after: Cursor)
    ensures ReadString(input, c, |t|) == Done(t, after) <==>
            At(input, c.offset, t) && after == c.(offset := c.offset + |t|)
  {
  }

  lemma TakeMetadataExact(input: seq<byte>, c: Cursor, limit: nat, t: Text, after: Cursor)
    ensures TakeMetadata(input, c, limit) == Done(t, after) <==>
            && |t| <= limit && |t| < U32_LIMIT && At(input, c.offset, WireString(t))
            && after == c.(offset := c.offset + 5 + |t|)
  {
    hide StringLength, BigEndian;
    var next := c.(offset := c.offset + 5);
    StringLengthExact(input, c, limit, |t|, next);
    ReadStringExact(input, next, t, after);
    AtSplit(input, c.offset, [0xDB] + BigEndian(|t|, 4), t);
    assert [0xDB] + BigEndian(|t|, 4) + t == WireString(t);
    if TakeMetadata(input, c, limit).Done? {
      var length := StringLength(input, c, limit);
      StringLengthExact(input, c, limit, length.value, length.cursor);
    }
  }

  lemma TakeStringExact(input: seq<byte>, c: Cursor, limit: nat, t: Text, after: Cursor)
    ensures TakeString(input, c, limit) == Done(t, after) <==>
            && |t| <= limit && |t| < U32_LIMIT && c.content + |t| <= MAX_TOTAL_CONTENT_BYTES
            && At(input, c.offset, WireString(t))
            && after == Cursor(c.offset + 5 + |t|, c.content + |t|, c.values)
  {
    hide StringLength, BigEndian;
    var next := c.(offset := c.offset + 5);
    StringLengthExact(input, c, limit, |t|, next);
    ReadStringExact(input, next.(content := c.content + |t|), t, after);
    AtSplit(input, c.offset, [0xDB] + BigEndian(|t|, 4), t);
    assert [0xDB] + BigEndian(|t|, 4) + t == WireString(t);
    if TakeString(input, c, limit).Done? {
      var length := StringLength(input, c, limit);
      StringLengthExact(input, c, limit, length.value, length.cursor);
    }
  }

  lemma ContainerLengthExact(input: seq<byte>, c: Cursor, n: nat, after: Cursor)
    ensures ContainerLength(input, c) == Done(n, after) <==>
            && n <= MAX_CONTAINER_ENTRIES && At(input, c.offset, [0xDD] + BigEndian(n, 4))
            && after == c.(offset := c.offset + 5)
  {
    hide TakeLength, BigEndian;
    var next := c.(offset := c.offset + 1);
    ExpectExact(input, c, 0xDD, next);
    TakeLengthExact(input, next, n, after);
    AtSplit(input, c.offset, [0xDD], BigEndian(n, 4));
  }

  lemma TakeHandleExact(input: seq<byte>, c: Cursor, h: HandleValue, after: Cursor)
    ensures TakeHandle(input, c) == Done(Handle(h), after) <==>
            && ValidHandle(h) && At(input, c.offset, Payload(Handle(h)))
            && after == c.(offset := c.offset + 24 + |h.typeName|)
  {
    hide TakeUint64, TakeMetadata, WireUint64, WireString, Kebab;
    var c1 := c.(offset := c.offset + 1);
    var c2 := c.(offset := c.offset + 10);
    var c3 := c.(offset := c.offset + 19);
    ExpectExact(input, c, 0x93, c1);
    TakeUint64Exact(input, c1, h.objectId, c2);
    TakeUint64Exact(input, c2, h.generation, c3);
    TakeMetadataExact(input, c3, MAX_METADATA_BYTES, h.typeName, after);
    var tail := WireUint64(h.generation) + WireString(h.typeName);
    AtSplit(input, c.offset, [0x93], WireUint64(h.objectId) + tail);
    AtSplit(input, c1.offset, WireUint64(h.objectId), tail);
    AtSplit(input, c2.offset, WireUint64(h.generation), WireString(h.typeName));
    if TakeHandle(input, c).Done? {
      var r1 := Expect(input, c, 0x93);
      ExpectExact(input, c, 0x93, r1.cursor);
      var r2 := TakeUint64(input, r1.cursor);
      TakeUint64Exact(input, r1.cursor, r2.value, r2.cursor);
      var r3 := TakeUint64(input, r2.cursor);
      TakeUint64Exact(input, r2.cursor, r3.value, r3.cursor);
    }
  }

  lemma TakeByteStringExact(input: seq<byte>, c: Cursor, bytes: seq<byte>, after: Cursor)
    ensures TakeScalar(input, c, 5) == Done(Bytes(bytes), after) <==>
            && |bytes| <= MAX_BYTE_BYTES && c.content + |bytes| <= MAX_TOTAL_CONTENT_BYTES
            && At(input, c.offset, Payload(Bytes(bytes)))
            && after == Cursor(c.offset + 5 + |bytes|, c.content + |bytes|, c.values)
  {
    hide TakeLength, BigEndian, CodeFromWire, TakeHandle, TakeString, TakeMetadata, TakeBits;
    var c1 := c.(offset := c.offset + 1);
    var c2 := c.(offset := c.offset + 5);
    ExpectExact(input, c, 0xC6, c1);
    TakeLengthExact(input, c1, |bytes|, c2);
    AtSplit(input, c.offset, [0xC6], BigEndian(|bytes|, 4) + bytes);
    AtSplit(input, c1.offset, BigEndian(|bytes|, 4), bytes);
    if TakeScalar(input, c, 5).Done? {
      var r1 := Expect(input, c, 0xC6);
      ExpectExact(input, c, 0xC6, r1.cursor);
      var r2 := TakeLength(input, r1.cursor);
      TakeLengthExact(input, r1.cursor, r2.value, r2.cursor);
    }
  }

  /** The kinds without members. */
  lemma NumberExact(input: seq<byte>, c: Cursor, tag: byte, v: Value, after: Cursor)
    requires tag <= 3
    ensures TakeScalar(input, c, tag) == Done(v, after) <==>
            && tag == Tag(v) && Sound(v) && At(input, c.offset, Payload(v))
            && after == c.(offset := c.offset + |Payload(v)|)
  {
    hide At, TakeBits, TakeMetadata, TakeString, BigEndian, Finite, WireString, WireItems, WireEntries;
    var next := c.(offset := c.offset + 1);
    match v
    case Null => ExpectExact(input, c, 0xC0, next);
    case Bool(flag) => ExpectExact(input, c, if flag then 0xC3 else 0xC2, next);
    case Integer(number) =>
      ExpectExact(input, c, 0xD3, next);
      TakeBitsExact(input, next, SignedBits(number), after);
      AtSplit(input, c.offset, [0xD3], BigEndian(SignedBits(number), 8));
    case Float(bits) =>
      ExpectExact(input, c, 0xCB, next);
      TakeBitsExact(input, next, bits, after);
      AtSplit(input, c.offset, [0xCB], BigEndian(bits, 8));
    case _ =>
  }

  lemma ScalarExact(input: seq<byte>, c: Cursor, tag: byte, v: Value, after: Cursor)
    requires tag != 6 && tag != 7 && c.content <= MAX_TOTAL_CONTENT_BYTES
    ensures TakeScalar(input, c, tag) == Done(v, after) <==>
            && tag == Tag(v) && Sound(v) && c.content + Content(v) <= MAX_TOTAL_CONTENT_BYTES
            && At(input, c.offset, Payload(v))
            && after == Cursor(c.offset + |Payload(v)|, c.content + Content(v), c.values)
  {
    hide TakeBits, TakeString, TakeMetadata, TakeUint64, TakeLength, BigEndian, WireCode, CodeFromWire,
         ValidHandle;
    if tag <= 3 {
      NumberExact(input, c, tag, v, after);
    } else if tag == 4 {
      if v.String? {
        TakeStringExact(input, c, MAX_STRING_BYTES, v.text, after);
      }
    } else if tag == 5 {
      if v.Bytes? {
        TakeByteStringExact(input, c, v.bytes, after);
      }
    } else if tag == 8 {
      if v.Handle? {
        TakeHandleExact(input, c, v.handle, after);
      }
    } else if tag == 9 {
      var r := TakeMetadata(input, c, MAX_METADATA_BYTES);
      if r.Done? {
        WireCodeInverse(r.value, if v.Error? then v.code else Internal);
      }
      if v.Error? {
        WireCodeInverse(WireCode(v.code), v.code);
        TakeMetadataExact(input, c, MAX_METADATA_BYTES, WireCode(v.code), after);
      }
    }
  }

  // ---------------------------------------------------------------- values, exactly

  /** Decoding `n` members yields exactly the `n` members that fit and lie there. */
  ghost predicate ItemsAt(input: seq<byte>, c: Cursor, depth: nat, items: seq<Value>, after: Cursor) {
    && ItemsFit(items, depth, c.content, c.values)
    && At(input, c.offset, WireItems(items))
    && after == Cursor(c.offset + |WireItems(items)|, c.content + ItemsContent(items), c.values + ItemsNodes(items))
  }

  ghost predicate EntriesAt(input: seq<byte>, c: Cursor, depth: nat, entries: seq<Entry>, after: Cursor) {
    && EntriesFit(entries, depth, c.content, c.values)
    && At(input, c.offset, WireEntries(entries))
    && after == Cursor(c.offset + |WireEntries(entries)|, c.content + EntriesContent(entries),
                       c.values + EntriesNodes(entries))
  }

  /** A value that fits lies at the cursor, and `after` is the cursor past it. */
  ghost predicate ValueAt(input: seq<byte>, c: Cursor, depth: nat, v: Value, after: Cursor) {
    && Fits(v, depth, c.content, c.values)
    && At(input, c.offset, Wire(v))
    && after == Cursor(c.offset + |Wire(v)|, c.content + Content(v), c.values + Nodes(v))
  }

  lemma NoneAt(input: seq<byte>, c: Cursor, depth: nat, after: Cursor)
    requires c.offset <= |input| && depth <= MAX_DEPTH + 1
    requires c.content <= MAX_TOTAL_CONTENT_BYTES && c.values <= MAX_TOTAL_VALUES
    ensures ItemsAt(input, c, depth, [], after) <==> after == c
    ensures EntriesAt(input, c, depth, [], after) <==> after == c
  {
  }

  lemma WithinContent(input: seq<byte>, c: Cursor, depth: nat, items: seq<Value>, entries: seq<Entry>, after: Cursor)
    ensures ItemsAt(input, c, depth, items, after) ==> after.content <= MAX_TOTAL_CONTENT_BYTES
    ensures EntriesAt(input, c, depth, entries, after) ==> after.content <= MAX_TOTAL_CONTENT_BYTES
  {
  }

  /** The list analogue of one append step, split at the last member. */
  lemma ItemsAtStep(input: seq<byte>, c: Cursor, depth: nat, items: seq<Value>, mid: Cursor, after: Cursor)
    requires items != []
    requires mid == Cursor(c.offset + |WireItems(items[..|items| - 1])|,
                           c.content + ItemsContent(items[..|items| - 1]),
                           c.values + ItemsNodes(items[..|items| - 1]))
    ensures ItemsAt(input, c, depth, items, after) <==>
            && ItemsAt(input, c, depth, items[..|items| - 1], mid)
            && ValueAt(input, mid, depth, items[|items| - 1], after)
  {
    hide Fits, ItemsFit, Wire, Nodes, Content, Height, At;
    var n := |items| - 1;
    assert items[..n + 1] == items;
    ItemsFitStep(items, n, depth, c.content, c.values);
    ItemsStep(items, n);
    AtSplit(input, c.offset, WireItems(items[..n]), Wire(items[n]));
  }

  lemma {:induction false} ItemsExact(input: seq<byte>, c: Cursor, depth: nat, n: nat, items: seq<Value>, after: Cursor)
    requires c.offset <= |input| && depth <= MAX_DEPTH + 1
    requires c.content <= MAX_TOTAL_CONTENT_BYTES && c.values <= MAX_TOTAL_VALUES
    ensures DecodeItems(input, c, depth, n) == Done(items, after) <==>
            |items| == n && ItemsAt(input, c, depth, items, after)
    decreases if depth <= MAX_DEPTH then MAX_DEPTH + 1 - depth else 0, n + 1
  {
    hide ItemsFit, At, ValueAt, WireItems, ItemsContent, ItemsNodes, DecodeValue;
    if n == 0 {
      NoneAt(input, c, depth, after);
    } else {
      var shorter := DecodeItems(input, c, depth, n - 1);
      if |items| == n {
        var init, last := items[..n - 1], items[n - 1];
        var mid := Cursor(c.offset + |WireItems(init)|, c.content + ItemsContent(init), c.values + ItemsNodes(init));
        assert items == init + [last];
        if shorter.Done? {
          assert forall x: Value :: (shorter.value + [x])[..n - 1] == shorter.value;
        }
        ItemsAtStep(input, c, depth, items, mid, after);
        ItemsExact(input, c, depth, n - 1, init, mid);
        WithinContent(input, c, depth, init, [], mid);
        if mid.content <= MAX_TOTAL_CONTENT_BYTES {
          ValueExact(input, mid, depth, last, after);
        }
      }
      if shorter.Done? {
        ItemsExact(input, c, depth, n - 1, shorter.value, shorter.cursor);
      }
    }
  }

  /** One entry: a two-element array of a fresh key and a value. */
  ghost predicate EntryAt(input: seq<byte>, c: Cursor, depth: nat, e: Entry, after: Cursor) {
    && |e.key| <= MAX_STRING_BYTES
    && Fits(e.value, depth, c.content + |e.key|, c.values)
    && At(input, c.offset, WireEntry(e))
    && after == Cursor(c.offset + |WireEntry(e)|, c.content + |e.key| + Content(e.value), c.values + Nodes(e.value))
  }

  function DecodeEntry(input: seq<byte>, c: Cursor, depth: nat): Decoded<Entry> {
    var (key, c) :- DecodeKey(input, c);
    var (value, c) :- DecodeValue(input, c, depth);
    Done(Entry(key, value), c)
  }

  lemma EntriesAtStep(input: seq<byte>, c: Cursor, depth: nat, entries: seq<Entry>, mid: Cursor, after: Cursor)
    requires entries != []
    requires mid == Cursor(c.offset + |WireEntries(entries[..|entries| - 1])|,
                           c.content + EntriesContent(entries[..|entries| - 1]),
                           c.values + EntriesNodes(entries[..|entries| - 1]))
    ensures EntriesAt(input, c, depth, entries, after) <==>
            && EntriesAt(input, c, depth, entries[..|entries| - 1], mid)
            && EntryAt(input, mid, depth, entries[|entries| - 1], after)
            && (forall i | 0 <= i < |entries| - 1 :: entries[i].key != entries[|entries| - 1].key)
  {
    hide Fits, EntriesFit, WireEntry, Nodes, Content, Height, At;
    var n := |entries| - 1;
    assert entries[..n + 1] == entries;
    EntriesFitStep(entries, n, depth, c.content, c.values);
    EntriesStep(entries, n);
    AtSplit(input, c.offset, WireEntries(entries[..n]), WireEntry(entries[n]));
  }

  lemma {:induction false} EntryExact(input: seq<byte>, c: Cursor, depth: nat, e: Entry, after: Cursor)
    requires c.content <= MAX_TOTAL_CONTENT_BYTES
    ensures DecodeEntry(input, c, depth) == Done(e, after) <==> EntryAt(input, c, depth, e, after)
    decreases if depth <= MAX_DEPTH then MAX_DEPTH + 1 - depth else 0, 1
  {
    hide TakeString, WireString, DecodeValue, Wire, Nodes, Content, Height, Sound;
    var c1 := c.(offset := c.offset + 1);
    var c2 := Cursor(c.offset + 6 + |e.key|, c.content + |e.key|, c.values);
    ExpectExact(input, c, 0x92, c1);
    AtSplit(input, c.offset, [0x92], WireString(e.key) + Wire(e.value));
    AtSplit(input, c1.offset, WireString(e.key), Wire(e.value));
    TakeStringExact(input, c1, MAX_STRING_BYTES, e.key, c2);
    if c2.content <= MAX_TOTAL_CONTENT_BYTES {
      ValueExact(input, c2, depth, e.value, after);
    }
    var key := TakeString(input, c1, MAX_STRING_BYTES);
    if DecodeEntry(input, c, depth).Done? {
      TakeStringExact(input, c1, MAX_STRING_BYTES, key.value, key.cursor);
    }
  }

  lemma {:induction false} EntriesExact(
    input: seq<byte>, c: Cursor, depth: nat, n: nat, entries: seq<Entry>, after: Cursor)
    requires c.offset <= |input| && depth <= MAX_DEPTH + 1
    requires c.content <= MAX_TOTAL_CONTENT_BYTES && c.values <= MAX_TOTAL_VALUES
    ensures DecodeEntries(input, c, depth, n) == Done(entries, after) <==>
            |entries| == n && EntriesAt(input, c, depth, entries, after)
    decreases if depth <= MAX_DEPTH then MAX_DEPTH + 1 - depth else 0, n + 1
  {
    hide EntriesFit, At, EntryAt, DecodeEntry, WireEntries, EntriesContent, EntriesNodes, DecodeKey, DecodeValue;
    if n == 0 {
      NoneAt(input, c, depth, after);
    } else {
      var shorter := DecodeEntries(input, c, depth, n - 1);
      EntriesUnfold(input, c, depth, n, entries, after);
      if |entries| == n {
        var init, last := entries[..n - 1], entries[n - 1];
        var mid := Cursor(
          c.offset + |WireEntries(init)|, c.content + EntriesContent(init), c.values + EntriesNodes(init));
        EntriesAtStep(input, c, depth, entries, mid, after);
        EntriesExact(input, c, depth, n - 1, init, mid);
        WithinContent(input, c, depth, [], init, mid);
        if mid.content <= MAX_TOTAL_CONTENT_BYTES {
          EntryExact(input, mid, depth, last, after);
        }
      }
      if shorter.Done? {
        EntriesExact(input, c, depth, n - 1, shorter.value, shorter.cursor);
      }
    }
  }

  /** The map loop in terms of whole entries: checking the key before or after reading the
      value makes no difference to what is accepted. */
  lemma EntriesUnfold(input: seq<byte>, c: Cursor, depth: nat, n: nat, entries: seq<Entry>, after: Cursor)
    requires n > 0
    ensures DecodeEntries(input, c, depth, n) == Done(entries, after) <==>
            && |entries| == n
            && DecodeEntries(input, c, depth, n - 1).Done?
            && DecodeEntries(input, c, depth, n - 1).value == entries[..n - 1]
            && (forall i | 0 <= i < n - 1 :: entries[i].key != entries[n - 1].key)
            && DecodeEntry(input, DecodeEntries(input, c, depth, n - 1).cursor, depth) == Done(entries[n - 1], after)
  {
    hide DecodeEntries, DecodeEntry;
    EntriesLast(input, c, depth, n);
    var shorter := DecodeEntries(input, c, depth, n - 1);
    if shorter.Done? {
      var last := DecodeEntry(input, shorter.cursor, depth);
      if last.Done? {
        SnocIs(shorter.value, last.value, entries);
      }
    }
  }

  /** A list is `init` and `last` exactly when its parts are. */
  lemma SnocIs(init: seq<Entry>, last: Entry, entries: seq<Entry>)
    ensures init + [last] == entries <==>
            |entries| == |init| + 1 && init == entries[..|entries| - 1] && last == entries[|entries| - 1]
  {
    if |entries| == |init| + 1 {
      assert entries == entries[..|entries| - 1] + [entries[|entries| - 1]];
    }
  }

  /** The loop's last round. */
  lemma EntriesLast(input: seq<byte>, c: Cursor, depth: nat, n: nat)
    requires n > 0
    ensures DecodeEntries(input, c, depth, n) == LastRound(input, DecodeEntries(input, c, depth, n - 1), depth)
  {
    hide DecodeKey, DecodeValue;
    var shorter := DecodeEntries(input, c, depth, n - 1);
    if shorter.Done? {
      var key := DecodeKey(input, shorter.cursor);
      if key.Done? {
        var value := DecodeValue(input, key.cursor, depth);
      }
    }
  }

  function LastRound(input: seq<byte>, shorter: Decoded<seq<Entry>>, depth: nat): Decoded<seq<Entry>> {
    var (entries, c) :- shorter;
    var (e, c) :- DecodeEntry(input, c, depth);
    if exists i | 0 <= i < |entries| :: entries[i].key == e.key then Failed else Done(entries + [e], c)
  }

  /** The two header bytes of a node, and where its payload starts. */
  lemma HeadAt(input: seq<byte>, offset: nat, v: Value)
    ensures At(input, offset, Wire(v)) <==>
            && offset + 1 < |input| && input[offset] == 0x92 && input[offset + 1] == Tag(v)
            && At(input, offset + 2, Payload(v))
  {
    hide Payload, Tag;
    AtSplit(input, offset, [0x92, Tag(v)], Payload(v));
    if offset + 1 < |input| {
      assert input[offset..offset + 2] == [input[offset], input[offset + 1]];
    }
  }

  /** A container's payload: its length, then its members. */
  lemma ContainerAt(input: seq<byte>, offset: nat, n: nat, members: seq<byte>)
    ensures At(input, offset, [0xDD] + (BigEndian(n, 4) + members)) <==>
            At(input, offset, [0xDD] + BigEndian(n, 4)) && At(input, offset + 5, members)
  {
    hide BigEndian;
    assert [0xDD] + (BigEndian(n, 4) + members) == ([0xDD] + BigEndian(n, 4)) + members;
    AtSplit(input, offset, [0xDD] + BigEndian(n, 4), members);
  }

  lemma {:induction false} ArrayExact(input: seq<byte>, c: Cursor, depth: nat, items: seq<Value>, after: Cursor)
    requires c.content <= MAX_TOTAL_CONTENT_BYTES && c.values <= MAX_TOTAL_VALUES && depth <= MAX_DEPTH + 1
    ensures DecodeArray(input, c, depth) == Done(items, after) <==>
            && |items| <= MAX_CONTAINER_ENTRIES
            && At(input, c.offset, [0xDD] + BigEndian(|items|, 4))
            && ItemsAt(input, c.(offset := c.offset + 5), depth, items, after)
    decreases if depth <= MAX_DEPTH then MAX_DEPTH + 1 - depth else 0, MAX_CONTAINER_ENTRIES + 2
  {
    hide ItemsAt, BigEndian, DecodeItems, ContainerLength;
    var next := c.(offset := c.offset + 5);
    ContainerLengthExact(input, c, |items|, next);
    var length := ContainerLength(input, c);
    if length.Done? {
      ContainerLengthExact(input, c, length.value, length.cursor);
      ItemsExact(input, length.cursor, depth, length.value, items, after);
    }
  }

  lemma {:induction false} MapExact(input: seq<byte>, c: Cursor, depth: nat, entries: seq<Entry>, after: Cursor)
    requires c.content <= MAX_TOTAL_CONTENT_BYTES && c.values <= MAX_TOTAL_VALUES && depth <= MAX_DEPTH + 1
    ensures DecodeMap(input, c, depth) == Done(entries, after) <==>
            && |entries| <= MAX_CONTAINER_ENTRIES
            && At(input, c.offset, [0xDD] + BigEndian(|entries|, 4))
            && EntriesAt(input, c.(offset := c.offset + 5), depth, entries, after)
    decreases if depth <= MAX_DEPTH then MAX_DEPTH + 1 - depth else 0, MAX_CONTAINER_ENTRIES + 2
  {
    hide EntriesAt, BigEndian, DecodeEntries, ContainerLength;
    var next := c.(offset := c.offset + 5);
    ContainerLengthExact(input, c, |entries|, next);
    var length := ContainerLength(input, c);
    if length.Done? {
      ContainerLengthExact(input, c, length.value, length.cursor);
      EntriesExact(input, length.cursor, depth, length.value, entries, after);
    }
  }

  /** The decoder accepts a value at the cursor exactly when the value fits and its wire form
      is there; it then stops at the end of that form, having spent what the value costs. */
  lemma {:induction false} ValueExact(input: seq<byte>, c: Cursor, depth: nat, v: Value, after: Cursor)
    requires c.content <= MAX_TOTAL_CONTENT_BYTES
    ensures DecodeValue(input, c, depth) == Done(v, after) <==> ValueAt(input, c, depth, v, after)
    decreases if depth <= MAX_DEPTH then MAX_DEPTH + 1 - depth else 0, 0
  {
    hide DecodeArray, DecodeMap, TakeScalar, ItemsFit, EntriesFit, WireItems, WireEntries, BigEndian, WireCode;
    if depth > MAX_DEPTH || c.values >= MAX_TOTAL_VALUES {
      return;
    }
    HeadAt(input, c.offset, v);
    ContainerFits(v, depth, c.content, c.values);
    var body := Cursor(c.offset + 2, c.content, c.values + 1);
    if c.offset + 1 < |input| && input[c.offset] == 0x92 {
      var tag := input[c.offset + 1];
      assert DecodeValue(input, c, depth) ==
             if tag == 6 then (var r := DecodeArray(input, body, depth + 1);
                               if r.Done? then Done(Array(r.value), r.cursor) else Failed)
             else if tag == 7 then (var r := DecodeMap(input, body, depth + 1);
                                    if r.Done? then Done(Map(r.value), r.cursor) else Failed)
             else TakeScalar(input, body, tag);
      if tag == 6 {
        if v.Array? {
          ArrayExact(input, body, depth + 1, v.items, after);
          ContainerAt(input, body.offset, |v.items|, WireItems(v.items));
        }
      } else if tag == 7 {
        if v.Map? {
          MapExact(input, body, depth + 1, v.entries, after);
          ContainerAt(input, body.offset, |v.entries|, WireEntries(v.entries));
        }
      } else {
        ScalarExact(input, body, tag, v, after);
      }
    }
  }

  // ---------------------------------------------------------------- whole payloads

  /** Encoder and decoder are exact inverses with one accept set: the accepted byte strings are
      exactly the encodings, and each is the encoding of what it decodes to. */
  lemma FromWireExact(input: seq<byte>, v: Value)
    ensures FromWire(input) == Ok(v) <==> ToWire(v) == Ok(input)
  {
    hide Fits, DecodeValue, Wire, Content, Nodes;
    var c := Cursor(0, 0, 0);
    var r := DecodeValue(input, c, 0);
    if r.Done? {
      ValueExact(input, c, 0, r.value, r.cursor);
    }
    ValueExact(input, c, 0, v, Cursor(|Wire(v)|, Content(v), Nodes(v)));
    if r.Done? && r.cursor.offset == |input| {
      assert input[0..|input|] == input;
    }
    if Wire(v) == input {
      assert input[0..|input|] == input;
    }
  }

  /** Decoding is canonical: re-encoding an accepted payload gives back the same bytes. */
  lemma DecodeThenEncode(input: seq<byte>)
    requires FromWire(input).Ok?
    ensures ToWire(FromWire(input).value) == Ok(input)
  {
    FromWireExact(input, FromWire(input).value);
  }

  lemma EncodeThenDecode(v: Value)
    requires ToWire(v).Ok?
    ensures FromWire(ToWire(v).value) == Ok(v)
  {
    FromWireExact(ToWire(v).value, v);
  }

  /** Encodings are self-delimiting: inside any longer input, after any earlier reading that
      left room, the decoder returns the tree and stops exactly at the end of its encoding. */
  lemma SelfDelimiting(pre: seq<byte>, v: Value, post: seq<byte>, depth: nat, content: nat, values: nat)
    requires Fits(v, depth, content, values)
    ensures DecodeValue(pre + Wire(v) + post, Cursor(|pre|, content, values), depth) ==
            Done(v, Cursor(|pre| + |Wire(v)|, content + Content(v), values + Nodes(v)))
  {
    hide DecodeValue, Wire, Content, Nodes, Height, Sound;
    AtEmbedded(pre, Wire(v), post);
    ValueExact(pre + Wire(v) + post, Cursor(|pre|, content, values), depth, v,
               Cursor(|pre| + |Wire(v)|, content + Content(v), values + Nodes(v)));
  }

  /** No encoding is a proper prefix of another. */
  lemma PrefixFree(v: Value, w: Value)
    requires Encodable(v) && Encodable(w) && Wire(v) <= Wire(w)
    ensures v == w
  {
    hide Fits, DecodeValue, Wire;
    var post := Wire(w)[|Wire(v)|..];
    assert [] + Wire(v) + post == Wire(w);
    assert [] + Wire(w) + [] == Wire(w);
    SelfDelimiting([], v, post, 0, 0, 0);
    SelfDelimiting([], w, [], 0, 0, 0);
  }
}
