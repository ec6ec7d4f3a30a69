/**
 The decoder as the class that moves an offset and two running totals, proved against the
 pure functions of module Decoding. A ghost counter bounds its work on every input,
 accepted or not.
 */
module DecoderClass {
  import opened Bytes
  import opened BridgeValue
  import D = Decoding
  import E = Encoding

  type Cursor = D.Cursor

  /** A method's answer and the fields it left behind are what the pure function says. */
  ghost predicate Agrees<T>(r: Option<T>, spec: D.Decoded<T>, here: Cursor) {
    match spec
    case Done(value, cursor) => r == Some(value) && here == cursor
    case Failed => r == None
  }

  function KeySet(entries: seq<Entry>): set<Text> {
    set k | 0 <= k < |entries| :: entries[k].key
  }

  lemma KeySetGrows(entries: seq<Entry>, e: Entry)
    ensures KeySet(entries + [e]) == KeySet(entries) + {e.key}
  {
    var longer := entries + [e];
    assert longer[|entries|] == e;
    assert forall k | 0 <= k < |entries| :: longer[k] == entries[k];
  }

  class Decoder {
    const input: seq<byte>
    var offset: nat
    var contentBytes: nat
    var values: nat
    /** How often `Value` was entered. */
    ghost var calls: nat
    /** The greatest depth it was entered at. */
    ghost var deepest: nat

    /** A slice is shorter than the address space, and the offset never passes its end. */
    ghost predicate Valid()
      reads this
    {
      offset <= |input| < E.USIZE_LIMIT
    }

    constructor (input: seq<byte>)
      requires |input| < E.USIZE_LIMIT
      ensures Valid()
      ensures this.input == input && Here() == D.Cursor(0, 0, 0) && calls == 0 && deepest == 0
    {
      this.input := input;
      offset, contentBytes, values := 0, 0, 0;
      calls, deepest := 0, 0;
    }

    function Here(): Cursor
      reads this
    {
      D.Cursor(offset, contentBytes, values)
    }

    // -------------------------------------------------------------- reading steps

    method Byte() returns (r: Option<byte>)
      requires Valid()
      modifies this`offset
      ensures Agrees(r, D.TakeByte(input, old(Here())), Here())
      ensures Valid() && old(offset) <= offset
    {
      if offset >= |input| {
        return None;
      }
      r := Some(input[offset]);
      offset := offset + 1;
    }

    method Expect(expected: byte) returns (r: Option<()>)
      requires Valid()
      modifies this`offset
      ensures Agrees(r, D.Expect(input, old(Here()), expected), Here())
      ensures Valid() && old(offset) <= offset
    {
      var b := Byte();
      r := if b == Some(expected) then Some(()) else None;
    }

    method Take(length: nat) returns (r: Option<seq<byte>>)
      requires Valid()
      modifies this`offset
      ensures Agrees(r, D.Take(input, old(Here()), length), Here())
      ensures Valid() && old(offset) <= offset
    {
      if offset + length >= E.USIZE_LIMIT || offset + length > |input| {
        return None;
      }
      r := Some(input[offset..offset + length]);
      offset := offset + length;
    }

    method Length() returns (r: Option<nat>)
      requires Valid()
      modifies this`offset
      ensures Agrees(r, D.TakeLength(input, old(Here())), Here())
      ensures Valid() && old(offset) <= offset
    {
      var bytes := Take(4);
      r := if bytes.Some? then Some(FromBigEndian(bytes.value)) else None;
    }

    method Bits() returns (r: Option<u64>)
      requires Valid()
      modifies this`offset
      ensures Agrees(r, D.TakeBits(input, old(Here())), Here())
      ensures Valid() && old(offset) <= offset
    {
      var bytes := Take(8);
      if bytes.Some? {
        BigEndianCanonical(bytes.value);
        FixedPowers();
        r := Some(FromBigEndian(bytes.value));
      } else {
        r := None;
      }
    }

    method Uint64() returns (r: Option<u64>)
      requires Valid()
      modifies this`offset
      ensures Agrees(r, D.TakeUint64(input, old(Here())), Here())
      ensures Valid() && old(offset) <= offset
    {
      var tag := Expect(0xCF);
      if tag == None {
        return None;
      }
      r := Bits();
    }

    method AddContent(length: nat, limit: nat) returns (r: Option<()>)
      modifies this`contentBytes
      ensures Agrees(r, D.AddContent(old(Here()), length, limit), Here())
    {
      if length > limit || contentBytes + length >= E.USIZE_LIMIT {
        return None;
      }
      contentBytes := contentBytes + length;
      r := if contentBytes > MAX_TOTAL_CONTENT_BYTES then None else Some(());
    }

    method StringLength(limit: nat) returns (r: Option<nat>)
      requires Valid()
      modifies this`offset
      ensures Agrees(r, D.StringLength(input, old(Here()), limit), Here())
      ensures Valid() && old(offset) <= offset
    {
      var tag := Expect(0xDB);
      if tag == None {
        return None;
      }
      r := Length();
      if r.Some? && r.value > limit {
        r := None;
      }
    }

    method ReadString(length: nat) returns (r: Option<Text>)
      requires Valid()
      modifies this`offset
      ensures Agrees(r, D.ReadString(input, old(Here()), length), Here())
      ensures Valid() && old(offset) <= offset
    {
      var bytes := Take(length);
      r := if bytes.Some? && Utf8(bytes.value) then Some(bytes.value) else None;
    }

    method String(limit: nat) returns (r: Option<Text>)
      requires Valid()
      modifies this`offset, this`contentBytes
      ensures Agrees(r, D.TakeString(input, old(Here()), limit), Here())
      ensures Valid() && old(offset) <= offset
    {
      var length := StringLength(limit);
      if length == None {
        return None;
      }
      var budget := AddContent(length.value, limit);
      if budget == None {
        return None;
      }
      r := ReadString(length.value);
    }

    method MetadataString(limit: nat) returns (r: Option<Text>)
      requires Valid()
      modifies this`offset
      ensures Agrees(r, D.TakeMetadata(input, old(Here()), limit), Here())
      ensures Valid() && old(offset) <= offset
    {
      var length := StringLength(limit);
      if length == None {
        return None;
      }
      r := ReadString(length.value);
    }

    method ContainerLength() returns (r: Option<nat>)
      requires Valid()
      modifies this`offset
      ensures Agrees(r, D.ContainerLength(input, old(Here())), Here())
      ensures r.Some? ==> offset == old(offset) + 5
      ensures Valid() && old(offset) <= offset
    {
      var tag := Expect(0xDD);
      if tag == None {
        return None;
      }
      r := Length();
      if r.Some? && r.value > MAX_CONTAINER_ENTRIES {
        r := None;
      }
    }

    method HandleFields() returns (r: Option<Value>)
      requires Valid()
      modifies this`offset
      ensures Agrees(r, D.TakeHandle(input, old(Here())), Here())
      ensures Valid() && old(offset) <= offset
    {
      var tag := Expect(0x93);
      if tag == None {
        return None;
      }
      var objectId := Uint64();
      if objectId == None {
        return None;
      }
      var generation := Uint64();
      if generation == None {
        return None;
      }
      var typeName := MetadataString(MAX_METADATA_BYTES);
      if typeName == None {
        return None;
      }
      var handle := HandleValue(objectId.value, generation.value, typeName.value);
      var ok := E.HandleIsValid(handle);
      r := if ok then Some(Handle(handle)) else None;
    }

    // -------------------------------------------------------------- values

    /** The branches without members. */
    method Scalar(tag: byte) returns (r: Option<Value>)
      requires Valid()
      modifies this`offset, this`contentBytes
      ensures Agrees(r, D.TakeScalar(input, old(Here()), tag), Here())
      ensures Valid() && old(offset) <= offset
      ensures r.Some? ==> old(offset) < offset
    {
      hide WireCode, CodeFromWire, ValidHandle;
      if tag <= 3 {
        r := Number(tag);
      } else if tag == 4 {
        var text := String(MAX_STRING_BYTES);
        r := if text.Some? then Some(BridgeValue.String(text.value)) else None;
      } else if tag == 5 {
        r := ByteString();
      } else if tag == 8 {
        r := HandleFields();
      } else if tag == 9 {
        var encoded := MetadataString(MAX_METADATA_BYTES);
        if encoded == None {
          return None;
        }
        var code := CodeFromWire(encoded.value);
        r := if code.Some? then Some(Error(code.value)) else None;
      } else {
        r := None;
      }
    }

    method Number(tag: byte) returns (r: Option<Value>)
      requires Valid() && tag <= 3
      modifies this`offset
      ensures Agrees(r, D.TakeScalar(input, old(Here()), tag), Here())
      ensures Valid() && old(offset) <= offset
    {
      var expected := if tag == 0 then 0xC0 else if tag == 2 then 0xD3 else 0xCB;
      if tag == 1 {
        var flag := Byte();
        return if flag == Some(0xC2) then Some(Bool(false)) else if flag == Some(0xC3) then Some(Bool(true)) else None;
      }
      var head := Expect(expected);
      if head == None {
        return None;
      }
      if tag == 0 {
        return Some(Null);
      }
      var bits := Bits();
      if bits == None {
        return None;
      }
      if tag == 2 {
        r := Some(Integer(FromSignedBits(bits.value)));
      } else {
        r := if Finite(bits.value) then Some(Float(bits.value)) else None;
      }
    }

    method ByteString() returns (r: Option<Value>)
      requires Valid()
      modifies this`offset, this`contentBytes
      ensures Agrees(r, D.TakeScalar(input, old(Here()), 5), Here())
      ensures Valid() && old(offset) <= offset
    {
      var tag := Expect(0xC6);
      if tag == None {
        return None;
      }
      var length := Length();
      if length == None {
        return None;
      }
      var budget := AddContent(length.value, MAX_BYTE_BYTES);
      if budget == None {
        return None;
      }
      var bytes := Take(length.value);
      r := if bytes.Some? then Some(Bytes(bytes.value)) else None;
    }

    /** Each call that succeeds has read at least three bytes and been counted; at most the last
        call of a rejected input has done neither. */
    method Value(depth: nat) returns (r: Option<Value>)
      requires Valid() && values <= MAX_TOTAL_VALUES
      modifies this
      ensures Agrees(r, D.DecodeValue(input, old(Here()), depth), Here())
      ensures Valid() && old(offset) <= offset
      ensures old(values) <= values <= MAX_TOTAL_VALUES
      ensures 3 * (calls - old(calls)) <= offset - old(offset) + (if r.Some? then 0 else 3)
      ensures calls - old(calls) <= values - old(values) + (if r.Some? then 0 else 1)
      ensures old(deepest) <= deepest <= Max(old(deepest), Max(depth, MAX_DEPTH + 1))
      decreases if depth <= MAX_DEPTH then MAX_DEPTH + 1 - depth else 0, 0
    {
      hide D.DecodeArray, D.DecodeMap, D.TakeScalar;
      calls, deepest := calls + 1, Max(deepest, depth);
      if depth > MAX_DEPTH || values >= MAX_TOTAL_VALUES {
        return None;
      }
      values := values + 1;
      var head := Expect(0x92);
      if head == None {
        return None;
      }
      var tag := Byte();
      if tag == None {
        return None;
      }
      if tag.value == 6 {
        var items := Items(depth + 1);
        r := if items.Some? then Some(Array(items.value)) else None;
      } else if tag.value == 7 {
        var entries := Entries(depth + 1);
        r := if entries.Some? then Some(Map(entries.value)) else None;
      } else {
        r := Scalar(tag.value);
      }
    }

    method Items(depth: nat) returns (r: Option<seq<Value>>)
      requires Valid() && values <= MAX_TOTAL_VALUES
      modifies this
      ensures Agrees(r, D.DecodeArray(input, old(Here()), depth), Here())
      ensures Valid() && old(offset) <= offset
      ensures old(values) <= values <= MAX_TOTAL_VALUES
      ensures 3 * (calls - old(calls)) + 5 <= offset - old(offset) + (if r.Some? then 0 else 3) || calls == old(calls)
      ensures r.Some? ==> old(offset) + 5 <= offset
      ensures calls - old(calls) <= values - old(values) + (if r.Some? then 0 else 1)
      ensures old(deepest) <= deepest <= Max(old(deepest), Max(depth, MAX_DEPTH + 1))
      decreases if depth <= MAX_DEPTH then MAX_DEPTH + 1 - depth else 0, 1
    {
      hide D.ContainerLength, D.DecodeValue, D.DecodeKey;
      var length := ContainerLength();
      if length == None {
        return None;
      }
      ghost var start := Here();
      var items: seq<Value> := [];
      for i := 0 to length.value
        invariant Valid() && old(offset) + 5 <= offset && old(values) <= values <= MAX_TOTAL_VALUES
        invariant D.DecodeItems(input, start, depth, i) == D.Done(items, Here())
        invariant 3 * (calls - old(calls)) + 5 <= offset - old(offset)
        invariant calls - old(calls) <= values - old(values)
        invariant old(deepest) <= deepest <= Max(old(deepest), Max(depth, MAX_DEPTH + 1))
      {
        ItemsCanFail(start, depth, i, length.value);
        var item := Value(depth);
        if item == None {
          return None;
        }
        items := items + [item.value];
      }
      r := Some(items);
    }

    method Key() returns (r: Option<Text>)
      requires Valid()
      modifies this`offset, this`contentBytes
      ensures Agrees(r, D.DecodeKey(input, old(Here())), Here())
      ensures Valid() && old(offset) <= offset
    {
      var head := Expect(0x92);
      if head == None {
        return None;
      }
      r := String(MAX_STRING_BYTES);
    }

    /** Stopping the loop at member `i` gives the answer of the whole loop. */
    lemma ItemsCanFail(start: Cursor, depth: nat, i: nat, n: nat)
      requires i < n
      ensures D.DecodeItems(input, start, depth, i + 1).Failed? ==> D.DecodeItems(input, start, depth, n).Failed?
    {
      if D.DecodeItems(input, start, depth, i + 1).Failed? {
        D.ItemsFailEarly(input, start, depth, i + 1, n);
      }
    }

    lemma EntriesCanFail(start: Cursor, depth: nat, i: nat, n: nat)
      requires i < n
      ensures D.DecodeEntries(input, start, depth, i + 1).Failed? ==> D.DecodeEntries(input, start, depth, n).Failed?
    {
      if D.DecodeEntries(input, start, depth, i + 1).Failed? {
        D.EntriesFailEarly(input, start, depth, i + 1, n);
      }
    }

    method Entries(depth: nat) returns (r: Option<seq<Entry>>)
      requires Valid() && values <= MAX_TOTAL_VALUES
      modifies this
      ensures Agrees(r, D.DecodeMap(input, old(Here()), depth), Here())
      ensures Valid() && old(offset) <= offset
      ensures old(values) <= values <= MAX_TOTAL_VALUES
      ensures 3 * (calls - old(calls)) + 5 <= offset - old(offset) + (if r.Some? then 0 else 3) || calls == old(calls)
      ensures r.Some? ==> old(offset) + 5 <= offset
      ensures calls - old(calls) <= values - old(values) + (if r.Some? then 0 else 1)
      ensures old(deepest) <= deepest <= Max(old(deepest), Max(depth, MAX_DEPTH + 1))
      decreases if depth <= MAX_DEPTH then MAX_DEPTH + 1 - depth else 0, 1
    {
      hide D.ContainerLength, D.DecodeValue, D.DecodeKey;
      var length := ContainerLength();
      if length == None {
        return None;
      }
      ghost var start := Here();
      var entries: seq<Entry> := [];
      var keys: set<Text> := {};
      for i := 0 to length.value
        invariant Valid() && old(offset) + 5 <= offset && old(values) <= values <= MAX_TOTAL_VALUES
        invariant D.DecodeEntries(input, start, depth, i) == D.Done(entries, Here())
        invariant 3 * (calls - old(calls)) + 5 <= offset - old(offset)
        invariant calls - old(calls) <= values - old(values)
        invariant old(deepest) <= deepest <= Max(old(deepest), Max(depth, MAX_DEPTH + 1))
        invariant keys == KeySet(entries)
      {
        EntriesCanFail(start, depth, i, length.value);
        var key := Key();
        if key == None {
          return None;
        }
        if key.value in keys {
          return None;
        }
        keys := keys + {key.value};
        var value := Value(depth);
        if value == None {
          return None;
        }
        KeySetGrows(entries, Entry(key.value, value.value));
        entries := entries + [Entry(key.value, value.value)];
      }
      r := Some(entries);
    }
  }

  /** `Value::from_wire`: its answer, and bounds on how many nodes any input makes it enter and how deep
      it recurses. */
  method FromWire(input: seq<byte>) returns (r: Result<Value>, ghost calls: nat, ghost deepest: nat)
    requires |input| < E.USIZE_LIMIT
    ensures r == D.FromWire(input)
    ensures calls <= MAX_TOTAL_VALUES + 1 && 3 * calls <= |input| + 3
    ensures deepest <= MAX_DEPTH + 1
  {
    var decoder := new Decoder(input);
    var v := decoder.Value(0);
    r := if v.Some? && decoder.offset == |input| then Ok(v.value) else Err(InvalidResult);
    calls, deepest := decoder.calls, decoder.deepest;
  }
}
