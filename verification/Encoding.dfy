/**
 The Bridge Value v1 encoder. It writes as it walks and stops at the first limit it meets;
 its contract says that this accepts exactly the trees of the order-free `Fits`.
 */
module Encoding {
  import opened Bytes
  import opened BridgeValue

  const USIZE_LIMIT: int := 0x1_0000_0000_0000_0000

  method HandleIsValid(h: HandleValue) returns (ok: bool)
    ensures ok == ValidHandle(h)
  {
    var nameOk := IsValidTypeName(h.typeName);
    ok := !(h.objectId == 0 || h.generation == 0 || h.objectId >= I64_LIMIT || h.generation >= I64_LIMIT
            || !nameOk || |h.typeName| > MAX_METADATA_BYTES);
  }

  /** The scanner with the `separator` flag. */
  method IsValidTypeName(name: seq<byte>) returns (ok: bool)
    ensures ok == ValidTypeName(name)
  {
    if name == [] || |name| > MAX_METADATA_BYTES {
      return false;
    }
    if !Lower(name[0]) {
      return false;
    }
    var separator := false;
    for i := 1 to |name|
      invariant separator == Separator(name[i - 1], true)
      invariant forall k | 0 <= k < i :: Alphanumeric(name[k]) || Separator(name[k], true)
      invariant forall k | 0 < k < i :: !(Separator(name[k - 1], true) && Separator(name[k], true))
    {
      if name[i] == 0x2E || name[i] == 0x2D {
        if separator {
          return false;
        }
        separator := true;
      } else if Alphanumeric(name[i]) {
        separator := false;
      } else {
        return false;
      }
    }
    return !separator;
  }

  class Encoder {
    var output: seq<byte>
    var contentBytes: nat
    var values: nat

    constructor ()
      ensures output == [] && contentBytes == 0 && values == 0
    {
      output := [];
      contentBytes, values := 0, 0;
    }

    /** No limit has been passed yet; once one is, the encoder is thrown away. */
    predicate Open()
      reads this
    {
      contentBytes <= MAX_TOTAL_CONTENT_BYTES
    }

    /** Succeeds exactly when the tree fits; then it appends exactly the tree's wire form and
        advances the totals by exactly the tree's cost. */
    method Value(v: Value, depth: nat) returns (ok: bool)
      requires Open()
      modifies this
      ensures ok <==> Fits(v, depth, old(contentBytes), old(values))
      ensures ok ==> Open()
      ensures ok ==> output == old(output) + Wire(v)
      ensures ok ==> contentBytes == old(contentBytes) + Content(v) && values == old(values) + Nodes(v)
      decreases v, 1
    {
      hide Payload, Sound, Content;
      if depth > MAX_DEPTH || values >= MAX_TOTAL_VALUES {
        return false;
      }
      values := values + 1;
      output := output + [0x92, Tag(v)];
      ok := Body(v, depth);
      assert ok ==> output == old(output) + Wire(v) by {
        assert ok ==> output == (old(output) + [0x92, Tag(v)]) + Payload(v);
      }
    }

    /** The match on the kind of the node, after the node was counted and its tag written. */
    method Body(v: Value, depth: nat) returns (ok: bool)
      requires Open() && depth <= MAX_DEPTH && 1 <= values <= MAX_TOTAL_VALUES
      modifies this
      ensures ok <==> Fits(v, depth, old(contentBytes), old(values) - 1)
      ensures ok ==> Open()
      ensures ok ==> output == old(output) + Payload(v)
      ensures ok ==> contentBytes == old(contentBytes) + Content(v) && values == old(values) - 1 + Nodes(v)
      decreases v, 0
    {
      hide WireItems, WireEntries, BigEndian, ItemsFit, EntriesFit, WireString;
      ContainerFits(v, depth, contentBytes, values - 1);
      match v {
        case String(text) =>
          ok := String(text, MAX_STRING_BYTES);
        case Bytes(bytes) =>
          ok := ByteString(bytes);
        case Array(items) =>
          ok := Items(items, depth);
        case Map(entries) =>
          ok := Entries(entries, depth);
        case _ =>
          ok := Scalar(v);
      }
    }

    /** The branches that spend no content and have no members. */
    method Scalar(v: Value) returns (ok: bool)
      requires !v.String? && !v.Bytes? && !v.Array? && !v.Map?
      modifies this`output
      ensures ok <==> Sound(v)
      ensures ok ==> output == old(output) + Payload(v)
    {
      hide BigEndian, SignedBits, ValidHandle, ValidTypeName, WireCode;
      match v {
        case Null =>
          output := output + [0xC0];
          ok := true;
        case Bool(flag) =>
          output := output + [if flag then 0xC3 else 0xC2];
          ok := true;
        case Integer(number) =>
          output := output + [0xD3];
          output := output + BigEndian(SignedBits(number), 8);
          ok := true;
        case Float(bits) =>
          ok := Finite(bits);
          if ok {
            output := output + [0xCB];
            output := output + BigEndian(bits, 8);
          }
        case Handle(handle) =>
          ok := HandleFields(handle);
        case Error(code) =>
          ok := MetadataString(WireCode(code), MAX_METADATA_BYTES);
      }
    }

    method ByteString(bytes: seq<byte>) returns (ok: bool)
      requires Open()
      modifies this`contentBytes, this`output
      ensures ok <==> |bytes| <= MAX_BYTE_BYTES && old(contentBytes) + |bytes| <= MAX_TOTAL_CONTENT_BYTES
      ensures ok ==> contentBytes == old(contentBytes) + |bytes|
      ensures ok ==> output == old(output) + ([0xC6] + (BigEndian(|bytes|, 4) + bytes))
    {
      hide BigEndian;
      ok := AddContent(|bytes|, MAX_BYTE_BYTES);
      if ok {
        output := output + [0xC6];
        ok := WriteLength(|bytes|);
        if ok {
          output := output + bytes;
        }
      }
    }

    method HandleFields(handle: HandleValue) returns (ok: bool)
      modifies this`output
      ensures ok <==> ValidHandle(handle)
      ensures ok ==> output == old(output) + Payload(Handle(handle))
    {
      hide BigEndian, WireUint64, WireString, Kebab;
      ok := HandleIsValid(handle);
      if ok {
        output := output + [0x93];
        Uint64(handle.objectId);
        Uint64(handle.generation);
        ok := MetadataString(handle.typeName, MAX_METADATA_BYTES);
      }
    }

    /** The array branch of `Value`, after the node's own two bytes. */
    method Items(items: seq<Value>, depth: nat) returns (ok: bool)
      requires Open()
      requires depth <= MAX_DEPTH && values <= MAX_TOTAL_VALUES
      modifies this
      ensures ok <==> |items| <= MAX_CONTAINER_ENTRIES
                      && ItemsFit(items, depth + 1, old(contentBytes), old(values))
      ensures ok ==> Open()
      ensures ok ==> output == old(output) + ([0xDD] + (BigEndian(|items|, 4) + WireItems(items)))
      ensures ok ==> contentBytes == old(contentBytes) + ItemsContent(items)
      ensures ok ==> values == old(values) + ItemsNodes(items)
      decreases items
    {
      hide ItemsFit, Fits, WireItems, Wire, ItemsContent, ItemsNodes, BigEndian;
      NothingFits(depth + 1, contentBytes, values);
      ok := ContainerLength(|items|);
      if !ok {
        return;
      }
      ghost var start := output;
      for i := 0 to |items|
        invariant ok && Open()
        invariant output == start + WireItems(items[..i])
        invariant contentBytes == old(contentBytes) + ItemsContent(items[..i])
        invariant values == old(values) + ItemsNodes(items[..i])
        invariant ItemsFit(items[..i], depth + 1, old(contentBytes), old(values))
      {
        ItemsStep(items, i);
        ItemsFitStep(items, i, depth + 1, old(contentBytes), old(values));
        ok := Value(items[i], depth + 1);
        if !ok {
          return;
        }
      }
      assert items[..|items|] == items;
      assert output == old(output) + ([0xDD] + (BigEndian(|items|, 4) + WireItems(items)));
    }

    /** The map branch of `Value`, after the node's own two bytes. */
    method Entries(entries: seq<Entry>, depth: nat) returns (ok: bool)
      requires Open()
      requires depth <= MAX_DEPTH && values <= MAX_TOTAL_VALUES
      modifies this
      ensures ok <==> |entries| <= MAX_CONTAINER_ENTRIES
                      && EntriesFit(entries, depth + 1, old(contentBytes), old(values))
      ensures ok ==> Open()
      ensures ok ==> output == old(output) + ([0xDD] + (BigEndian(|entries|, 4) + WireEntries(entries)))
      ensures ok ==> contentBytes == old(contentBytes) + EntriesContent(entries)
      ensures ok ==> values == old(values) + EntriesNodes(entries)
      decreases entries
    {
      hide EntriesFit, Fits, WireEntries, WireEntry, EntriesContent, EntriesNodes, BigEndian;
      NothingFits(depth + 1, contentBytes, values);
      ok := ContainerLength(|entries|);
      if !ok {
        return;
      }
      ghost var start := output;
      var keys: set<Text> := {};
      for i := 0 to |entries|
        invariant ok && Open()
        invariant output == start + WireEntries(entries[..i])
        invariant contentBytes == old(contentBytes) + EntriesContent(entries[..i])
        invariant values == old(values) + EntriesNodes(entries[..i])
        invariant EntriesFit(entries[..i], depth + 1, old(contentBytes), old(values))
        invariant keys == set k | 0 <= k < i :: entries[k].key
      {
        EntriesStep(entries, i);
        EntriesFitStep(entries, i, depth + 1, old(contentBytes), old(values));
        var e := entries[i];
        if e.key in keys {
          return false;
        }
        keys := keys + {e.key};
        ok := KeyAndValue(e, depth + 1);
        if !ok {
          return;
        }
      }
      assert entries[..|entries|] == entries;
      assert output == old(output) + ([0xDD] + (BigEndian(|entries|, 4) + WireEntries(entries)));
    }

    /** One map entry: a two-element array of the key and the value. */
    method KeyAndValue(e: Entry, depth: nat) returns (ok: bool)
      requires Open()
      modifies this
      ensures ok <==> |e.key| <= MAX_STRING_BYTES
                      && Fits(e.value, depth, old(contentBytes) + |e.key|, old(values))
      ensures ok ==> Open()
      ensures ok ==> output == old(output) + WireEntry(e)
      ensures ok ==> contentBytes == old(contentBytes) + |e.key| + Content(e.value)
      ensures ok ==> values == old(values) + Nodes(e.value)
      decreases e
    {
      hide Nodes, Content, Height, Sound, Wire, WireString;
      output := output + [0x92];
      ok := String(e.key, MAX_STRING_BYTES);
      if ok {
        ok := Value(e.value, depth);
      }
    }

    method AddContent(length: nat, limit: nat) returns (ok: bool)
      requires Open()
      modifies this`contentBytes
      ensures ok <==> length <= limit && old(contentBytes) + length <= MAX_TOTAL_CONTENT_BYTES
      ensures ok ==> contentBytes == old(contentBytes) + length
    {
      if length > limit {
        return false;
      }
      if contentBytes + length >= USIZE_LIMIT {
        return false;
      }
      contentBytes := contentBytes + length;
      ok := contentBytes <= MAX_TOTAL_CONTENT_BYTES;
    }

    method String(text: Text, limit: nat) returns (ok: bool)
      requires Open() && limit < U32_LIMIT
      modifies this`contentBytes, this`output
      ensures ok <==> |text| <= limit && old(contentBytes) + |text| <= MAX_TOTAL_CONTENT_BYTES
      ensures ok ==> contentBytes == old(contentBytes) + |text|
      ensures ok ==> output == old(output) + WireString(text)
    {
      ok := AddContent(|text|, limit);
      if ok {
        ok := WriteString(text);
      }
    }

    method MetadataString(text: Text, limit: nat) returns (ok: bool)
      requires limit < U32_LIMIT
      modifies this`output
      ensures ok <==> |text| <= limit
      ensures ok ==> output == old(output) + WireString(text)
    {
      ok := |text| <= limit;
      if ok {
        ok := WriteString(text);
      }
    }

    method WriteString(text: Text) returns (ok: bool)
      modifies this`output
      ensures ok <==> |text| < U32_LIMIT
      ensures ok ==> output == old(output) + WireString(text)
    {
      output := output + [0xDB];
      ok := WriteLength(|text|);
      if ok {
        output := output + text;
      }
    }

    method ContainerLength(length: nat) returns (ok: bool)
      modifies this`output
      ensures ok <==> length <= MAX_CONTAINER_ENTRIES
      ensures ok ==> output == old(output) + ([0xDD] + BigEndian(length, 4))
    {
      ok := length <= MAX_CONTAINER_ENTRIES;
      if ok {
        output := output + [0xDD];
        ok := WriteLength(length);
      }
    }

    /** `u32::try_from` refuses only what no limit above lets through. */
    method WriteLength(length: nat) returns (ok: bool)
      modifies this`output
      ensures ok <==> length < U32_LIMIT
      ensures output == if ok then old(output) + BigEndian(length, 4) else old(output)
    {
      ok := length < U32_LIMIT;
      if ok {
        output := output + BigEndian(length, 4);
      }
    }

    method Uint64(x: u64)
      modifies this`output
      ensures output == old(output) + WireUint64(x)
    {
      output := output + [0xCF];
      output := output + BigEndian(x, 8);
    }
  }

  /** `Value::to_wire`. */
  method Encode(v: Value) returns (r: Result<seq<byte>>)
    ensures r == ToWire(v)
  {
    var encoder := new Encoder();
    var ok := encoder.Value(v, 0);
    if ok {
      assert encoder.output == [] + Wire(v);
      assert [] + Wire(v) == Wire(v);
    }
    r := if ok then Ok(encoder.output) else Err(InvalidArgument);
  }
}
