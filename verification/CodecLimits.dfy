/**
 Where the limits of Bridge Value v1 lie: for each of them a family of trees and the exact size from
 which on they have no encoding.
 */
module CodecLimits {
  import opened Bytes
  import opened BridgeValue
  import S = Scanner

  /** An exponent that is not all ones. */
  lemma FiniteExact(bits: u64)
    ensures Finite(bits) <==> bits / 0x10_0000_0000_0000 % 0x800 != 0x7FF
  {
  }

  /** A null inside `n` arrays. */
  function Chain(n: nat): Value {
    if n == 0 then Null else Array([Chain(n - 1)])
  }

  lemma {:induction false} ChainMeasures(n: nat)
    ensures Sound(Chain(n)) && Nodes(Chain(n)) == n + 1 && Content(Chain(n)) == 0 && Height(Chain(n)) == n + 1
  {
    hide Sound, Nodes, Content, Height, ItemsNodes, ItemsContent, ItemsHeight;
    if n > 0 {
      ChainMeasures(n - 1);
      var inner := [Chain(n - 1)];
      OneItem(inner[0]);
      ArrayMeasures(inner);
      SoundArray(inner);
    } else {
      NullMeasures();
    }
  }

  lemma ArrayMeasures(items: seq<Value>)
    ensures Nodes(Array(items)) == 1 + ItemsNodes(items) && Content(Array(items)) == ItemsContent(items)
    ensures Height(Array(items)) == 1 + ItemsHeight(items)
  {
    hide ItemsNodes, ItemsContent, ItemsHeight;
  }

  lemma NullMeasures()
    ensures Sound(Null) && Nodes(Null) == 1 && Content(Null) == 0 && Height(Null) == 1
  {
  }

  lemma SoundArray(items: seq<Value>)
    ensures Sound(Array(items)) <==> |items| <= 1024 && forall i | 0 <= i < |items| :: Sound(items[i])
  {
  }

  lemma OneItem(v: Value)
    ensures ItemsNodes([v]) == Nodes(v) && ItemsContent([v]) == Content(v) && ItemsHeight([v]) == Height(v)
  {
    assert [v][..0] == [];
    assert ItemsNodes([]) == 0 && ItemsContent([]) == 0 && ItemsHeight([]) == 0;
  }

  lemma DepthLimit(n: nat)
    ensures Encodable(Chain(n)) <==> n <= 31
  {
    hide Sound, Nodes, Content, Height;
    ChainMeasures(n);
  }

  /** `n` copies of a value. */
  function Copies(v: Value, n: nat): (s: seq<Value>)
    ensures |s| == n && forall i | 0 <= i < n :: s[i] == v
  {
    if n == 0 then [] else Copies(v, n - 1) + [v]
  }

  lemma {:induction false} CopiesMeasures(v: Value, n: nat)
    ensures ItemsNodes(Copies(v, n)) == n * Nodes(v) && ItemsContent(Copies(v, n)) == n * Content(v)
    ensures ItemsHeight(Copies(v, n)) == if n == 0 then 0 else Height(v)
  {
    hide Nodes, Content, Height, ItemsNodes, ItemsContent, ItemsHeight;
    if n > 0 {
      CopiesMeasures(v, n - 1);
      var items := Copies(v, n);
      assert items[..n - 1] == Copies(v, n - 1) && items[..n] == items;
      ItemsStep(items, n - 1);
      OneMore(n, Nodes(v));
      OneMore(n, Content(v));
    } else {
      NothingFits(0, 0, 0);
      NoHeight();
    }
  }

  lemma OneMore(n: nat, x: nat)
    requires n > 0
    ensures n * x == (n - 1) * x + x
  {
  }

  lemma NoHeight()
    ensures ItemsHeight([]) == 0
  {
  }

  /** Rows of cells without content: the limit on one container and the limit on all nodes together. */
  lemma RowLimits(cell: Value, rows: nat, columns: nat)
    requires Sound(cell) && Content(cell) == 0 && Height(cell) <= 2
    ensures Encodable(Array(Copies(Array(Copies(cell, columns)), rows))) <==>
            rows <= 1024 && (rows > 0 ==> columns <= 1024) && 1 + rows * (1 + columns * Nodes(cell)) <= 65_536
  {
    hide Sound, Nodes, Content, Height, ItemsNodes, ItemsContent, ItemsHeight, Copies;
    var row := Array(Copies(cell, columns));
    CopiesMeasures(cell, columns);
    CopiesMeasures(row, rows);
    ArrayMeasures(Copies(cell, columns));
    ArrayMeasures(Copies(row, rows));
    RowsAreSound(row, rows);
    RowsAreSound(cell, columns);
    assert columns * 0 == 0 && rows * 0 == 0;
  }

  /** A null is one node, and so is a map beside what it holds; a key is none. */
  lemma NodeLimits(rows: nat, columns: nat)
    ensures Encodable(Array(Copies(Array(Copies(Null, columns)), rows))) <==>
            rows <= 1024 && (rows > 0 ==> columns <= 1024) && 1 + rows * (1 + columns) <= 65_536
    ensures Encodable(Array(Copies(Array(Copies(Map([Entry([], Null)]), columns)), rows))) <==>
            rows <= 1024 && (rows > 0 ==> columns <= 1024) && 1 + rows * (1 + columns * 2) <= 65_536
  {
    hide Encodable, Sound, Nodes, Content, Height, Copies;
    NullMeasures();
    OneEntry([], Null);
    assert columns * 1 == columns;
    RowLimits(Null, rows, columns);
    RowLimits(Map([Entry([], Null)]), rows, columns);
  }

  lemma RowsAreSound(row: Value, rows: nat)
    ensures Sound(Array(Copies(row, rows))) <==> rows <= 1024 && (rows > 0 ==> Sound(row))
  {
    hide Sound, Copies;
    if rows > 0 {
      assert Copies(row, rows)[0] == row;
    }
    SoundArray(Copies(row, rows));
  }

  /** Two byte strings: the limit on one and the limit on all content together. */
  lemma ContentLimits(a: seq<byte>, b: seq<byte>)
    ensures Encodable(Array([Bytes(a), Bytes(b)])) <==> |a| + |b| <= 16 * 1024 * 1024
  {
    hide Sound, Nodes, Content, Height, ItemsNodes, ItemsContent, ItemsHeight;
    TwoItems(Bytes(a), Bytes(b));
    BytesMeasures(a);
    BytesMeasures(b);
  }

  lemma BytesMeasures(a: seq<byte>)
    ensures Nodes(Bytes(a)) == 1 && Content(Bytes(a)) == |a| && Height(Bytes(a)) == 1
    ensures Sound(Bytes(a)) <==> |a| <= 16 * 1024 * 1024
  {
  }

  lemma OneEntry(key: Text, v: Value)
    ensures var m := Map([Entry(key, v)]);
            && Nodes(m) == 1 + Nodes(v) && Content(m) == |key| + Content(v) && Height(m) == 1 + Height(v)
            && (Sound(m) <==> |key| <= 1024 * 1024 && Sound(v))
  {
    hide EntriesNodes, EntriesContent, EntriesHeight;
    var entries := [Entry(key, v)];
    assert entries[..0] == [] && entries[..1] == entries;
    EntriesStep(entries, 0);
    NoEntries();
    assert entries[0] == Entry(key, v);
  }

  lemma NoEntries()
    ensures EntriesNodes([]) == 0 && EntriesContent([]) == 0 && EntriesHeight([]) == 0
  {
  }

  /** A null inside `n` maps. */
  function MapChain(n: nat): Value {
    if n == 0 then Null else Map([Entry([], MapChain(n - 1))])
  }

  lemma {:induction false} MapChainMeasures(n: nat)
    ensures Sound(MapChain(n)) && Nodes(MapChain(n)) == n + 1 && Content(MapChain(n)) == 0
    ensures Height(MapChain(n)) == n + 1
  {
    hide Sound, Nodes, Content, Height;
    if n > 0 {
      MapChainMeasures(n - 1);
      OneEntry([], MapChain(n - 1));
    } else {
      NullMeasures();
    }
  }

  lemma MapDepthLimit(n: nat)
    ensures Encodable(MapChain(n)) <==> n <= 31
  {
    hide Sound, Nodes, Content, Height;
    MapChainMeasures(n);
  }

  /** A key and a string: the limit on each. */
  lemma StringLimits(key: Text, text: Text)
    ensures Encodable(Map([Entry(key, String(text))])) <==> |key| <= 1024 * 1024 && |text| <= 1024 * 1024
  {
    hide Sound, Nodes, Content, Height;
    OneEntry(key, String(text));
    StringMeasures(text);
  }

  lemma StringMeasures(text: Text)
    ensures Nodes(String(text)) == 1 && Content(String(text)) == |text| && Height(String(text)) == 1
    ensures Sound(String(text)) <==> |text| <= 1024 * 1024
  {
  }

  /** Keys, strings and byte strings spend from one budget. */
  lemma SharedBudget(key: Text, text: Text, bytes: seq<byte>)
    ensures Encodable(Map([Entry(key, Array([String(text), Bytes(bytes)]))])) <==>
            && |key| <= 1024 * 1024 && |text| <= 1024 * 1024
            && |key| + |text| + |bytes| <= 16 * 1024 * 1024
  {
    hide Sound, Nodes, Content, Height, ItemsNodes, ItemsContent, ItemsHeight;
    var items := [String(text), Bytes(bytes)];
    TwoItems(items[0], items[1]);
    OneEntry(key, Array(items));
    StringMeasures(text);
    BytesMeasures(bytes);
  }

  lemma TwoItems(a: Value, b: Value)
    ensures var v := Array([a, b]);
            && Nodes(v) == 1 + Nodes(a) + Nodes(b) && Content(v) == Content(a) + Content(b)
            && Height(v) == 1 + Max(Height(a), Height(b)) && (Sound(v) <==> Sound(a) && Sound(b))
  {
    hide Sound, Nodes, Content, Height, ItemsNodes, ItemsContent, ItemsHeight;
    var items := [a, b];
    assert items[..1] == [a] && items[..2] == items;
    OneItem(a);
    ItemsStep(items, 1);
    ArrayMeasures(items);
    SoundArray(items);
    assert items[0] == a && items[1] == b;
  }

  /** Type names and error codes spend nothing from it. */
  lemma MetadataIsFree(h: HandleValue, code: ErrorCode, bytes: seq<byte>)
    requires ValidHandle(h)
    ensures Encodable(Array([Array([Handle(h), Error(code)]), Bytes(bytes)])) <==> |bytes| <= 16 * 1024 * 1024
  {
    hide Sound, Nodes, Content, Height, ItemsNodes, ItemsContent, ItemsHeight, ValidHandle;
    TwoItems(Handle(h), Error(code));
    TwoItems(Array([Handle(h), Error(code)]), Bytes(bytes));
    BytesMeasures(bytes);
    MetadataMeasures(h, code);
  }

  lemma MetadataMeasures(h: HandleValue, code: ErrorCode)
    ensures Nodes(Handle(h)) == 1 && Content(Handle(h)) == 0 && Height(Handle(h)) == 1
    ensures Sound(Handle(h)) <==> ValidHandle(h)
    ensures Nodes(Error(code)) == 1 && Content(Error(code)) == 0 && Height(Error(code)) == 1 && Sound(Error(code))
  {
    hide ValidHandle;
  }

  /** Identifiers are positive signed 64-bit numbers, and a type name is a word of the language of names of
      at most 128 bytes. */
  lemma HandleLimits(h: HandleValue)
    ensures Encodable(Handle(h)) <==>
            && 1 <= h.objectId <= 0x7FFF_FFFF_FFFF_FFFF && 1 <= h.generation <= 0x7FFF_FFFF_FFFF_FFFF
            && |h.typeName| <= 128 && S.Matches(S.KebabRegex(true), h.typeName)
  {
    hide Kebab, S.Matches;
    S.KebabIsRegular(h.typeName, true);
  }
}
