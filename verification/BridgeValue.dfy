/**
 Bridge Value v1: the value tree, the bytes each tree denotes, and the order-free
 predicate saying which trees have an encoding at all. The stateful encoder and decoder
 (modules Encoding and Decoding) are proved against these definitions.
 */
module BridgeValue {
  import opened Bytes

  const MAX_DEPTH := 31
  const MAX_STRING_BYTES := 1024 * 1024
  const MAX_BYTE_BYTES := 16 * 1024 * 1024
  const MAX_CONTAINER_ENTRIES := 1024
  const MAX_TOTAL_CONTENT_BYTES := 16 * 1024 * 1024
  const MAX_TOTAL_VALUES := 65_536
  const MAX_METADATA_BYTES := 128

  datatype ErrorCode =
    | InvalidArgument | InvalidResult | PermissionDenied | StaleHandle | TypeMismatch
    | Cancelled | CallbackFailed | Unavailable | Internal

  datatype Result<+T> = Ok(value: T) | Err(error: ErrorCode)

  datatype HandleValue = HandleValue(objectId: u64, generation: u64, typeName: Text)

  datatype Entry = Entry(key: Text, value: Value)

  datatype Value =
    | Null
    | Bool(flag: bool)
    | Integer(number: i64)
    | Float(bits: u64)
    | String(text: Text)
    | Bytes(bytes: seq<byte>)
    | Array(items: seq<Value>)
    | Map(entries: seq<Entry>)
    | Handle(handle: HandleValue)
    | Error(code: ErrorCode)

  // ---------------------------------------------------------------- scalar conditions

  /** The exponent field of a binary64 number is not all ones (section 3.4 of IEEE 754-2019):
      without its sign bit, the pattern is below that of infinity. */
  predicate Finite(bits: u64) {
    (if bits < I64_LIMIT then bits else bits - I64_LIMIT) < 0x7FF0_0000_0000_0000
  }

  predicate Lower(b: byte) { 0x61 <= b <= 0x7A }

  predicate Alphanumeric(b: byte) { Lower(b) || 0x30 <= b <= 0x39 }

  predicate Separator(b: byte, dots: bool) { b == 0x2D || (dots && b == 0x2E) }

  /** Lower-case words joined by single separators: it starts with a letter, does not end with
      a separator, and no two separators touch. `dots` says whether '.' separates as '-' does. */
  predicate Kebab(s: seq<byte>, dots: bool) {
    && s != []
    && Lower(s[0])
    && (forall i | 0 <= i < |s| :: Alphanumeric(s[i]) || Separator(s[i], dots))
    && !Separator(s[|s| - 1], dots)
    && (forall i | 0 < i < |s| :: !(Separator(s[i - 1], dots) && Separator(s[i], dots)))
  }

  predicate ValidTypeName(s: seq<byte>) {
    |s| <= MAX_METADATA_BYTES && Kebab(s, true)
  }

  predicate ValidHandle(h: HandleValue) {
    && 0 < h.objectId < I64_LIMIT
    && 0 < h.generation < I64_LIMIT
    && ValidTypeName(h.typeName)
  }

  function WireCode(code: ErrorCode): (t: Text)
    ensures |t| <= MAX_METADATA_BYTES
  {
    match code
    case InvalidArgument => Ascii("invalid-argument")
    case InvalidResult => Ascii("invalid-result")
    case PermissionDenied => Ascii("permission-denied")
    case StaleHandle => Ascii("stale-handle")
    case TypeMismatch => Ascii("type-mismatch")
    case Cancelled => Ascii("cancelled")
    case CallbackFailed => Ascii("callback-failed")
    case Unavailable => Ascii("unavailable")
    case Internal => Ascii("internal")
  }

  function CodeFromWire(t: Text): Option<ErrorCode> {
    if t == Ascii("invalid-argument") then Some(InvalidArgument)
    else if t == Ascii("invalid-result") then Some(InvalidResult)
    else if t == Ascii("permission-denied") then Some(PermissionDenied)
    else if t == Ascii("stale-handle") then Some(StaleHandle)
    else if t == Ascii("type-mismatch") then Some(TypeMismatch)
    else if t == Ascii("cancelled") then Some(Cancelled)
    else if t == Ascii("callback-failed") then Some(CallbackFailed)
    else if t == Ascii("unavailable") then Some(Unavailable)
    else if t == Ascii("internal") then Some(Internal)
    else None
  }

  lemma WireCodeRoundTrip(code: ErrorCode)
    ensures CodeFromWire(WireCode(code)) == Some(code)
  {
    var t := WireCode(code);
    // Codes of equal length differ in these places.
    assert code.StaleHandle? ==> t[0] == 's' as int;
    assert code.TypeMismatch? ==> t[0] == 't' as int;
    assert code.Unavailable? ==> t[0] == 'u' as int;
  }

  lemma WireCodeInverse(t: Text, code: ErrorCode)
    ensures CodeFromWire(t) == Some(code) <==> t == WireCode(code)
  {
    WireCodeRoundTrip(code);
  }

  // ---------------------------------------------------------------- bytes of a tree

  function Tag(v: Value): byte {
    match v
    case Null => 0
    case Bool(_) => 1
    case Integer(_) => 2
    case Float(_) => 3
    case String(_) => 4
    case Bytes(_) => 5
    case Array(_) => 6
    case Map(_) => 7
    case Handle(_) => 8
    case Error(_) => 9
  }

  function WireString(s: seq<byte>): (w: seq<byte>)
    ensures |w| == 5 + |s|
  {
    [0xDB] + (BigEndian(|s|, 4) + s)
  }

  function WireUint64(x: u64): (w: seq<byte>)
    ensures |w| == 9
  {
    [0xCF] + BigEndian(x, 8)
  }

  /** The wire form of a tree, whether or not it is within the limits. */
  function Wire(v: Value): (w: seq<byte>)
    ensures |w| >= 3
    decreases v, 1
  {
    [0x92, Tag(v)] + Payload(v)
  }

  function Payload(v: Value): (w: seq<byte>)
    ensures |w| >= 1
    decreases v, 0
  {
    match v
    case Null => [0xC0]
    case Bool(flag) => [if flag then 0xC3 else 0xC2]
    case Integer(number) => [0xD3] + BigEndian(SignedBits(number), 8)
    case Float(bits) => [0xCB] + BigEndian(bits, 8)
    case String(text) => WireString(text)
    case Bytes(bytes) => [0xC6] + (BigEndian(|bytes|, 4) + bytes)
    case Array(items) => [0xDD] + (BigEndian(|items|, 4) + WireItems(items))
    case Map(entries) => [0xDD] + (BigEndian(|entries|, 4) + WireEntries(entries))
    case Handle(h) =>
      [0x93] + (WireUint64(h.objectId) + (WireUint64(h.generation) + WireString(h.typeName)))
    case Error(code) => WireString(WireCode(code))
  }

  function WireItems(items: seq<Value>): seq<byte>
    decreases items
  {
    if items == [] then []
    else WireItems(items[..|items| - 1]) + Wire(items[|items| - 1])
  }

  function WireEntries(entries: seq<Entry>): seq<byte>
    decreases entries
  {
    if entries == [] then []
    else
      var e := entries[|entries| - 1];
      WireEntries(entries[..|entries| - 1]) + ([0x92] + (WireString(e.key) + Wire(e.value)))
  }

  // ---------------------------------------------------------------- what a tree costs

  /** Nodes of a tree. */
  function Nodes(v: Value): (n: nat)
    ensures n >= 1
    decreases v
  {
    match v
    case Array(items) => 1 + ItemsNodes(items)
    case Map(entries) => 1 + EntriesNodes(entries)
    case _ => 1
  }

  function ItemsNodes(items: seq<Value>): nat
    decreases items
  {
    if items == [] then 0
    else ItemsNodes(items[..|items| - 1]) + Nodes(items[|items| - 1])
  }

  function EntriesNodes(entries: seq<Entry>): nat
    decreases entries
  {
    if entries == [] then 0
    else EntriesNodes(entries[..|entries| - 1]) + Nodes(entries[|entries| - 1].value)
  }

  /** Content bytes of a tree: strings, byte strings and map keys. Type names, error codes and
      lengths are not content. */
  function Content(v: Value): nat
    decreases v
  {
    match v
    case String(text) => |text|
    case Bytes(bytes) => |bytes|
    case Array(items) => ItemsContent(items)
    case Map(entries) => EntriesContent(entries)
    case _ => 0
  }

  function ItemsContent(items: seq<Value>): nat
    decreases items
  {
    if items == [] then 0
    else ItemsContent(items[..|items| - 1]) + Content(items[|items| - 1])
  }

  function EntriesContent(entries: seq<Entry>): nat
    decreases entries
  {
    if entries == [] then 0
    else
      var e := entries[|entries| - 1];
      EntriesContent(entries[..|entries| - 1]) + |e.key| + Content(e.value)
  }

  function Max(a: nat, b: nat): nat { if a < b then b else a }

  /** Nodes on the longest path from the root. */
  function Height(v: Value): (h: nat)
    ensures h >= 1
    decreases v
  {
    match v
    case Array(items) => 1 + ItemsHeight(items)
    case Map(entries) => 1 + EntriesHeight(entries)
    case _ => 1
  }

  function ItemsHeight(items: seq<Value>): nat
    decreases items
  {
    if items == [] then 0
    else Max(ItemsHeight(items[..|items| - 1]), Height(items[|items| - 1]))
  }

  function EntriesHeight(entries: seq<Entry>): nat
    decreases entries
  {
    if entries == [] then 0
    else Max(EntriesHeight(entries[..|entries| - 1]), Height(entries[|entries| - 1].value))
  }

  /** The position of the first entry with this key, or the length when there is none. */
  function FirstMatch(entries: seq<Entry>, name: Text): (i: nat)
    ensures i <= |entries|
    ensures i < |entries| ==> entries[i].key == name
    ensures forall k | 0 <= k < i :: entries[k].key != name
    decreases |entries|
  {
    if entries == [] then 0
    else if entries[0].key == name then 0
    else 1 + FirstMatch(entries[1..], name)
  }

  /** The value of that entry. */
  function Find(entries: seq<Entry>, name: Text): Option<Value> {
    var i := FirstMatch(entries, name);
    if i < |entries| then Some(entries[i].value) else None
  }

  predicate DistinctKeys(entries: seq<Entry>) {
    forall i, j | 0 <= i < j < |entries| :: entries[i].key != entries[j].key
  }

  /** Every node by itself obeys the limits that do not depend on the rest of the tree. */
  predicate Sound(v: Value)
    decreases v
  {
    match v
    case Float(bits) => Finite(bits)
    case String(text) => |text| <= MAX_STRING_BYTES
    case Bytes(bytes) => |bytes| <= MAX_BYTE_BYTES
    case Array(items) =>
      |items| <= MAX_CONTAINER_ENTRIES && forall i | 0 <= i < |items| :: Sound(items[i])
    case Map(entries) =>
      && |entries| <= MAX_CONTAINER_ENTRIES
      && DistinctKeys(entries)
      && forall i | 0 <= i < |entries| ::
           |entries[i].key| <= MAX_STRING_BYTES && Sound(entries[i].value)
    case Handle(h) => ValidHandle(h)
    case _ => true
  }

  /** A tree rooted at `depth` still fits after `content` bytes and `values` nodes have been
      spent. It mentions no traversal order. */
  predicate Fits(v: Value, depth: nat, content: nat, values: nat) {
    && Sound(v)
    && depth + Height(v) <= MAX_DEPTH + 1
    && values + Nodes(v) <= MAX_TOTAL_VALUES
    && content + Content(v) <= MAX_TOTAL_CONTENT_BYTES
  }

  predicate Encodable(v: Value) {
    Fits(v, 0, 0, 0)
  }

  /** `Value::to_wire`; module Encoding proves that the stateful encoder computes this. */
  function ToWire(v: Value): Result<seq<byte>> {
    if Encodable(v) then Ok(Wire(v)) else Err(InvalidArgument)
  }

  // ---------------------------------------------------------------- prefixes of containers

  /** No measure of a container shrinks when more of it is taken. */
  lemma {:induction false} ItemsPrefix(items: seq<Value>, n: nat)
    requires n <= |items|
    ensures ItemsNodes(items[..n]) <= ItemsNodes(items)
    ensures ItemsContent(items[..n]) <= ItemsContent(items)
    ensures ItemsHeight(items[..n]) <= ItemsHeight(items)
    decreases |items|
  {
    if n < |items| {
      var init := items[..|items| - 1];
      assert items[..n] == init[..n];
      ItemsPrefix(init, n);
    } else {
      assert items[..n] == items;
    }
  }

  lemma {:induction false} EntriesPrefix(entries: seq<Entry>, n: nat)
    requires n <= |entries|
    ensures EntriesNodes(entries[..n]) <= EntriesNodes(entries)
    ensures EntriesContent(entries[..n]) <= EntriesContent(entries)
    ensures EntriesHeight(entries[..n]) <= EntriesHeight(entries)
    decreases |entries|
  {
    if n < |entries| {
      var init := entries[..|entries| - 1];
      assert entries[..n] == init[..n];
      EntriesPrefix(init, n);
    } else {
      assert entries[..n] == entries;
    }
  }

  /** One more item: every measure of a prefix follows from the shorter prefix. */
  lemma ItemsStep(items: seq<Value>, n: nat)
    requires n < |items|
    ensures WireItems(items[..n + 1]) == WireItems(items[..n]) + Wire(items[n])
    ensures ItemsNodes(items[..n + 1]) == ItemsNodes(items[..n]) + Nodes(items[n])
    ensures ItemsContent(items[..n + 1]) == ItemsContent(items[..n]) + Content(items[n])
    ensures ItemsHeight(items[..n + 1]) == Max(ItemsHeight(items[..n]), Height(items[n]))
  {
    assert items[..n + 1][..n] == items[..n];
  }

  function WireEntry(e: Entry): seq<byte> {
    [0x92] + (WireString(e.key) + Wire(e.value))
  }

  lemma EntriesStep(entries: seq<Entry>, n: nat)
    requires n < |entries|
    ensures WireEntries(entries[..n + 1]) == WireEntries(entries[..n]) + WireEntry(entries[n])
    ensures EntriesNodes(entries[..n + 1]) == EntriesNodes(entries[..n]) + Nodes(entries[n].value)
    ensures EntriesContent(entries[..n + 1]) ==
            EntriesContent(entries[..n]) + |entries[n].key| + Content(entries[n].value)
    ensures EntriesHeight(entries[..n + 1]) == Max(EntriesHeight(entries[..n]), Height(entries[n].value))
  {
    assert entries[..n + 1][..n] == entries[..n];
  }

  /** Container members at `depth`, encoded one after the other, fit. */
  predicate ItemsFit(items: seq<Value>, depth: nat, content: nat, values: nat) {
    && (forall i | 0 <= i < |items| :: Sound(items[i]))
    && depth + ItemsHeight(items) <= MAX_DEPTH + 1
    && values + ItemsNodes(items) <= MAX_TOTAL_VALUES
    && content + ItemsContent(items) <= MAX_TOTAL_CONTENT_BYTES
  }

  predicate EntriesFit(entries: seq<Entry>, depth: nat, content: nat, values: nat) {
    && EntriesSound(entries)
    && depth + EntriesHeight(entries) <= MAX_DEPTH + 1
    && values + EntriesNodes(entries) <= MAX_TOTAL_VALUES
    && content + EntriesContent(entries) <= MAX_TOTAL_CONTENT_BYTES
  }

  lemma NothingFits(depth: nat, content: nat, values: nat)
    requires depth <= MAX_DEPTH + 1 && content <= MAX_TOTAL_CONTENT_BYTES && values <= MAX_TOTAL_VALUES
    ensures ItemsFit([], depth, content, values) && WireItems([]) == []
    ensures ItemsContent([]) == 0 && ItemsNodes([]) == 0
    ensures EntriesFit([], depth, content, values) && WireEntries([]) == []
    ensures EntriesContent([]) == 0 && EntriesNodes([]) == 0
  {
  }

  /** A container fits exactly when its node, its length and its members do. */
  lemma ContainerFits(v: Value, depth: nat, content: nat, values: nat)
    requires content <= MAX_TOTAL_CONTENT_BYTES
    ensures v.Array? ==>
              (Fits(v, depth, content, values) <==>
               && depth <= MAX_DEPTH && values < MAX_TOTAL_VALUES
               && |v.items| <= MAX_CONTAINER_ENTRIES
               && ItemsFit(v.items, depth + 1, content, values + 1))
    ensures v.Map? ==>
              (Fits(v, depth, content, values) <==>
               && depth <= MAX_DEPTH && values < MAX_TOTAL_VALUES
               && |v.entries| <= MAX_CONTAINER_ENTRIES
               && EntriesFit(v.entries, depth + 1, content, values + 1))
  {
  }

  /** Early failure loses nothing: a member list fits exactly when each member fits in turn,
      after what its predecessors spent. */
  lemma ItemsFitStep(items: seq<Value>, n: nat, depth: nat, content: nat, values: nat)
    requires n < |items|
    ensures ItemsFit(items[..n + 1], depth, content, values) <==>
            && ItemsFit(items[..n], depth, content, values)
            && Fits(items[n], depth, content + ItemsContent(items[..n]), values + ItemsNodes(items[..n]))
    ensures ItemsFit(items, depth, content, values) ==> ItemsFit(items[..n + 1], depth, content, values)
  {
    ItemsStep(items, n);
    ItemsPrefix(items, n + 1);
    var longer, shorter := items[..n + 1], items[..n];
    assert longer[n] == items[n];
    assert forall i | 0 <= i < n :: shorter[i] == longer[i] == items[i];
  }

  predicate EntriesSound(entries: seq<Entry>) {
    && DistinctKeys(entries)
    && forall i | 0 <= i < |entries| :: |entries[i].key| <= MAX_STRING_BYTES && Sound(entries[i].value)
  }

  lemma EntriesSoundStep(entries: seq<Entry>, n: nat)
    requires n < |entries|
    ensures EntriesSound(entries[..n + 1]) <==>
            && EntriesSound(entries[..n])
            && (forall i | 0 <= i < n :: entries[i].key != entries[n].key)
            && |entries[n].key| <= MAX_STRING_BYTES && Sound(entries[n].value)
    ensures EntriesSound(entries) ==> EntriesSound(entries[..n + 1])
  {
    hide Sound;
    var longer, shorter := entries[..n + 1], entries[..n];
    assert longer[n] == entries[n];
    assert forall i | 0 <= i < n :: shorter[i] == longer[i] == entries[i];
  }

  lemma EntriesFitStep(entries: seq<Entry>, n: nat, depth: nat, content: nat, values: nat)
    requires n < |entries|
    ensures EntriesFit(entries[..n + 1], depth, content, values) <==>
            && EntriesFit(entries[..n], depth, content, values)
            && (forall i | 0 <= i < n :: entries[i].key != entries[n].key)
            && |entries[n].key| <= MAX_STRING_BYTES
            && Fits(entries[n].value, depth,
                    content + EntriesContent(entries[..n]) + |entries[n].key|,
                    values + EntriesNodes(entries[..n]))
    ensures EntriesFit(entries, depth, content, values) ==> EntriesFit(entries[..n + 1], depth, content, values)
  {
    hide EntriesSound, Sound, Wire, Nodes, Content, Height, EntriesNodes, EntriesContent, EntriesHeight;
    EntriesStep(entries, n);
    EntriesPrefix(entries, n + 1);
    EntriesSoundStep(entries, n);
  }
}
