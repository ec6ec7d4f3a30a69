/**
 Maps as entry lists whose order does not matter: looking fields up by name, and the measures
 that every rearrangement of the entries keeps.
 */
module MapOrder {
  import opened Bytes
  import opened BridgeValue
  import opened Protocol

  lemma FindFirst(entries: seq<Entry>, name: Text)
    requires HasKey(entries, name)
    ensures var i := FirstMatch(entries, name);
            i < |entries| && Find(entries, name) == Some(entries[i].value)
  {
  }

  function Without(entries: seq<Entry>, i: nat): seq<Entry>
    requires i < |entries|
  {
    entries[..i] + entries[i + 1..]
  }

  lemma WithoutMultiset(entries: seq<Entry>, i: nat)
    requires i < |entries|
    ensures multiset(entries) == multiset(Without(entries, i)) + multiset{entries[i]}
  {
    assert entries == entries[..i] + ([entries[i]] + entries[i + 1..]);
  }

  /** Removing an entry does not disturb the search for another key. */
  lemma FindWithout(entries: seq<Entry>, i: nat, name: Text)
    requires i < |entries| && entries[i].key != name
    ensures Find(Without(entries, i), name) == Find(entries, name)
  {
    hide FirstMatch;
    var w := Without(entries, i);
    assert forall k | 0 <= k < |w| :: w[k] == entries[if k < i then k else k + 1];
    var f, g := FirstMatch(entries, name), FirstMatch(w, name);
    if f < |entries| {
      assert w[if f < i then f else f - 1] == entries[f];
    }
  }

  lemma HasKeyWithout(entries: seq<Entry>, i: nat, name: Text)
    requires i < |entries| && entries[i].key != name && HasKey(entries, name)
    ensures HasKey(Without(entries, i), name)
  {
    var j :| 0 <= j < |entries| && entries[j].key == name;
    assert Without(entries, i)[if j < i then j else j - 1] == entries[j];
  }

  predicate Distinct(names: seq<Text>) {
    forall i, j | 0 <= i < j < |names| :: names[i] != names[j]
  }

  /** The named entries, in the order of the names. */
  function Gather(entries: seq<Entry>, names: seq<Text>): seq<Entry>
    requires forall i | 0 <= i < |names| :: HasKey(entries, names[i])
  {
    if names == [] then []
    else
      assert forall i | 0 <= i < |names| - 1 :: names[1..][i] == names[i + 1];
      FindFirst(entries, names[0]);
      [Entry(names[0], Find(entries, names[0]).value)] + Gather(entries, names[1..])
  }

  lemma {:induction false} GatherWithout(entries: seq<Entry>, i: nat, names: seq<Text>)
    requires i < |entries|
    requires forall k | 0 <= k < |names| :: HasKey(entries, names[k]) && entries[i].key != names[k]
    ensures forall k | 0 <= k < |names| :: HasKey(Without(entries, i), names[k])
    ensures Gather(Without(entries, i), names) == Gather(entries, names)
  {
    hide Find, HasKey, Without;
    forall k | 0 <= k < |names| ensures HasKey(Without(entries, i), names[k]) {
      HasKeyWithout(entries, i, names[k]);
    }
    if names != [] {
      assert forall k | 0 <= k < |names| - 1 :: names[1..][k] == names[k + 1];
      FindWithout(entries, i, names[0]);
      FindFirst(entries, names[0]);
      FindFirst(Without(entries, i), names[0]);
      GatherWithout(entries, i, names[1..]);
    }
  }

  /** Pigeonhole: as many entries as distinct names, and every name among the keys, leaves no
      room for another or a repeated key. */
  lemma {:induction false} Pigeonhole(entries: seq<Entry>, names: seq<Text>)
    requires |entries| == |names| && Distinct(names)
    requires forall i | 0 <= i < |names| :: HasKey(entries, names[i])
    ensures multiset(entries) == multiset(Gather(entries, names))
    decreases |names|
  {
    hide Find, HasKey, Without;
    if names == [] {
      assert entries == [];
    } else {
      FindFirst(entries, names[0]);
      var i := FirstMatch(entries, names[0]);
      var rest := names[1..];
      assert forall k | 0 <= k < |rest| :: rest[k] == names[k + 1];
      GatherWithout(entries, i, rest);
      WithoutMultiset(entries, i);
      assert |multiset(entries)| == |entries| && |multiset(Without(entries, i))| == |Without(entries, i)|;
      Pigeonhole(Without(entries, i), rest);
    }
  }

  lemma InMultiset(entries: seq<Entry>, other: seq<Entry>, i: nat) returns (j: nat)
    requires i < |entries| && multiset(entries) == multiset(other)
    ensures j < |other| && other[j] == entries[i]
  {
    assert entries[i] in multiset(entries);
    assert entries[i] in other;
    j :| 0 <= j < |other| && other[j] == entries[i];
  }

  /** Conversely, in any rearrangement of entries with distinct keys every key finds its value. */
  lemma FindInRearrangement(entries: seq<Entry>, canonical: seq<Entry>, i: nat)
    requires multiset(entries) == multiset(canonical) && DistinctKeys(canonical)
    requires i < |canonical|
    ensures HasKey(entries, canonical[i].key)
    ensures Find(entries, canonical[i].key) == Some(canonical[i].value)
  {
    hide Find;
    var j := InMultiset(canonical, entries, i);
    FindFirst(entries, canonical[i].key);
    var first := FirstMatch(entries, canonical[i].key);
    var k := InMultiset(entries, canonical, first);
    assert k == i;
  }

  lemma RearrangementLength(a: seq<Entry>, b: seq<Entry>)
    requires multiset(a) == multiset(b)
    ensures |a| == |b|
  {
    assert |multiset(a)| == |a| && |multiset(b)| == |b|;
  }

  // ---------------------------------------------------------------- measures of rearrangements

  /** Equal in everything the limits and the length of the encoding depend on, order aside. */
  predicate SameMeasures(a: seq<Entry>, b: seq<Entry>) {
    && |a| == |b|
    && |WireEntries(a)| == |WireEntries(b)|
    && EntriesNodes(a) == EntriesNodes(b)
    && EntriesContent(a) == EntriesContent(b)
    && EntriesHeight(a) == EntriesHeight(b)
  }

  lemma {:induction false} MeasuresWithout(entries: seq<Entry>, i: nat)
    requires i < |entries|
    ensures |WireEntries(entries)| == |WireEntries(Without(entries, i))| + |WireEntry(entries[i])|
    ensures EntriesNodes(entries) == EntriesNodes(Without(entries, i)) + Nodes(entries[i].value)
    ensures EntriesContent(entries) ==
            EntriesContent(Without(entries, i)) + |entries[i].key| + Content(entries[i].value)
    ensures EntriesHeight(entries) == Max(EntriesHeight(Without(entries, i)), Height(entries[i].value))
    decreases |entries|
  {
    hide WireEntries, EntriesNodes, EntriesContent, EntriesHeight, WireEntry, Nodes, Content, Height;
    var n := |entries| - 1;
    var init := entries[..n];
    assert entries[..n + 1] == entries;
    EntriesStep(entries, n);
    if i == n {
      assert Without(entries, i) == init;
    } else {
      MeasuresWithout(init, i);
      var w := Without(entries, i);
      assert w[..n - 1] == Without(init, i) && w[n - 1] == entries[n] && w[..n] == w;
      EntriesStep(w, n - 1);
    }
  }

  /** Part of the entries take no more room than all of them. */
  lemma {:induction false} GatherIsShorter(entries: seq<Entry>, names: seq<Text>)
    requires Distinct(names) && forall i | 0 <= i < |names| :: HasKey(entries, names[i])
    ensures |WireEntries(Gather(entries, names))| <= |WireEntries(entries)|
    decreases |names|
  {
    hide FirstMatch, Find, HasKey, Without, WireEntry, EntriesNodes, EntriesContent, EntriesHeight;
    if names != [] {
      FindFirst(entries, names[0]);
      var i := FirstMatch(entries, names[0]);
      var rest := names[1..];
      assert forall k | 0 <= k < |rest| :: rest[k] == names[k + 1];
      GatherWithout(entries, i, rest);
      GatherIsShorter(Without(entries, i), rest);
      MeasuresWithout(entries, i);
      var gathered := Gather(entries, names);
      FirstGathered(gathered);
      MeasuresWithout(gathered, 0);
      assert gathered[0] == entries[i] && gathered[1..] == Gather(entries, rest);
    }
  }

  lemma FirstGathered(entries: seq<Entry>)
    requires entries != []
    ensures Without(entries, 0) == entries[1..]
  {
  }

  lemma {:induction false} RearrangementMeasures(a: seq<Entry>, b: seq<Entry>)
    requires multiset(a) == multiset(b)
    ensures SameMeasures(a, b)
    decreases |a|
  {
    hide WireEntries, EntriesNodes, EntriesContent, EntriesHeight, WireEntry, Nodes, Content, Height, Without;
    RearrangementLength(a, b);
    if a == [] {
      assert b == [];
    } else {
      var j := InMultiset(a, b, 0);
      MeasuresWithout(a, 0);
      MeasuresWithout(b, j);
      WithoutMultiset(a, 0);
      WithoutMultiset(b, j);
      assert multiset(Without(a, 0)) == multiset(a) - multiset{a[0]};
      assert multiset(Without(b, j)) == multiset(b) - multiset{a[0]};
      assert |Without(a, 0)| < |a| by { assert |multiset(a)| == |a| && |multiset(Without(a, 0))| == |Without(a, 0)|; }
      RearrangementMeasures(Without(a, 0), Without(b, j));
    }
  }
}
