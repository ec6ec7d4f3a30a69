/**
 Two events the launch hook is meant to change: one that it changes, and one that is valid but has a
 full argument list.
 */
module HookCases {
  import opened Bytes
  import BV = BridgeValue
  import CL = CodecLaws
  import D = Decoding
  import opened LaunchHook
  import opened HookLaws

  function Nulls(n: nat): (s: seq<Value>)
    ensures |s| == n
  {
    if n == 0 then [] else Nulls(n - 1) + [BV.Null]
  }

  lemma {:induction false} NullsMeasures(n: nat)
    ensures BV.ItemsNodes(Nulls(n)) == n && BV.ItemsContent(Nulls(n)) == 0 && BV.ItemsHeight(Nulls(n)) <= 1
    ensures forall i | 0 <= i < n :: BV.Sound(Nulls(n)[i])
  {
    if n > 0 {
      NullsMeasures(n - 1);
      assert Nulls(n)[..n - 1] == Nulls(n - 1);
    }
  }

  const FULL := BV.Array(Nulls(1024))
  const FULL_COMMAND := BV.Map([BV.Entry(MODE, STRUCTURED_JAVA), BV.Entry(JVM_ARGUMENTS, FULL)])
  const FULL_PLAN := BV.Map([BV.Entry(COMMAND, FULL_COMMAND)])
  const FULL_DATA := BV.Map([BV.Entry(PLAN, FULL_PLAN)])
  const FULL_EVENT :=
    BV.Map([BV.Entry(CONTRACT_VERSION, BV.Integer(1)), BV.Entry(POINT, BEFORE_LAUNCH), BV.Entry(DATA, FULL_DATA)])

  // ---------------------------------------------------------------- it is valid

  /** A tree within these bounds is far from every limit. */
  predicate Small(v: Value, nodes: nat, content: nat, height: nat) {
    BV.Sound(v) && BV.Nodes(v) <= nodes && BV.Content(v) <= content && BV.Height(v) <= height
  }

  lemma NoEntry()
    ensures Small(BV.Map([]), 1, 0, 1)
  {
  }

  lemma AddEntry(entries: seq<Entry>, e: Entry, nodes: nat, content: nat, height: nat)
    requires Small(BV.Map(entries), nodes, content, height) && Small(e.value, nodes, content, height)
    requires |e.key| <= 16 && |entries| < BV.MAX_CONTAINER_ENTRIES
    requires forall i | 0 <= i < |entries| :: entries[i].key != e.key
    ensures Small(BV.Map(entries + [e]), 2 * nodes, 2 * content + 16, height + 1)
  {
    var more := entries + [e];
    assert more[..|more| - 1] == entries;
    assert forall i | 0 <= i < |entries| :: more[i] == entries[i];
  }

  lemma FullIsSmall()
    ensures Small(FULL, 1025, 0, 2)
  {
    NullsMeasures(1024);
  }

  lemma KeysDiffer()
    ensures |MODE| == 4 && |JVM_ARGUMENTS| == 12 && |COMMAND| == 7 && |PLAN| == 4
    ensures |CONTRACT_VERSION| == 15 && |POINT| == 5 && |DATA| == 4
  {
  }

  lemma ScalarsAreSmall()
    ensures Small(STRUCTURED_JAVA, 1, 15, 1) && Small(BEFORE_LAUNCH, 1, 18, 1) && Small(BV.Integer(1), 1, 0, 1)
  {
  }

  lemma FullEventEncodes()
    ensures BV.Encodable(FULL_EVENT)
  {
    hide BV.Nodes, BV.Content, BV.Height, BV.Sound, FULL, MODE, JVM_ARGUMENTS, COMMAND, PLAN, CONTRACT_VERSION, POINT,
         DATA, STRUCTURED_JAVA, BEFORE_LAUNCH;
    NoEntry();
    FullIsSmall();
    KeysDiffer();
    ScalarsAreSmall();
    var mode, arguments := BV.Entry(MODE, STRUCTURED_JAVA), BV.Entry(JVM_ARGUMENTS, FULL);
    var command, plan := BV.Entry(COMMAND, FULL_COMMAND), BV.Entry(PLAN, FULL_PLAN);
    var version, point := BV.Entry(CONTRACT_VERSION, BV.Integer(1)), BV.Entry(POINT, BEFORE_LAUNCH);
    AddEntry([], mode, 1, 15, 1);
    assert [] + [mode] == [mode] && [mode] + [arguments] == [mode, arguments];
    AddEntry([mode], arguments, 1025, 46, 2);
    assert [] + [command] == [command] && [] + [plan] == [plan];
    AddEntry([], command, 2050, 108, 3);
    AddEntry([], plan, 4100, 232, 4);
    assert [] + [version] == [version] && [version] + [point] == [version, point];
    AddEntry([], version, 1, 0, 1);
    AddEntry([version], point, 2, 18, 2);
    AddEntry([version, point], BV.Entry(DATA, FULL_DATA), 8200, 480, 5);
    assert [version, point] + [BV.Entry(DATA, FULL_DATA)] == [version, point, BV.Entry(DATA, FULL_DATA)];
  }

  // ---------------------------------------------------------------- and it is refused

  lemma GetAt(entries: seq<Entry>, i: nat)
    requires i < |entries| && forall k | 0 <= k < i :: entries[k].key != entries[i].key
    ensures Get(BV.Map(entries), entries[i].key) == Some(entries[i].value)
  {
    hide BV.FirstMatch;
  }

  lemma FullEventIsMeant()
    ensures Understood(FULL_EVENT) && StructuredJava(FULL_EVENT)
    ensures GetPath(FULL_EVENT, [DATA, PLAN, COMMAND, JVM_ARGUMENTS]) == Some(FULL)
  {
    hide Get, FULL, MODE, JVM_ARGUMENTS, COMMAND, PLAN, CONTRACT_VERSION, POINT, DATA, STRUCTURED_JAVA, BEFORE_LAUNCH;
    KeysDiffer();
    CommandPath(FULL_EVENT, MODE);
    CommandPath(FULL_EVENT, JVM_ARGUMENTS);
    GetAt(FULL_EVENT.entries, 0);
    GetAt(FULL_EVENT.entries, 1);
    GetAt(FULL_EVENT.entries, 2);
    GetAt(FULL_DATA.entries, 0);
    GetAt(FULL_PLAN.entries, 0);
    GetAt(FULL_COMMAND.entries, 0);
    GetAt(FULL_COMMAND.entries, 1);
  }

  /** Decoded from its own encoding, understood, and of the kind that is changed: the hook answers with
      an error, because the list has no room for one more argument. */
  lemma FullEventIsRefused()
    ensures D.FromWire(BV.Wire(FULL_EVENT)) == BV.Ok(FULL_EVENT)
    ensures Understood(FULL_EVENT) && StructuredJava(FULL_EVENT) && HasArguments(FULL_EVENT)
    ensures OnEvent(BV.Wire(FULL_EVENT)).Denied?
  {
    hide D.FromWire, BV.Wire, BV.Encodable, OnEvent, Understood, StructuredJava, GetPath, FULL_EVENT, BV.Nodes,
         BV.Content;
    FullEventEncodes();
    CL.EncodeThenDecode(FULL_EVENT);
    FullEventIsMeant();
    EventExact(BV.Wire(FULL_EVENT));
  }

  // ---------------------------------------------------------------- and one that is changed

  function CommandWith(arguments: seq<Value>): Value {
    BV.Map([Named("mode", Word("structured-java")), Named("jvmArguments", BV.Array(arguments)),
            Named("futureField", BV.Bool(true))])
  }

  function DataWith(arguments: seq<Value>): Value {
    BV.Map([Named("plan", BV.Map([Named("command", CommandWith(arguments))]))])
  }

  const MEMORY := [Word("-Xmx2G")]
  const EVENT :=
    BV.Map([Named("contractVersion", BV.Integer(1)), Named("dispatchId", Word("dispatch-1")),
            Named("point", Word("before-game-launch")), Named("occurredAt", Word("2026-08-29T00:00:00Z")),
            Named("data", DataWith(MEMORY))])

  lemma NamesDiffer(a: string, b: string)
    requires |a| != |b| || (a != "" && AsciiByte(a[0]) != AsciiByte(b[0]))
    ensures Ascii(a) != Ascii(b)
  {
  }

  lemma SmallWord(s: string)
    requires |s| <= 32
    ensures Small(Word(s), 1, 32, 1)
  {
  }

  lemma SmallArguments()
    ensures Small(BV.Array(MEMORY), 2, 6, 2) && Small(BV.Bool(true), 1, 0, 1)
  {
    assert MEMORY[..0] == [];
  }

  lemma EventNames()
    ensures Ascii("mode") != Ascii("jvmArguments") && Ascii("mode") != Ascii("futureField")
    ensures Ascii("jvmArguments") != Ascii("futureField")
    ensures Ascii("contractVersion") != Ascii("dispatchId") && Ascii("contractVersion") != Ascii("point")
    ensures Ascii("contractVersion") != Ascii("occurredAt") && Ascii("contractVersion") != Ascii("data")
    ensures Ascii("dispatchId") != Ascii("point") && Ascii("dispatchId") != Ascii("occurredAt")
    ensures Ascii("dispatchId") != Ascii("data") && Ascii("point") != Ascii("occurredAt")
    ensures Ascii("point") != Ascii("data") && Ascii("occurredAt") != Ascii("data")
  {
    NamesDiffer("dispatchId", "occurredAt");
  }

  lemma CommandIsSmall()
    ensures Small(CommandWith(MEMORY), 16, 368, 5) && Small(DataWith(MEMORY), 64, 1520, 7)
  {
    hide BV.Nodes, BV.Content, BV.Height, BV.Sound, Word, Ascii;
    NoEntry();
    SmallWord("structured-java");
    SmallArguments();
    EventNames();
    var mode, arguments := Named("mode", Word("structured-java")), Named("jvmArguments", BV.Array(MEMORY));
    var future := Named("futureField", BV.Bool(true));
    AddEntry([], mode, 2, 32, 2);
    assert [] + [mode] == [mode] && [mode] + [arguments] == [mode, arguments];
    AddEntry([mode], arguments, 4, 80, 3);
    assert [mode, arguments] + [future] == [mode, arguments, future];
    AddEntry([mode, arguments], future, 8, 176, 4);
    var command := Named("command", CommandWith(MEMORY));
    AddEntry([], command, 16, 368, 5);
    assert [] + [command] == [command];
    var plan := Named("plan", BV.Map([command]));
    AddEntry([], plan, 32, 752, 6);
    assert [] + [plan] == [plan];
  }

  /** The entries of the event but the last. */
  const HEADER := [
    Named("contractVersion", BV.Integer(1)), Named("dispatchId", Word("dispatch-1")),
    Named("point", Word("before-game-launch")), Named("occurredAt", Word("2026-08-29T00:00:00Z"))]

  lemma HeaderIsSmall()
    ensures Small(BV.Map(HEADER), 16, 752, 5)
  {
    hide BV.Nodes, BV.Content, BV.Height, BV.Sound, Word, Ascii;
    NoEntry();
    EventNames();
    ScalarsAreSmall();
    SmallWord("dispatch-1");
    SmallWord("before-game-launch");
    SmallWord("2026-08-29T00:00:00Z");
    var a, b, c, d := HEADER[0], HEADER[1], HEADER[2], HEADER[3];
    AddEntry([], a, 1, 32, 1);
    assert [] + [a] == [a] && [a] + [b] == [a, b];
    AddEntry([a], b, 2, 80, 2);
    assert [a, b] + [c] == [a, b, c];
    AddEntry([a, b], c, 4, 176, 3);
    assert [a, b, c] + [d] == HEADER;
    AddEntry([a, b, c], d, 8, 368, 4);
  }

  lemma EventEncodes()
    ensures BV.Encodable(EVENT)
  {
    hide BV.Nodes, BV.Content, BV.Height, BV.Sound, Word, Ascii, DataWith;
    CommandIsSmall();
    EventNames();
    HeaderIsSmall();
    var data := Named("data", DataWith(MEMORY));
    AddEntry(HEADER, data, 64, 1520, 7);
    assert HEADER + [data] == EVENT.entries;
  }

  lemma EventIsMeant()
    ensures Understood(EVENT) && StructuredJava(EVENT) && HasArguments(EVENT)
    ensures Get(EVENT, DATA) == Some(DataWith(MEMORY))
    ensures GetPath(EVENT, [DATA, PLAN, COMMAND, JVM_ARGUMENTS]) == Some(BV.Array(MEMORY))
  {
    hide Get, Ascii, MEMORY;
    EventNames();
    CommandPath(EVENT, MODE);
    CommandPath(EVENT, JVM_ARGUMENTS);
    var e := EVENT.entries;
    GetAt(e, 0);
    GetAt(e, 2);
    GetAt(e, 4);
    GetAt(DataWith(MEMORY).entries, 0);
    GetAt(DataWith(MEMORY).entries[0].value.entries, 0);
    GetAt(CommandWith(MEMORY).entries, 0);
    GetAt(CommandWith(MEMORY).entries, 1);
  }

  const CHANGED := DataWith(MEMORY + [Word("-Daura.example.wasm-hook=true")])

  lemma ChangeIsAppended()
    ensures AppendedAt([Ascii("plan"), Ascii("command"), Ascii("jvmArguments")], DataWith(MEMORY), CHANGED,
                       Word("-Daura.example.wasm-hook=true"))
  {
    hide Ascii, Word, MEMORY, Get;
    EventNames();
    var x, path := Word("-Daura.example.wasm-hook=true"), [Ascii("plan"), Ascii("command"), Ascii("jvmArguments")];
    var before, after := CommandWith(MEMORY), CommandWith(MEMORY + [x]);
    GetAt(DataWith(MEMORY).entries, 0);
    GetAt(DataWith(MEMORY).entries[0].value.entries, 0);
    GetAt(before.entries, 1);
    assert path[1..] == [Ascii("command"), Ascii("jvmArguments")] && path[1..][1..] == [Ascii("jvmArguments")];
    assert path[1..][1..][1..] == [];
    assert AppendedAt([], BV.Array(MEMORY), BV.Array(MEMORY + [x]), x);
    assert AppendedAt([Ascii("jvmArguments")], before, after, x);
    assert AppendedAt(path[1..], DataWith(MEMORY).entries[0].value, CHANGED.entries[0].value, x);
  }

  /** The event of the repository's own example, and the hook's answer to it. */
  lemma EventIsChanged()
    ensures D.FromWire(BV.Wire(EVENT)) == BV.Ok(EVENT)
    ensures var r := OnEvent(BV.Wire(EVENT));
            && r.Done?
            && D.FromWire(r.value)
            == BV.Ok(BV.Map([Named("contractVersion", BV.Integer(1)), Named("action", Word("replace")),
                             Named("data", CHANGED), Named("protectedSecrets", BV.Map([]))]))
  {
    hide D.FromWire, BV.Wire, BV.Encodable, OnEvent, Understood, StructuredJava, HasArguments, GetPath, Get, EVENT,
         CHANGED, BV.Nodes, BV.Content, BV.Height, BV.Sound, AppendedAt, DataWith, Obstacle, Ascii, Word, DATA;
    EventEncodes();
    CL.EncodeThenDecode(EVENT);
    EventIsMeant();
    CommandIsSmall();
    EventExact(BV.Wire(EVENT));
    ChangeIsAppended();
    var r := OnEvent(BV.Wire(EVENT));
    AppendedOnlyOneWay([Ascii("plan"), Ascii("command"), Ascii("jvmArguments")], DataWith(MEMORY),
                       D.FromWire(r.value).value.entries[2].value, CHANGED, Word("-Daura.example.wasm-hook=true"));
  }
}
