/**
 What the launch hook does to an event: exactly one string is appended, at one place, and nothing
 else moves; and exactly when the result can be encoded.
 */
module HookLaws {
  import opened Bytes
  import BV = BridgeValue
  import D = Decoding
  import CL = CodecLaws
  import MO = MapOrder
  import opened LaunchHook

  // ---------------------------------------------------------------- looking things up

  function Get(v: Value, name: Text): Option<Value> {
    if v.Map? then BV.Find(v.entries, name) else None
  }

  function GetPath(v: Value, path: seq<Text>): Option<Value>
    decreases |path|
  {
    if path == [] then Some(v)
    else
      match Get(v, path[0])
      case None => None
      case Some(child) => GetPath(child, path[1..])
  }

  /** Where keys are distinct, any match is the first match. */
  lemma AnyIsFirst(entries: seq<Entry>, name: Text, value: Value)
    requires BV.DistinctKeys(entries)
    ensures AnyMatch(entries, name, value) <==> Get(BV.Map(entries), name) == Some(value)
  {
    var i := BV.FirstMatch(entries, name);
    if AnyMatch(entries, name, value) {
      var k :| 0 <= k < |entries| && entries[k] == BV.Entry(name, value);
      assert k == i;
    } else if i < |entries| {
      assert entries[i] == BV.Entry(name, entries[i].value);
    }
  }

  // ---------------------------------------------------------------- appending at a path

  /** `after` is `before` with `x` appended to the array at `path`: at each level the same keys in
      the same order, and every entry off the path untouched. */
  predicate AppendedAt(path: seq<Text>, before: Value, after: Value, x: Value)
    decreases |path|
  {
    if path == [] then before.Array? && after == BV.Array(before.items + [x])
    else
      && before.Map? && after.Map? && |after.entries| == |before.entries|
      && Get(before, path[0]).Some?
      && forall i | 0 <= i < |before.entries| ::
           var b, a := before.entries[i], after.entries[i];
           if b.key == path[0] then a.key == b.key && AppendedAt(path[1..], b.value, a.value, x) else a == b
  }

  lemma {:induction false} AppendedOnlyOneWay(path: seq<Text>, before: Value, a: Value, b: Value, x: Value)
    requires AppendedAt(path, before, a, x) && AppendedAt(path, before, b, x)
    ensures a == b
    decreases |path|
  {
    if path != [] {
      forall i | 0 <= i < |before.entries| ensures a.entries[i] == b.entries[i] {
        if before.entries[i].key == path[0] {
          AppendedOnlyOneWay(path[1..], before.entries[i].value, a.entries[i].value, b.entries[i].value, x);
        }
      }
      assert a.entries == b.entries;
    }
  }

  lemma SetIsAppended(path: seq<Text>, entries: seq<Entry>, i: nat, v: Value, x: Value)
    requires path != [] && BV.DistinctKeys(entries)
    requires i == BV.FirstMatch(entries, path[0]) && i < |entries| && AppendedAt(path[1..], entries[i].value, v, x)
    ensures AppendedAt(path, BV.Map(entries), SetValue(entries, i, v), x)
  {
  }

  // ---------------------------------------------------------------- which events are changed

  const PATH := [PLAN, COMMAND, JVM_ARGUMENTS]

  /** The event is one this hook reads, and has a launch command. */
  predicate Understood(event: Value) {
    && Get(event, CONTRACT_VERSION) == Some(BV.Integer(1))
    && Get(event, POINT) == Some(BEFORE_LAUNCH)
    && var command := GetPath(event, [DATA, PLAN, COMMAND]);
       command.Some? && command.value.Map?
  }

  predicate StructuredJava(event: Value) {
    GetPath(event, [DATA, PLAN, COMMAND, MODE]) == Some(STRUCTURED_JAVA)
  }

  predicate HasArguments(event: Value) {
    var arguments := GetPath(event, [DATA, PLAN, COMMAND, JVM_ARGUMENTS]);
    arguments.Some? && arguments.value.Array?
  }

  lemma {:induction false} PathLast(v: Value, path: seq<Text>, name: Text)
    ensures GetPath(v, path + [name]) == match GetPath(v, path) case None => None case Some(w) => Get(w, name)
    decreases |path|
  {
    hide Get;
    if path == [] {
      assert path + [name] == [name] && [name][1..] == [];
    } else {
      assert (path + [name])[1..] == path[1..] + [name];
      match Get(v, path[0])
      case None =>
      case Some(child) => PathLast(child, path[1..], name);
    }
  }

  /** The path to the launch command, step by step. */
  lemma CommandPath(event: Value, name: Text)
    ensures GetPath(event, [DATA]) == Get(event, DATA)
    ensures GetPath(event, [DATA, PLAN])
         == match Get(event, DATA) case None => None case Some(w) => Get(w, PLAN)
    ensures GetPath(event, [DATA, PLAN, COMMAND])
         == match GetPath(event, [DATA, PLAN]) case None => None case Some(w) => Get(w, COMMAND)
    ensures GetPath(event, [DATA, PLAN, COMMAND, name])
         == match GetPath(event, [DATA, PLAN, COMMAND]) case None => None case Some(w) => Get(w, name)
  {
    hide Get, DATA, PLAN, COMMAND;
    PathLast(event, [], DATA);
    PathLast(event, [DATA], PLAN);
    PathLast(event, [DATA, PLAN], COMMAND);
    PathLast(event, [DATA, PLAN, COMMAND], name);
    assert [] + [DATA] == [DATA] && [DATA] + [PLAN] == [DATA, PLAN];
    assert [DATA, PLAN] + [COMMAND] == [DATA, PLAN, COMMAND];
    assert [DATA, PLAN, COMMAND] + [name] == [DATA, PLAN, COMMAND, name];
  }

  lemma GetSound(v: Value, name: Text)
    requires BV.Sound(v) && Get(v, name).Some?
    ensures BV.Sound(Get(v, name).value)
  {
  }

  /** The command part of the decision. */
  lemma ExtendExact(command: Value)
    requires command.Map? && BV.DistinctKeys(command.entries)
    ensures var r := Extend(command.entries);
            var arguments := Get(command, JVM_ARGUMENTS);
            && (r == Done(None) <==> Get(command, MODE) != Some(STRUCTURED_JAVA))
            && ((r.Done? && r.value.Some?) <==>
                  Get(command, MODE) == Some(STRUCTURED_JAVA) && arguments.Some? && arguments.value.Array?)
            && (r.Done? && r.value.Some? ==> AppendedAt([JVM_ARGUMENTS], command, r.value.value, ARGUMENT))
  {
    hide Ascii;
    AnyIsFirst(command.entries, MODE, STRUCTURED_JAVA);
    var at := BV.FirstMatch(command.entries, JVM_ARGUMENTS);
    if at < |command.entries| && command.entries[at].value.Array? {
      var items := command.entries[at].value.items;
      assert [JVM_ARGUMENTS][1..] == [];
      SetIsAppended([JVM_ARGUMENTS], command.entries, at, BV.Array(items + [ARGUMENT]), ARGUMENT);
    }
  }

  /** Putting the extended command back into plan and data. */
  lemma PutBack(data: seq<Entry>, i: nat, plan: seq<Entry>, j: nat, v: Value)
    requires BV.Sound(BV.Map(data)) && i == BV.FirstMatch(data, PLAN) && i < |data| && data[i].value == BV.Map(plan)
    requires j == BV.FirstMatch(plan, COMMAND) && j < |plan| && AppendedAt([JVM_ARGUMENTS], plan[j].value, v, ARGUMENT)
    ensures AppendedAt(PATH, BV.Map(data), SetValue(data, i, SetValue(plan, j, v)), ARGUMENT)
  {
    hide Ascii, AppendedAt, BV.FirstMatch;
    assert BV.Sound(data[i].value);
    assert [COMMAND, JVM_ARGUMENTS][1..] == [JVM_ARGUMENTS] && PATH[1..] == [COMMAND, JVM_ARGUMENTS];
    SetIsAppended([COMMAND, JVM_ARGUMENTS], plan, j, v, ARGUMENT);
    SetIsAppended(PATH, data, i, SetValue(plan, j, v), ARGUMENT);
  }

  /** `Decide` as a walk along the path. */
  lemma DecideWalks(event: Value)
    requires event.Map?
    requires AnyMatch(event.entries, CONTRACT_VERSION, BV.Integer(1)) && AnyMatch(event.entries, POINT, BEFORE_LAUNCH)
    ensures match Get(event, DATA)
            case None => Decide(event).Denied?
            case Some(data) =>
              match Get(data, PLAN)
              case None => Decide(event).Denied?
              case Some(plan) =>
                match Get(plan, COMMAND)
                case None => Decide(event).Denied?
                case Some(command) =>
                  if !command.Map? then Decide(event).Denied?
                  else Decide(event) == Completed(data.entries, plan.entries, Extend(command.entries))
  {
    hide AnyMatch, BV.FirstMatch, SetValue, Extend, DATA, PLAN, COMMAND, POINT, CONTRACT_VERSION, BEFORE_LAUNCH;
  }

  function Completed(data: seq<Entry>, plan: seq<Entry>, extended: Hook<Option<Value>>): Hook<Decision>
    requires BV.FirstMatch(data, PLAN) < |data| && BV.FirstMatch(plan, COMMAND) < |plan|
  {
    match extended
    case Denied(error) => Denied(error)
    case Done(None) => Done(Unchanged)
    case Done(Some(v)) =>
      Done(Replace(SetValue(data, BV.FirstMatch(data, PLAN), SetValue(plan, BV.FirstMatch(plan, COMMAND), v))))
  }

  lemma CompletedExact(data: Value, plan: Value, command: Value)
    requires BV.Sound(data) && Get(data, PLAN) == Some(plan) && Get(plan, COMMAND) == Some(command) && command.Map?
    requires BV.DistinctKeys(command.entries)
    ensures var r := Completed(data.entries, plan.entries, Extend(command.entries));
            var arguments := Get(command, JVM_ARGUMENTS);
            && (r == Done(Unchanged) <==> Get(command, MODE) != Some(STRUCTURED_JAVA))
            && ((r.Done? && r.value.Replace?) <==>
                  Get(command, MODE) == Some(STRUCTURED_JAVA) && arguments.Some? && arguments.value.Array?)
            && (r.Done? && r.value.Replace? ==> AppendedAt(PATH, data, r.value.data, ARGUMENT))
  {
    hide AppendedAt, BV.FirstMatch, SetValue, Extend, PATH, DATA, PLAN, COMMAND, JVM_ARGUMENTS, MODE,
         STRUCTURED_JAVA, ARGUMENT;
    ExtendExact(command);
    var extended := Extend(command.entries);
    if extended.Done? && extended.value.Some? {
      var i, j := BV.FirstMatch(data.entries, PLAN), BV.FirstMatch(plan.entries, COMMAND);
      PutBack(data.entries, i, plan.entries, j, extended.value.value);
    }
  }

  lemma DecideReads(event: Value)
    requires BV.Sound(event)
    ensures Get(event, CONTRACT_VERSION) == Some(BV.Integer(1)) && Get(event, POINT) == Some(BEFORE_LAUNCH) <==>
            && event.Map? && AnyMatch(event.entries, CONTRACT_VERSION, BV.Integer(1))
            && AnyMatch(event.entries, POINT, BEFORE_LAUNCH)
    ensures !(Get(event, CONTRACT_VERSION) == Some(BV.Integer(1)) && Get(event, POINT) == Some(BEFORE_LAUNCH)) ==>
            Decide(event).Denied?
  {
    hide Ascii, BV.FirstMatch, AnyMatch, SetValue, Extend;
    if event.Map? {
      AnyIsFirst(event.entries, CONTRACT_VERSION, BV.Integer(1));
      AnyIsFirst(event.entries, POINT, BEFORE_LAUNCH);
    }
  }

  /** Exactly which events are left alone, which are changed, and how. Every other event is refused. */
  lemma DecideExact(event: Value)
    requires BV.Sound(event)
    ensures var r := Decide(event);
            && (r == Done(Unchanged) <==> Understood(event) && !StructuredJava(event))
            && (r.Done? && r.value.Replace? <==> Understood(event) && StructuredJava(event) && HasArguments(event))
            && (r.Done? && r.value.Replace? ==>
                  Get(event, DATA).Some? && AppendedAt(PATH, Get(event, DATA).value, r.value.data, ARGUMENT))
  {
    hide Ascii, AppendedAt, BV.FirstMatch, AnyMatch, Extend, PATH, Decide, GetPath, Completed;
    CommandPath(event, MODE);
    CommandPath(event, JVM_ARGUMENTS);
    DecideReads(event);
    if && event.Map? && AnyMatch(event.entries, CONTRACT_VERSION, BV.Integer(1))
       && AnyMatch(event.entries, POINT, BEFORE_LAUNCH) {
      DecideWalks(event);
      if Get(event, DATA).Some? {
        var data := Get(event, DATA).value;
        GetSound(event, DATA);
        if Get(data, PLAN).Some? {
          var plan := Get(data, PLAN).value;
          GetSound(data, PLAN);
          if Get(plan, COMMAND).Some? && Get(plan, COMMAND).value.Map? {
            GetSound(plan, COMMAND);
            CompletedExact(data, plan, Get(plan, COMMAND).value);
          }
        }
      }
    }
  }

  // ---------------------------------------------------------------- why an event is refused

  /** The first obstacle on the way down to the argument list, in the words of the hook. */
  function Obstacle(event: Value): Option<string> {
    if !event.Map? then Some("Hook event must be a map")
    else if Get(event, CONTRACT_VERSION) != Some(BV.Integer(1)) then Some("invalid callback contract version")
    else if Get(event, POINT) != Some(BEFORE_LAUNCH) then Some("invalid Hook point")
    else
      match Get(event, DATA)
      case None => Some("required Hook field is missing")
      case Some(data) =>
        if !data.Map? then Some("Hook data must be a map")
        else
          match Get(data, PLAN)
          case None => Some("required Hook field is missing")
          case Some(plan) =>
            if !plan.Map? then Some("launch plan must be a map")
            else
              match Get(plan, COMMAND)
              case None => Some("required Hook field is missing")
              case Some(command) =>
                if !command.Map? then Some("launch command must be a map") else CommandObstacle(command)
  }

  function CommandObstacle(command: Value): Option<string> {
    if Get(command, MODE) != Some(STRUCTURED_JAVA) then None
    else
      match Get(command, JVM_ARGUMENTS)
      case None => Some("required Hook field is missing")
      case Some(arguments) => if arguments.Array? then None else Some("jvmArguments must be an array")
  }

  /** Exactly which events are refused, and with which words. */
  lemma RefusalExact(event: Value)
    requires BV.Sound(event)
    ensures match Obstacle(event)
            case Some(words) => Decide(event) == Denied(PluginError("invalid-argument", words))
            case None => Decide(event).Done?
  {
    hide Ascii, BV.FirstMatch, AnyMatch, SetValue, Extend, CommandObstacle, CONTRACT_VERSION, POINT, DATA, PLAN,
         COMMAND, BEFORE_LAUNCH;
    if event.Map? {
      AnyIsFirst(event.entries, CONTRACT_VERSION, BV.Integer(1));
      AnyIsFirst(event.entries, POINT, BEFORE_LAUNCH);
      if Get(event, DATA).Some? {
        var data := Get(event, DATA).value;
        GetSound(event, DATA);
        if Get(data, PLAN).Some? {
          var plan := Get(data, PLAN).value;
          GetSound(data, PLAN);
          if Get(plan, COMMAND).Some? && Get(plan, COMMAND).value.Map? {
            GetSound(plan, COMMAND);
            CommandRefusal(Get(plan, COMMAND).value);
          }
        }
      }
    }
  }

  lemma CommandRefusal(command: Value)
    requires command.Map? && BV.DistinctKeys(command.entries)
    ensures match CommandObstacle(command)
            case Some(words) => Extend(command.entries) == Denied(PluginError("invalid-argument", words))
            case None => Extend(command.entries).Done?
  {
    hide Ascii, AnyMatch, BV.FirstMatch;
    AnyIsFirst(command.entries, MODE, STRUCTURED_JAVA);
  }

  // ---------------------------------------------------------------- what the result costs

  /** One more leaf: the measures of the tree after an append. */
  lemma {:induction false} AppendedMeasures(path: seq<Text>, before: Value, after: Value, x: Value)
    requires BV.Sound(before) && AppendedAt(path, before, after, x) && BV.Sound(x) && BV.Height(x) == 1
    ensures BV.Nodes(after) == BV.Nodes(before) + BV.Nodes(x)
    ensures BV.Content(after) == BV.Content(before) + BV.Content(x)
    ensures BV.Height(after) <= BV.Max(BV.Height(before), |path| + 2)
    ensures var target := GetPath(before, path);
            && target.Some? && target.value.Array?
            && (BV.Sound(after) <==> |target.value.items| < BV.MAX_CONTAINER_ENTRIES)
    decreases |path|
  {
    hide BV.Nodes, BV.Content, BV.Height;
    if path == [] {
      AppendedItem(before.items, x);
    } else {
      var i := BV.FirstMatch(before.entries, path[0]);
      SoundMap(before.entries, i);
      AppendedMeasures(path[1..], before.entries[i].value, after.entries[i].value, x);
      OnlyOneChanges(before.entries, after.entries, i);
    }
  }

  lemma SoundMap(entries: seq<Entry>, i: nat)
    requires BV.Sound(BV.Map(entries)) && i < |entries|
    ensures BV.Sound(entries[i].value) && BV.DistinctKeys(entries)
  {
  }

  lemma AppendedItem(items: seq<Value>, x: Value)
    requires BV.Sound(BV.Array(items)) && BV.Sound(x) && BV.Height(x) == 1
    ensures var after := BV.Array(items + [x]);
            && BV.Nodes(after) == BV.Nodes(BV.Array(items)) + BV.Nodes(x)
            && BV.Content(after) == BV.Content(BV.Array(items)) + BV.Content(x)
            && BV.Height(after) <= BV.Max(BV.Height(BV.Array(items)), 2)
            && (BV.Sound(after) <==> |items| < BV.MAX_CONTAINER_ENTRIES)
  {
    var more := items + [x];
    assert more[..|more| - 1] == items;
    assert forall i | 0 <= i < |items| :: more[i] == items[i];
  }

  /** Maps that differ in the value of one entry. */
  lemma OnlyOneChanges(before: seq<Entry>, after: seq<Entry>, i: nat)
    requires |after| == |before| && i < |before| && after[i].key == before[i].key
    requires forall k | 0 <= k < |before| && k != i :: after[k] == before[k]
    requires BV.Sound(BV.Map(before))
    ensures var b, a := before[i].value, after[i].value;
            && BV.Nodes(BV.Map(after)) + BV.Nodes(b) == BV.Nodes(BV.Map(before)) + BV.Nodes(a)
            && BV.Content(BV.Map(after)) + BV.Content(b) == BV.Content(BV.Map(before)) + BV.Content(a)
            && BV.Height(BV.Map(after)) <= BV.Max(BV.Height(BV.Map(before)), 1 + BV.Height(a))
            && BV.Height(b) < BV.Height(BV.Map(before))
            && (BV.Sound(BV.Map(after)) <==> BV.Sound(a))
  {
    hide BV.EntriesNodes, BV.EntriesContent, BV.EntriesHeight, BV.WireEntries, BV.WireEntry;
    MO.MeasuresWithout(before, i);
    MO.MeasuresWithout(after, i);
    assert MO.Without(before, i) == MO.Without(after, i);
    assert forall k | 0 <= k < |before| :: after[k].key == before[k].key;
  }

  // ---------------------------------------------------------------- when the result can be encoded

  lemma PairMeasures(e: seq<Entry>, k: nat)
    requires k + 2 <= |e|
    ensures BV.EntriesNodes(e[..k + 2])
         == BV.EntriesNodes(e[..k]) + BV.Nodes(e[k].value) + BV.Nodes(e[k + 1].value)
    ensures BV.EntriesContent(e[..k + 2])
         == BV.EntriesContent(e[..k]) + |e[k].key| + |e[k + 1].key|
            + BV.Content(e[k].value) + BV.Content(e[k + 1].value)
    ensures BV.EntriesHeight(e[..k + 2])
         == BV.Max(BV.Max(BV.EntriesHeight(e[..k]), BV.Height(e[k].value)), BV.Height(e[k + 1].value))
  {
    hide BV.Nodes, BV.Content, BV.Height, BV.EntriesNodes, BV.EntriesContent, BV.EntriesHeight, BV.WireEntry,
         BV.WireEntries;
    BV.EntriesStep(e, k);
    BV.EntriesStep(e, k + 1);
  }

  lemma AnswerMeasures(data: Value)
    ensures var v := Answer(Replace(data));
            && BV.Nodes(v) == BV.Nodes(data) + 4 && BV.Content(v) == BV.Content(data) + 48
            && BV.Height(v) == 1 + BV.Height(data)
            && (BV.Sound(v) <==> BV.Sound(data))
  {
    hide BV.EntriesNodes, BV.EntriesContent, BV.EntriesHeight;
    var e := Answer(Replace(data)).entries;
    PairMeasures(e, 0);
    PairMeasures(e, 2);
    assert e[..4] == e && e[..0] == [];
    NoEntries();
    assert |e[0].key| == 15 && |e[1].key| == 6 && |e[2].key| == 4 && |e[3].key| == 16;
    assert e[2].value == data;
  }

  lemma NoEntries()
    ensures BV.EntriesNodes([]) == 0 && BV.EntriesContent([]) == 0 && BV.EntriesHeight([]) == 0
  {
  }

  lemma ShortAnswersEncode()
    ensures BV.Encodable(Answer(Unchanged)) && BV.Encodable(PatchAnswer())
  {
    hide BV.EntriesNodes, BV.EntriesContent, BV.EntriesHeight;
    NoEntries();
    var e := Answer(Unchanged).entries;
    PairMeasures(e, 0);
    assert e[..2] == e && e[..0] == [];
    assert |e[0].key| == 15 && |e[1].key| == 6;
    var f := PatchAnswer().entries;
    PairMeasures(f, 0);
    assert f[..2] == f && f[..0] == [];
    assert |f[0].key| == 13 && |f[1].key| == 6;
  }

  /** The entry for `data` is part of the event. */
  lemma PartMeasures(v: Value, name: Text)
    requires Get(v, name).Some?
    ensures BV.Height(Get(v, name).value) < BV.Height(v)
  {
    hide BV.WireEntries, BV.WireEntry, BV.Nodes, BV.Content;
    MO.MeasuresWithout(v.entries, BV.FirstMatch(v.entries, name));
  }

  /** The changed event can be encoded exactly when the argument list is not full and the rest of the
      event leaves room: `data` then is wrapped in four nodes and 48 bytes, and grew by one node and 29. */
  lemma ReplacementEncodes(event: Value, after: Value)
    requires BV.Encodable(event) && Get(event, DATA).Some?
    requires AppendedAt(PATH, Get(event, DATA).value, after, ARGUMENT)
    ensures var data := Get(event, DATA).value;
            var arguments := GetPath(data, PATH);
            && arguments.Some? && arguments.value.Array?
            && (BV.Encodable(Answer(Replace(after))) <==>
                  && |arguments.value.items| < BV.MAX_CONTAINER_ENTRIES
                  && BV.Nodes(data) + 5 <= BV.MAX_TOTAL_VALUES
                  && BV.Content(data) + 77 <= BV.MAX_TOTAL_CONTENT_BYTES)
  {
    hide Answer, BV.Nodes, BV.Content, BV.Height, BV.Sound, AppendedAt, GetPath, Get, DATA, Ascii;
    GetSound(event, DATA);
    PartMeasures(event, DATA);
    ArgumentMeasures();
    AppendedMeasures(PATH, Get(event, DATA).value, after, ARGUMENT);
    AnswerMeasures(after);
  }

  lemma ArgumentMeasures()
    ensures BV.Sound(ARGUMENT) && BV.Nodes(ARGUMENT) == 1 && BV.Height(ARGUMENT) == 1 && BV.Content(ARGUMENT) == 29
  {
  }

  // ---------------------------------------------------------------- the operation

  /** One key and its value, by name. */
  function Named(name: string, value: Value): Entry {
    BV.Entry(Ascii(name), value)
  }

  function Word(text: string): Value {
    BV.String(Ascii(text))
  }

  /** The output decodes to the answer "replace", whose data is `data` with one argument appended. */
  predicate Replaced(output: seq<byte>, data: Value) {
    var v := D.FromWire(output);
    && v.Ok? && v.value.Map? && |v.value.entries| == 4
    && var after := v.value.entries[2].value;
       && v.value == BV.Map([Named("contractVersion", BV.Integer(1)), Named("action", Word("replace")),
                             Named("data", after), Named("protectedSecrets", BV.Map([]))])
       && AppendedAt([Ascii("plan"), Ascii("command"), Ascii("jvmArguments")], data, after,
                     Word("-Daura.example.wasm-hook=true"))
  }

  /** The output decodes to the answer "unchanged", under this version key. */
  predicate LeftAlone(output: seq<byte>, version: string) {
    D.FromWire(output) == BV.Ok(BV.Map([Named(version, BV.Integer(1)), Named("action", Word("unchanged"))]))
  }

  lemma AnswersByName(after: Value)
    ensures Answer(Replace(after))
         == BV.Map([Named("contractVersion", BV.Integer(1)), Named("action", Word("replace")),
                    Named("data", after), Named("protectedSecrets", BV.Map([]))])
    ensures Answer(Unchanged) == BV.Map([Named("contractVersion", BV.Integer(1)), Named("action", Word("unchanged"))])
    ensures PatchAnswer() == BV.Map([Named("schemaVersion", BV.Integer(1)), Named("action", Word("unchanged"))])
    ensures PATH == [Ascii("plan"), Ascii("command"), Ascii("jvmArguments")]
    ensures ARGUMENT == Word("-Daura.example.wasm-hook=true")
  {
    hide Ascii;
  }

  const UNDECODABLE := PluginError("invalid-result", "invalid Bridge Value v1 payload")
  const UNENCODABLE := PluginError("invalid-argument", "invalid Bridge Value v1 payload")

  lemma EncodedAnswer(v: Value)
    ensures var r := Encoded(v);
            && (r.Done? <==> BV.Encodable(v))
            && (r.Done? ==> D.FromWire(r.value) == BV.Ok(v))
            && (r.Denied? ==> r == Denied(UNENCODABLE))
  {
    hide D.FromWire, BV.Wire, BV.Encodable;
    if BV.Encodable(v) {
      CL.EncodeThenDecode(v);
    }
  }

  lemma DecodingFails(input: seq<byte>)
    requires D.FromWire(input).Err?
    ensures Decoded(input) == Denied(UNDECODABLE)
  {
    hide D.DecodeValue;
  }

  lemma ReplacedBy(output: seq<byte>, data: Value, after: Value)
    requires D.FromWire(output) == BV.Ok(Answer(Replace(after))) && AppendedAt(PATH, data, after, ARGUMENT)
    ensures Replaced(output, data)
  {
    hide D.FromWire, AppendedAt, Answer, Ascii, PATH, ARGUMENT;
    AnswersByName(after);
  }

  /** The hook operation on all inputs: which events are answered, with what, and when a change that
      is due cannot be encoded. */
  lemma EventExact(input: seq<byte>)
    ensures var r := OnEvent(input);
            match D.FromWire(input)
            case Err(_) => r == Denied(UNDECODABLE)
            case Ok(event) =>
              if Understood(event) && !StructuredJava(event) then
                r.Done? && LeftAlone(r.value, "contractVersion")
              else if Understood(event) && HasArguments(event) then
                var data := Get(event, DATA);
                var arguments := GetPath(event, [DATA, PLAN, COMMAND, JVM_ARGUMENTS]).value.items;
                && data.Some?
                && (r.Done? <==>
                      && |arguments| < BV.MAX_CONTAINER_ENTRIES
                      && BV.Nodes(data.value) + 5 <= BV.MAX_TOTAL_VALUES
                      && BV.Content(data.value) + 77 <= BV.MAX_TOTAL_CONTENT_BYTES)
                && (r.Done? ==> Replaced(r.value, data.value))
                && (r.Denied? ==> r.error == UNENCODABLE)
              else Obstacle(event).Some? && r == Denied(PluginError("invalid-argument", Obstacle(event).value))
  {
    hide D.FromWire, Decide, Understood, StructuredJava, AppendedAt, BV.Encodable, GetPath, Get, Encoded,
         BV.Nodes, BV.Content, DATA, PLAN, COMMAND, JVM_ARGUMENTS, PATH, ARGUMENT, Replaced, Answer, Obstacle, Ascii;
    match D.FromWire(input)
    case Err(_) => DecodingFails(input);
    case Ok(event) =>
      DecodedIsEncodable(input, event);
      DecideExact(event);
      RefusalExact(event);
      var decision := Decide(event);
      if decision.Done? {
        EncodedAnswer(Answer(decision.value));
        if decision.value.Replace? {
          ReplacementEncodes(event, decision.value.data);
          ArgumentsInEvent(event);
          var r := OnEvent(input);
          if r.Done? {
            ReplacedBy(r.value, Get(event, DATA).value, decision.value.data);
          }
        } else {
          ShortAnswersEncode();
          AnswersByName(event);
        }
      }
  }

  /** The patch operation on all inputs: a map whose schema version is 1 is answered with the one fixed
      map, and everything else is refused. */
  lemma PatchExact(input: seq<byte>)
    ensures var r := OnPatch(input);
            match D.FromWire(input)
            case Err(_) => r == Denied(UNDECODABLE)
            case Ok(request) =>
              if Get(request, SCHEMA_VERSION) == Some(BV.Integer(1)) then
                r.Done? && LeftAlone(r.value, "schemaVersion")
              else if request.Map? then
                r == Denied(PluginError("invalid-argument", "invalid callback contract version"))
              else r == Denied(PluginError("invalid-argument", "Patch request must be a map"))
  {
    hide D.FromWire, BV.Encodable, Encoded, AnyMatch, BV.FirstMatch, SCHEMA_VERSION, PatchAnswer, Ascii;
    match D.FromWire(input)
    case Err(_) => DecodingFails(input);
    case Ok(request) =>
      DecodedIsEncodable(input, request);
      if request.Map? {
        AnyIsFirst(request.entries, SCHEMA_VERSION, BV.Integer(1));
      }
      ShortAnswersEncode();
      EncodedAnswer(PatchAnswer());
      AnswersByName(request);
  }

  lemma DecodedIsEncodable(input: seq<byte>, event: Value)
    requires D.FromWire(input) == BV.Ok(event)
    ensures BV.Encodable(event) && BV.Sound(event)
  {
    hide D.FromWire, BV.Wire;
    CL.DecodeThenEncode(input);
  }

  lemma ArgumentsInEvent(event: Value)
    requires Get(event, DATA).Some?
    ensures GetPath(event, [DATA, PLAN, COMMAND, JVM_ARGUMENTS]) == GetPath(Get(event, DATA).value, PATH)
  {
    hide Get;
    assert [DATA, PLAN, COMMAND, JVM_ARGUMENTS][1..] == PATH;
  }
}
