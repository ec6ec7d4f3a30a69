/**
 How long the launch hook's answers are, and that the server can always deliver them.
 */
module HookAnswers {
  import opened Bytes
  import BV = BridgeValue
  import D = Decoding
  import CL = CodecLaws
  import MO = MapOrder
  import PL = ProtocolLaws
  import opened Protocol
  import opened Frames
  import FL = FrameLaws
  import opened Host
  import R = Replies
  import EE = EdgeCases
  import LH = LaunchHook
  import HL = HookLaws
  import HR = HookRuns

  // ---------------------------------------------------------------- how long answers are

  /** An append adds exactly the bytes of what is appended. */
  lemma {:induction false} AppendedLength(path: seq<Text>, before: BV.Value, after: BV.Value, x: BV.Value)
    requires BV.Sound(before) && HL.AppendedAt(path, before, after, x)
    ensures |BV.Wire(after)| == |BV.Wire(before)| + |BV.Wire(x)|
    decreases |path|
  {
    hide BV.Wire, BV.WireEntry, BV.WireEntries, BV.EntriesNodes, BV.EntriesContent, BV.EntriesHeight;
    if path == [] {
      ItemsLength(before.items, x);
    } else {
      var i := BV.FirstMatch(before.entries, path[0]);
      HL.SoundMap(before.entries, i);
      AppendedLength(path[1..], before.entries[i].value, after.entries[i].value, x);
      ChangedLength(before.entries, after.entries, i);
    }
  }

  lemma ItemsLength(items: seq<BV.Value>, x: BV.Value)
    ensures |BV.Wire(BV.Array(items + [x]))| == |BV.Wire(BV.Array(items))| + |BV.Wire(x)|
  {
    hide BigEndian, BV.ItemsNodes, BV.ItemsContent, BV.ItemsHeight;
    var more := items + [x];
    BV.ItemsStep(more, |items|);
    assert more[..|items|] == items && more[..|items| + 1] == more;
    ArrayLength(items);
    ArrayLength(more);
  }

  lemma ArrayLength(items: seq<BV.Value>)
    ensures |BV.Wire(BV.Array(items))| == 7 + |BV.WireItems(items)|
  {
    hide BV.WireItems, BigEndian;
  }

  /** Maps that differ in the value of one entry differ in length as those values do. */
  lemma ChangedLength(before: seq<BV.Entry>, after: seq<BV.Entry>, i: nat)
    requires |after| == |before| && i < |before| && after[i].key == before[i].key
    requires forall k | 0 <= k < |before| && k != i :: after[k] == before[k]
    ensures |BV.Wire(BV.Map(after))| + |BV.Wire(before[i].value)|
         == |BV.Wire(BV.Map(before))| + |BV.Wire(after[i].value)|
  {
    hide BV.Wire, BV.WireEntry, BV.WireEntries, BV.EntriesNodes, BV.EntriesContent, BV.EntriesHeight;
    MO.MeasuresWithout(before, i);
    MO.MeasuresWithout(after, i);
    assert MO.Without(before, i) == MO.Without(after, i);
    PL.MapSize(before);
    PL.MapSize(after);
    PL.EntryLength(before[i]);
    PL.EntryLength(after[i]);
  }

  lemma FieldLength(event: BV.Value, name: Text)
    requires event.Map? && HL.Get(event, name).Some?
    ensures HasKey(event.entries, name) && BV.Find(event.entries, name) == HL.Get(event, name)
  {
  }

  lemma NamesAreDistinct()
    ensures MO.Distinct([LH.CONTRACT_VERSION, LH.POINT, LH.DATA])
    ensures |LH.CONTRACT_VERSION| == 15 && |LH.POINT| == 5 && |LH.DATA| == 4 && |LH.SCHEMA_VERSION| == 13
    ensures |LH.ACTION| == 6 && |LH.PROTECTED_SECRETS| == 16
  {
  }

  lemma TextLengths()
    ensures LH.BEFORE_LAUNCH.String? && |LH.BEFORE_LAUNCH.text| == 18
    ensures LH.UNCHANGED.String? && |LH.UNCHANGED.text| == 9
    ensures LH.REPLACE.String? && |LH.REPLACE.text| == 7
    ensures LH.ARGUMENT.String? && |LH.ARGUMENT.text| == 29
  {
  }

  /** What an event the hook reads holds besides its data. */
  lemma EventLength(event: BV.Value)
    requires HL.Get(event, LH.CONTRACT_VERSION) == Some(BV.Integer(1))
    requires HL.Get(event, LH.POINT) == Some(LH.BEFORE_LAUNCH) && HL.Get(event, LH.DATA).Some?
    ensures |BV.Wire(event)| >= 85 + |BV.Wire(HL.Get(event, LH.DATA).value)|
  {
    hide LH.CONTRACT_VERSION, LH.POINT, LH.DATA, LH.BEFORE_LAUNCH, BV.Wire, BV.WireEntry, BV.WireEntries,
         BV.EntriesNodes, BV.EntriesContent, BV.EntriesHeight, BV.Find, HasKey, HL.Get;
    assert event.Map? by { EventIsMap(event); }
    NamesAreDistinct();
    TextLengths();
    var names := [LH.CONTRACT_VERSION, LH.POINT, LH.DATA];
    FieldLength(event, names[0]);
    FieldLength(event, names[1]);
    FieldLength(event, names[2]);
    MO.GatherIsShorter(event.entries, names);
    var gathered := MO.Gather(event.entries, names);
    PL.GatherAt(event.entries, names);
    PL.EntriesLength(gathered);
    PL.EntryLength(gathered[0]);
    PL.EntryLength(gathered[1]);
    PL.EntryLength(gathered[2]);
    PL.MapSize(event.entries);
  }

  lemma EventIsMap(event: BV.Value)
    requires HL.Get(event, LH.DATA).Some?
    ensures event.Map?
  {
  }

  lemma ReplacementLength(data: BV.Value)
    ensures |BV.Wire(LH.Answer(LH.Replace(data)))| == 104 + |BV.Wire(data)|
  {
    hide LH.CONTRACT_VERSION, LH.ACTION, LH.DATA, LH.PROTECTED_SECRETS, LH.REPLACE, BV.Wire, BV.WireEntry,
         BV.WireEntries;
    NamesAreDistinct();
    TextLengths();
    PL.NoEntriesLength();
    PL.MapSize([]);
    var e := LH.Answer(LH.Replace(data)).entries;
    PL.MapSize(e);
    PL.EntriesLength(e);
    PL.EntryLength(e[0]);
    PL.EntryLength(e[1]);
    PL.EntryLength(e[2]);
    PL.EntryLength(e[3]);
  }

  lemma ShortAnswerLengths()
    ensures |BV.Wire(LH.Answer(LH.Unchanged))| == 67 && |BV.Wire(LH.PatchAnswer())| == 65
  {
    hide LH.CONTRACT_VERSION, LH.ACTION, LH.SCHEMA_VERSION, LH.UNCHANGED, BV.Wire, BV.WireEntry, BV.WireEntries;
    NamesAreDistinct();
    TextLengths();
    var e, f := LH.Answer(LH.Unchanged).entries, LH.PatchAnswer().entries;
    PL.MapSize(e);
    PL.EntriesLength(e);
    PL.EntryLength(e[0]);
    PL.EntryLength(e[1]);
    PL.MapSize(f);
    PL.EntriesLength(f);
    PL.EntryLength(f[0]);
    PL.EntryLength(f[1]);
  }

  /** What a patch request holds at least. */
  lemma RequestLength(request: BV.Value)
    requires HL.Get(request, LH.SCHEMA_VERSION).Some?
    ensures |BV.Wire(request)| >= 29
  {
    hide LH.SCHEMA_VERSION, BV.Wire, BV.WireEntry, BV.WireEntries, BV.EntriesNodes, BV.EntriesContent, BV.EntriesHeight;
    NamesAreDistinct();
    var i := BV.FirstMatch(request.entries, LH.SCHEMA_VERSION);
    MO.MeasuresWithout(request.entries, i);
    PL.EntryLength(request.entries[i]);
    PL.MapSize(request.entries);
  }

  /** What the hook puts out decodes, and is at most 55 bytes longer than what it was given. */
  predicate Close(output: seq<byte>, input: seq<byte>) {
    D.FromWire(output).Ok? && |output| <= |input| + 55
  }

  lemma DecodedLength(input: seq<byte>, v: BV.Value)
    requires D.FromWire(input) == BV.Ok(v)
    ensures BV.Encodable(v) && BV.Sound(v) && input == BV.Wire(v)
  {
    hide D.FromWire, BV.Wire;
    CL.DecodeThenEncode(input);
  }

  lemma EventAnswerIsClose(input: seq<byte>)
    requires LH.OnEvent(input).Done?
    ensures Close(LH.OnEvent(input).value, input)
  {
    hide D.FromWire, BV.Wire, LH.OnEvent, HL.Understood, HL.StructuredJava, HL.HasArguments, HL.GetPath, HL.Get,
         HL.AppendedAt, LH.Answer, LH.ARGUMENT, BV.Nodes, BV.Content, HL.PATH, BV.Encodable, LH.DATA, LH.POINT,
         LH.CONTRACT_VERSION, LH.COMMAND, LH.PLAN, LH.JVM_ARGUMENTS, LH.BEFORE_LAUNCH, Ascii, HL.Obstacle;
    HL.EventExact(input);
    var event := D.FromWire(input).value;
    DecodedLength(input, event);
    var output := LH.OnEvent(input).value;
    DecodedLength(output, D.FromWire(output).value);
    UnderstoodHasData(event);
    EventLength(event);
    if HL.StructuredJava(event) {
      var data, after := HL.Get(event, LH.DATA).value, D.FromWire(output).value.entries[2].value;
      HL.GetSound(event, LH.DATA);
      HL.AnswersByName(after);
      AppendedLength(HL.PATH, data, after, LH.ARGUMENT);
      ArgumentLength();
      ReplacementLength(after);
    } else {
      HL.AnswersByName(event);
      ShortAnswerLengths();
    }
  }

  lemma ArgumentLength()
    ensures |BV.Wire(LH.ARGUMENT)| == 36
  {
    hide Ascii, BigEndian;
  }

  lemma UnderstoodHasData(event: BV.Value)
    requires HL.Understood(event)
    ensures HL.Get(event, LH.CONTRACT_VERSION) == Some(BV.Integer(1))
    ensures HL.Get(event, LH.POINT) == Some(LH.BEFORE_LAUNCH) && HL.Get(event, LH.DATA).Some?
  {
    hide Ascii, HL.Get, LH.CONTRACT_VERSION, LH.POINT, LH.DATA, LH.BEFORE_LAUNCH, LH.MODE;
    HL.CommandPath(event, LH.MODE);
  }

  lemma PatchAnswerIsClose(input: seq<byte>)
    requires LH.OnPatch(input).Done?
    ensures Close(LH.OnPatch(input).value, input)
  {
    hide D.FromWire, BV.Wire, LH.OnPatch, LH.PatchAnswer, BV.Encodable, HL.Get, LH.SCHEMA_VERSION, Ascii;
    HL.PatchExact(input);
    var request := D.FromWire(input).value;
    DecodedLength(input, request);
    RequestLength(request);
    var output := LH.OnPatch(input).value;
    DecodedLength(output, D.FromWire(output).value);
    HL.AnswersByName(request);
    ShortAnswerLengths();
  }

  // ---------------------------------------------------------------- answers are delivered

  /** What the hook answers to a call: an output for one of its two operations, which is close to the
      input, or a short refusal. */
  lemma OutcomeIsDeliverable(state: nat, call: ExportCall)
    ensures match HR.OutcomeOf(state, call)
            case Returns(output) =>
              call.CallInvoke? ==> |call.operation| >= 13 && Close(output, call.input)
            case Fails(code, message) => |code| <= 20 && |message| <= 60
            case Traps => false
  {
    hide LH.OnEvent, LH.OnPatch, Close, LH.PATCH_OPERATION, LH.HOOK_OPERATION;
    OperationLengths();
    if call.CallInvoke? {
      var input := call.input;
      HR.RefusalsArePlain(input);
      if LH.OnEvent(input).Done? {
        EventAnswerIsClose(input);
      }
      if LH.OnPatch(input).Done? {
        PatchAnswerIsClose(input);
      }
    }
  }

  lemma OperationLengths()
    ensures |LH.PATCH_OPERATION| == 13 && |LH.HOOK_OPERATION| == 23
  {
  }

  /** The payload of an invoke that came in a frame. */
  lemma InvokeLength(m: Message)
    requires FL.CanFrame(m) && m.body.Invoke?
    ensures 175 + |m.body.operation| + |m.body.input| <= MAX_FRAME_BYTES
  {
    hide Frame;
    FL.FrameExact(m);
  }

  /** The export call of the command came to an end without a trap, in a store that let it in. */
  predicate Answers(env: Env, wd: World, body: MessageBody) {
    var call := CallOf(env, wd, body);
    && call.Some?
    && !PluginCall(env, call.value.0, call.value.1, call.value.2).2.EngineError?
  }

  /** Every answer of the hook to a command that came in a frame can be delivered. */
  lemma AnswersAreAnswerable(env: Env, wd: World, m: Message)
    requires HR.HostsHook(env) && FL.CanFrame(m) && IsCommand(m.body) && Answers(env, wd, m.body)
    ensures R.Answerable(m.body, Dispatch(env, wd, m.body).1)
  {
    hide FL.CanFrame, Dispatch, D.FromWire, Ascii, HR.OutcomeOf, HR.StateAfter, RunOps;
    DispatchOutcome(env, wd, m.body);
    var (w, p, call) := CallOf(env, wd, m.body).value;
    var history := p.history + [call];
    assert history[..|history| - 1] == p.history;
    var outcome := env.guest(p.instance, history).outcome;
    assert outcome.Traps? || outcome == HR.OutcomeOf(HR.StateAfter(p.history), call);
    OutcomeIsDeliverable(HR.StateAfter(p.history), call);
    if m.body.Invoke? {
      InvokeLength(m);
    }
  }

  // ---------------------------------------------------------------- over whole runs

  /** The last thing that happened is that an export call ended with an answer. */
  predicate JustAnswered(log: seq<Event>) {
    log != [] && var last := log[|log| - 1]; last.Left? && !last.outcome.Trapped?
  }

  lemma CallEnds(env: Env, w: Wire, p: Plugin, call: ExportCall)
    requires !JustAnswered(w.log)
    ensures var (w', _, r) := PluginCall(env, w, p, call); JustAnswered(w'.log) <==> !r.EngineError?
  {
    hide RunOps, Labelled, Ascii;
  }

  /** When a command leaves an answer of the hook as the last event, poison ended the run. */
  lemma TurnDelivers(env: Env, wd: World, m: Message)
    requires HR.HostsHook(env) && FL.CanFrame(m) && wd.wire.sink.room == None && !JustAnswered(wd.wire.log)
    ensures var (after, going) := Turn(env, wd, m);
            JustAnswered(after.wire.log) ==>
              after.wire.poison.Some? && going == Invalid(after.wire.poison.value)
  {
    hide HR.HostsHook, FL.CanFrame, FL.FrameOf, Turn, Dispatch, R.Answerable, Ascii, PluginCall, D.FromWire;
    if m.requestId % 2 == 0 {
      EE.EvenEnds(env, wd, m);
    } else {
      InRange(m);
      R.TurnExact(env, wd, m);
      if IsCommand(m.body) {
        DispatchOutcome(env, wd, m.body);
        match CallOf(env, wd, m.body)
        case None =>
        case Some((w, p, call)) =>
          CallEnds(env, w, p, call);
          if Answers(env, wd, m.body) {
            AnswersAreAnswerable(env, wd, m);
          }
      }
    }
  }

  lemma InRange(m: Message)
    requires FL.CanFrame(m)
    ensures m.requestId < I64_LIMIT
  {
  }

  lemma {:induction false} ServeDelivers(env: Env, wd: World)
    requires HR.HostsHook(env) && wd.wire.sink.room == None && !JustAnswered(wd.wire.log)
    ensures var (after, r) := Serve(env, wd);
            r.Failure? && JustAnswered(after.wire.log) ==>
              after.wire.poison.Some? && r == Invalid(after.wire.poison.value)
    decreases |wd.wire.input|
  {
    hide HR.HostsHook, Turn, CloseOnEof, ReadFrame, FL.CanFrame, FL.FrameOf;
    var read := ReadFrame(wd.wire.input, wd.wire.broken);
    var next := wd.(wire := wd.wire.(input := read.rest));
    match read.outcome
    case Failure(_) =>
    case Success(None) =>
    case Success(Some(m)) =>
      FL.ReadIsWritable(wd.wire.input, wd.wire.broken);
      var received := next.(wire := next.wire.Log(Received(m)));
      TurnDelivers(env, received, m);
      TurnFollows(env, received, m);
      var (after, going) := Turn(env, received, m);
      if going == Success(true) {
        ServeDelivers(env, after);
      }
  }

  /** In a run that hosts the hook and has a working writer, an answer of the hook never ends the run:
      when one is the last event of a run that failed, its call had poisoned the cell. */
  lemma AnswersNeverEndARun(env: Env, input: seq<byte>, broken: bool)
    requires HR.HostsHook(env)
    ensures var (after, r) := Serve(env, Initial(input, broken, None));
            r.Failure? && JustAnswered(after.wire.log) ==>
              after.wire.poison.Some? && r == Invalid(after.wire.poison.value)
  {
    hide HR.HostsHook, Serve;
    ServeDelivers(env, Initial(input, broken, None));
  }
}
