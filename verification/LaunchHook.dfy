/**
 The launch-hook example guest: a three-state lifecycle, and an operation that appends one argument
 to the launch command of an event.
 */
module LaunchHook {
  import opened Bytes
  import BV = BridgeValue
  import D = Decoding

  type Value = BV.Value
  type Entry = BV.Entry

  const CREATED := 0
  const LOADED := 1
  const ENABLED := 2

  datatype PluginError = PluginError(code: string, message: string)

  datatype Hook<+T> = Done(value: T) | Denied(error: PluginError) {
    predicate IsFailure() { Denied? }
    function PropagateFailure<U>(): Hook<U>
      requires Denied?
    {
      Denied(error)
    }
    function Extract(): T
      requires Done?
    {
      value
    }
  }

  function InvalidArgument<T>(message: string): Hook<T> {
    Denied(PluginError("invalid-argument", message))
  }

  function BridgeError<T>(code: BV.ErrorCode): Hook<T> {
    var text := match code
      case InvalidArgument => "invalid-argument"
      case InvalidResult => "invalid-result"
      case _ => "internal";
    Denied(PluginError(text, "invalid Bridge Value v1 payload"))
  }

  // ---------------------------------------------------------------- names

  const SCHEMA_VERSION := Ascii("schemaVersion")
  const CONTRACT_VERSION := Ascii("contractVersion")
  const POINT := Ascii("point")
  const ACTION := Ascii("action")
  const DATA := Ascii("data")
  const PLAN := Ascii("plan")
  const COMMAND := Ascii("command")
  const MODE := Ascii("mode")
  const JVM_ARGUMENTS := Ascii("jvmArguments")
  const PROTECTED_SECRETS := Ascii("protectedSecrets")

  const BEFORE_LAUNCH := BV.String(Ascii("before-game-launch"))
  const STRUCTURED_JAVA := BV.String(Ascii("structured-java"))
  const UNCHANGED := BV.String(Ascii("unchanged"))
  const REPLACE := BV.String(Ascii("replace"))
  const ARGUMENT := BV.String(Ascii("-Daura.example.wasm-hook=true"))

  const PATCH_OPERATION := Ascii("aura.patch.v1")
  const HOOK_OPERATION := Ascii("hook.before-game-launch")

  // ---------------------------------------------------------------- reading entries

  /** Some entry has this key and this value. */
  predicate AnyMatch(entries: seq<Entry>, name: Text, value: Value) {
    exists i | 0 <= i < |entries| :: entries[i] == BV.Entry(name, value)
  }

  /** `field_mut` and `take_field`: where the first entry with this key is. */
  function Field(entries: seq<Entry>, name: Text): (r: Hook<nat>)
    ensures r.Done? ==> r.value < |entries| && entries[r.value].key == name
  {
    var i := BV.FirstMatch(entries, name);
    if i < |entries| then Done(i) else InvalidArgument("required Hook field is missing")
  }

  /** `require_map` and `map_mut`. */
  function Entries(v: Value, message: string): (r: Hook<seq<Entry>>)
    ensures r.Done? ==> v == BV.Map(r.value)
  {
    if v.Map? then Done(v.entries) else InvalidArgument(message)
  }

  function RequireInteger(entries: seq<Entry>, name: Text, expected: i64): Hook<()> {
    if AnyMatch(entries, name, BV.Integer(expected)) then Done(())
    else InvalidArgument("invalid callback contract version")
  }

  function RequireString(entries: seq<Entry>, name: Text, expected: Value): Hook<()> {
    if AnyMatch(entries, name, expected) then Done(()) else InvalidArgument("invalid Hook point")
  }

  // ---------------------------------------------------------------- the tree update

  datatype Decision = Unchanged | Replace(data: Value)

  function SetValue(entries: seq<Entry>, i: nat, v: Value): Value
    requires i < |entries|
  {
    BV.Map(entries[i := entries[i].(value := v)])
  }

  /** What the hook makes of the launch command: nothing, or the command with one argument more. */
  function Extend(command: seq<Entry>): Hook<Option<Value>> {
    if !AnyMatch(command, MODE, STRUCTURED_JAVA) then Done(None)
    else
      var at :- Field(command, JVM_ARGUMENTS);
      var arguments := command[at].value;
      if !arguments.Array? then InvalidArgument("jvmArguments must be an array")
      else Done(Some(SetValue(command, at, BV.Array(arguments.items + [ARGUMENT]))))
  }

  /** What the hook makes of an event. */
  function Decide(event: Value): Hook<Decision> {
    var top :- Entries(event, "Hook event must be a map");
    var _ :- RequireInteger(top, CONTRACT_VERSION, 1);
    var _ :- RequireString(top, POINT, BEFORE_LAUNCH);
    var atData :- Field(top, DATA);
    var data :- Entries(top[atData].value, "Hook data must be a map");
    var atPlan :- Field(data, PLAN);
    var plan :- Entries(data[atPlan].value, "launch plan must be a map");
    var atCommand :- Field(plan, COMMAND);
    var command :- Entries(plan[atCommand].value, "launch command must be a map");
    var extended :- Extend(command);
    match extended
    case None => Done(Unchanged)
    case Some(v) => Done(Replace(SetValue(data, atPlan, SetValue(plan, atCommand, v))))
  }

  function Answer(decision: Decision): Value {
    match decision
    case Unchanged => BV.Map([BV.Entry(CONTRACT_VERSION, BV.Integer(1)), BV.Entry(ACTION, UNCHANGED)])
    case Replace(data) =>
      BV.Map([BV.Entry(CONTRACT_VERSION, BV.Integer(1)), BV.Entry(ACTION, REPLACE),
              BV.Entry(DATA, data), BV.Entry(PROTECTED_SECRETS, BV.Map([]))])
  }

  function PatchAnswer(): Value {
    BV.Map([BV.Entry(SCHEMA_VERSION, BV.Integer(1)), BV.Entry(ACTION, UNCHANGED)])
  }

  function Encoded(v: Value): Hook<seq<byte>> {
    match BV.ToWire(v)
    case Err(code) => BridgeError(code)
    case Ok(bytes) => Done(bytes)
  }

  function Decoded(input: seq<byte>): Hook<Value> {
    match D.FromWire(input)
    case Err(code) => BridgeError(code)
    case Ok(v) => Done(v)
  }

  function OnPatch(input: seq<byte>): Hook<seq<byte>> {
    var request :- Decoded(input);
    var fields :- Entries(request, "Patch request must be a map");
    var _ :- RequireInteger(fields, SCHEMA_VERSION, 1);
    Encoded(PatchAnswer())
  }

  function OnEvent(input: seq<byte>): Hook<seq<byte>> {
    var event :- Decoded(input);
    var decision :- Decide(event);
    Encoded(Answer(decision))
  }

  // ---------------------------------------------------------------- state changes

  const INVALID_TRANSITION := PluginError("invalid-state", "invalid plugin lifecycle transition")
  const NOT_ENABLED := PluginError("invalid-state", "plugin is not enabled")

  class Guest {
    var state: nat

    constructor ()
      ensures state == CREATED
    {
      state := CREATED;
    }

    /** A compare-and-exchange on the state. */
    method Transition(from: nat, to: nat) returns (r: Hook<()>)
      modifies this
      ensures if old(state) == from then r == Done(()) && state == to
              else r == Denied(INVALID_TRANSITION) && state == old(state)
    {
      if state == from {
        state := to;
        r := Done(());
      } else {
        r := Denied(INVALID_TRANSITION);
      }
    }

    method Invoke(operation: Text, input: seq<byte>, callbackId: u64) returns (r: Hook<seq<byte>>)
      ensures state != ENABLED ==> r == Denied(NOT_ENABLED)
      ensures state == ENABLED && operation == PATCH_OPERATION ==> r == OnPatch(input)
      ensures state == ENABLED && operation == HOOK_OPERATION ==> r == OnEvent(input)
      ensures state == ENABLED && operation != PATCH_OPERATION && operation != HOOK_OPERATION ==>
                r == InvalidArgument("unsupported operation")
    {
      hide BV.ToWire, D.FromWire, Ascii;
      if state != ENABLED {
        return Denied(NOT_ENABLED);
      }
      if operation == PATCH_OPERATION {
        return OnPatch(input);
      }
      if operation != HOOK_OPERATION {
        return InvalidArgument("unsupported operation");
      }
      var event := Decoded(input);
      if event.Denied? {
        return Denied(event.error);
      }
      var decision := Append(event.value);
      if decision.Denied? {
        return Denied(decision.error);
      }
      r := Encoded(Answer(decision.value));
    }

    /** The search behind `field_mut` and `take_field`. */
    method Find(entries: seq<Entry>, name: Text) returns (i: nat)
      ensures i == BV.FirstMatch(entries, name)
    {
      i := 0;
      while i < |entries| && entries[i].key != name
        invariant i <= |entries|
        invariant BV.FirstMatch(entries, name) == i + BV.FirstMatch(entries[i..], name)
      {
        assert entries[i..][0] == entries[i] && entries[i..][1..] == entries[i + 1..];
        i := i + 1;
      }
      assert i < |entries| ==> entries[i..][0] == entries[i];
    }

    method ExtendCommand(command: seq<Entry>) returns (r: Hook<Option<Value>>)
      ensures r == Extend(command)
    {
      hide BV.FirstMatch, Ascii;
      if !AnyMatch(command, MODE, STRUCTURED_JAVA) {
        return Done(None);
      }
      var at := Find(command, JVM_ARGUMENTS);
      if at == |command| {
        return InvalidArgument("required Hook field is missing");
      }
      var arguments := command[at].value;
      if !arguments.Array? {
        return InvalidArgument("jvmArguments must be an array");
      }
      arguments := BV.Array(arguments.items + [ARGUMENT]);
      r := Done(Some(SetValue(command, at, arguments)));
    }

    /** Takes the event apart down to the argument list, appends to it, and puts the levels back. */
    method Append(event: Value) returns (r: Hook<Decision>)
      ensures r == Decide(event)
    {
      hide BV.FirstMatch, Ascii, AnyMatch, Extend, SetValue;
      if !event.Map? {
        return InvalidArgument("Hook event must be a map");
      }
      if !AnyMatch(event.entries, CONTRACT_VERSION, BV.Integer(1)) {
        return InvalidArgument("invalid callback contract version");
      }
      if !AnyMatch(event.entries, POINT, BEFORE_LAUNCH) {
        return InvalidArgument("invalid Hook point");
      }
      var i := Find(event.entries, DATA);
      if i == |event.entries| {
        return InvalidArgument("required Hook field is missing");
      }
      var data := event.entries[i].value;
      if !data.Map? {
        return InvalidArgument("Hook data must be a map");
      }
      var j := Find(data.entries, PLAN);
      if j == |data.entries| {
        return InvalidArgument("required Hook field is missing");
      }
      var plan := data.entries[j].value;
      if !plan.Map? {
        return InvalidArgument("launch plan must be a map");
      }
      var k := Find(plan.entries, COMMAND);
      if k == |plan.entries| {
        return InvalidArgument("required Hook field is missing");
      }
      var command := plan.entries[k].value;
      if !command.Map? {
        return InvalidArgument("launch command must be a map");
      }
      var extended := ExtendCommand(command.entries);
      if extended.Denied? {
        return Denied(extended.error);
      }
      if extended.value == None {
        return Done(Unchanged);
      }
      plan := SetValue(plan.entries, k, extended.value.value);
      data := SetValue(data.entries, j, plan);
      r := Done(Replace(data));
    }

    method Load() returns (r: Hook<()>)
      modifies this
      ensures r == (if old(state) == CREATED then Done(()) else Denied(INVALID_TRANSITION))
      ensures state == (if old(state) == CREATED then LOADED else old(state))
    {
      r := Transition(CREATED, LOADED);
    }

    method Enable() returns (r: Hook<()>)
      modifies this
      ensures r == (if old(state) == LOADED then Done(()) else Denied(INVALID_TRANSITION))
      ensures state == (if old(state) == LOADED then ENABLED else old(state))
    {
      r := Transition(LOADED, ENABLED);
    }

    method Disable() returns (r: Hook<()>)
      modifies this
      ensures r == (if old(state) == ENABLED then Done(()) else Denied(INVALID_TRANSITION))
      ensures state == (if old(state) == ENABLED then LOADED else old(state))
    {
      r := Transition(ENABLED, LOADED);
    }

    method Unload() returns (r: Hook<()>)
      modifies this
      ensures r == (if old(state) == LOADED then Done(()) else Denied(INVALID_TRANSITION))
      ensures state == (if old(state) == LOADED then CREATED else old(state))
    {
      r := Transition(LOADED, CREATED);
    }
  }
}
