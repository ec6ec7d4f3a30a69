/**
 The process server as objects: streams, poison cell and plugin are shared and updated in place.
 Each method is proved to do what the function of the same name in `Host` says, so every property
 of runs proved there holds of these objects. The journal is ghost: it records, and decides nothing.
 */
module Server {
  import opened Bytes
  import D = Decoding
  import opened Protocol
  import opened Frames
  import FL = FrameLaws
  import H = Host
  import T = Traces

  class Cell {
    var reason: Option<string>

    constructor ()
      ensures reason == None
    {
      reason := None;
    }
  }

  class Journal {
    ghost var events: seq<H.Event>

    constructor ()
      ensures events == []
    {
      events := [];
    }

    ghost method Record(e: H.Event)
      modifies this
      ensures events == old(events) + [e]
    {
      events := events + [e];
    }
  }

  // ---------------------------------------------------------------- bridge

  class ProcessBridge {
    const reader: ByteReader
    const writer: ByteWriter
    const poison: Cell
    const pluginId: u64
    const session: u64
    var nextCallbackId: u64
    const journal: Journal

    constructor (reader: ByteReader, writer: ByteWriter, poison: Cell, journal: Journal, pluginId: u64, session: u64)
      ensures this.reader == reader && this.writer == writer && this.poison == poison && this.journal == journal
      ensures State() == H.Bridge(pluginId, session, 2)
    {
      this.reader, this.writer, this.poison, this.journal := reader, writer, poison, journal;
      this.pluginId, this.session, this.nextCallbackId := pluginId, session, 2;
    }

    ghost function Wires(): H.Wire
      reads reader, writer, poison, journal
    {
      H.Wire(reader.data, reader.broken, writer.State(), poison.reason, journal.events)
    }

    ghost function State(): H.Bridge
      reads this
    {
      H.Bridge(pluginId, session, nextCallbackId)
    }

    method ProtocolFailure(error: ProtocolError) returns (r: H.BridgeError)
      modifies poison, journal
      ensures Wires() == H.Refuse(old(Wires()), error) && r == H.ProtocolFault(error)
    {
      var reason := H.Reason(error);
      if poison.reason == None {
        poison.reason := Some(reason);
      }
      journal.Record(H.Refused(reason));
      r := H.ProtocolFault(error);
    }

    /** The write half of `call`. */
    method SendRequest(body: MessageBody) returns (r: Outcome<u64>)
      modifies this, writer, journal
      ensures (Wires(), State(), r) == H.SendRequest(old(Wires()), old(State()), body)
    {
      hide NewMessage, PutFrame;
      var id := nextCallbackId;
      nextCallbackId := (id + 2) % U64_LIMIT;
      if id == 0 || id >= I64_LIMIT {
        return Invalid("callback request ID overflow");
      }
      var made := NewMessage(id, body);
      if made.Failure? {
        return Failure(made.error);
      }
      var written := writer.WriteFrame(made.value);
      if written.Failure? {
        return Failure(written.error);
      }
      journal.Record(H.Sent(made.value));
      r := Success(id);
    }

    /** The read half of `call`. */
    method AwaitResponse(id: u64) returns (r: Outcome<MessageBody>)
      modifies reader, journal
      ensures (Wires(), r) == H.AwaitResponse(old(Wires()), id)
    {
      hide Validate, ReadFrame, FromWire;
      var read := reader.NextFrame();
      if read.Failure? {
        return Failure(read.error);
      }
      if read.value == None {
        return Invalid("callback response is missing");
      }
      var response := read.value.value;
      journal.Record(H.Received(response));
      r := if response.requestId != id then Invalid("callback response request ID mismatch")
           else Success(response.body);
    }

    /** `ProcessBridge::call`. */
    method Call(body: MessageBody) returns (r: H.BridgeResult<MessageBody>)
      modifies this, reader, writer, poison, journal
      ensures (Wires(), State(), r) == H.Call(old(Wires()), old(State()), body)
    {
      hide H.SendRequest, H.AwaitResponse, H.Reason;
      var sent := SendRequest(body);
      if sent.Failure? {
        var e := ProtocolFailure(sent.error);
        return H.Denied(e);
      }
      var answer := AwaitResponse(sent.value);
      if answer.Failure? {
        var e := ProtocolFailure(answer.error);
        return H.Denied(e);
      }
      r := H.Granted(answer.value);
    }

    method HandleCall(session: u64, body: MessageBody) returns (r: H.BridgeResult<()>)
      modifies this, reader, writer, poison, journal
      ensures (Wires(), State(), r) == H.HandleCall(old(Wires()), old(State()), session, body)
    {
      hide H.Call, H.Reason;
      if session != this.session {
        var e := ProtocolFailure(InvalidData("callback session mismatch"));
        return H.Denied(e);
      }
      var response := Call(body);
      if response.Denied? {
        return H.Denied(response.error);
      }
      if response.value.CallbackResult? && response.value.output == [] {
        r := H.Granted(());
      } else if response.value.CallbackError? {
        r := H.Denied(H.Callback(response.value.code));
      } else {
        var e := ProtocolFailure(InvalidData("invalid handle callback response"));
        r := H.Denied(e);
      }
    }

    method Invoke(pluginId: u64, session: u64, operation: Text, input: seq<byte>) returns (r: H.BridgeResult<seq<byte>>)
      modifies this, reader, writer, poison, journal
      ensures (Wires(), State(), r) == H.InvokeBridge(old(Wires()), old(State()), pluginId, session, operation, input)
    {
      hide H.Call, H.Reason;
      if pluginId != this.pluginId || session != this.session {
        var e := ProtocolFailure(InvalidData("callback owner mismatch"));
        return H.Denied(e);
      }
      var response := Call(BridgeInvoke(operation, input));
      if response.Denied? {
        return H.Denied(response.error);
      }
      match response.value
      case CallbackResult(output) => r := H.Granted(output);
      case CallbackError(code) => r := H.Denied(H.Callback(code));
      case _ =>
        var e := ProtocolFailure(InvalidData("invalid Bridge callback response"));
        r := H.Denied(e);
    }

    method RetainHandle(session: u64, objectId: u64, generation: u64) returns (r: H.BridgeResult<()>)
      modifies this, reader, writer, poison, journal
      ensures (Wires(), State(), r)
           == H.HandleCall(old(Wires()), old(State()), session, MessageBody.RetainHandle(objectId, generation))
    {
      r := HandleCall(session, MessageBody.RetainHandle(objectId, generation));
    }

    method ReleaseHandle(session: u64, objectId: u64, generation: u64) returns (r: H.BridgeResult<()>)
      modifies this, reader, writer, poison, journal
      ensures (Wires(), State(), r)
           == H.HandleCall(old(Wires()), old(State()), session, MessageBody.ReleaseHandle(objectId, generation))
    {
      r := HandleCall(session, MessageBody.ReleaseHandle(objectId, generation));
    }
  }

  // ---------------------------------------------------------------- plugin

  /** `WasmPlugin` with its store. What the component does is looked up in `env`. */
  class WasmPlugin {
    const env: H.Env
    const bridge: ProcessBridge
    const pluginId: u64
    const session: u64
    const instance: nat
    var poisoned: bool
    var callbackActive: bool
    var history: seq<H.ExportCall>

    constructor (env: H.Env, bridge: ProcessBridge, instance: nat, pluginId: u64, session: u64)
      ensures this.env == env && this.bridge == bridge
      ensures State() == H.Plugin(false, false, bridge.State(), pluginId, session, instance, [])
    {
      this.env, this.bridge, this.instance := env, bridge, instance;
      this.pluginId, this.session := pluginId, session;
      poisoned, callbackActive, history := false, false, [];
    }

    ghost function State(): H.Plugin
      reads this, bridge
    {
      H.Plugin(poisoned, callbackActive, bridge.State(), pluginId, session, instance, history)
    }

    ghost function Wires(): H.Wire
      reads bridge, bridge.reader, bridge.writer, bridge.poison, bridge.journal
    {
      bridge.Wires()
    }

    /** The bridge imports of the component. */
    method Import(op: H.BridgeOp) returns (r: H.ImportResult)
      modifies bridge, bridge.reader, bridge.writer, bridge.poison, bridge.journal
      ensures (Wires(), State(), r) == H.Import(old(Wires()), old(State()), op)
    {
      hide D.FromWire, H.InvokeBridge, H.HandleCall, Ascii;
      if !callbackActive {
        return H.ErrorCode(Ascii("bridge-denied"));
      }
      match op
      case OpInvoke(operation, input) =>
        if D.FromWire(input).Err? {
          return H.Abort;
        }
        var output := bridge.Invoke(pluginId, session, operation, input);
        if output.Denied? {
          return H.ErrorCode(H.StableCode(output.error));
        }
        r := if D.FromWire(output.value).Err? then H.Abort else H.Answer(output.value);
      case OpRetain(objectId, generation) =>
        var done := bridge.RetainHandle(session, objectId, generation);
        r := if done.Denied? then H.ErrorCode(H.StableCode(done.error)) else H.Answer([]);
      case OpRelease(objectId, generation) =>
        var done := bridge.ReleaseHandle(session, objectId, generation);
        r := if done.Denied? then H.ErrorCode(H.StableCode(done.error)) else H.Answer([]);
    }

    /** The imports of one export call, up to one that fails it. */
    method RunOps(ops: seq<H.BridgeOp>) returns (completed: bool)
      modifies bridge, bridge.reader, bridge.writer, bridge.poison, bridge.journal
      ensures (Wires(), State(), completed) == H.RunOps(old(Wires()), old(State()), ops)
    {
      hide H.Import;
      var i := 0;
      assert ops[0..] == ops;
      while i < |ops|
        invariant i <= |ops|
        invariant H.RunOps(old(Wires()), old(State()), ops) == H.RunOps(Wires(), State(), ops[i..])
      {
        assert ops[i..][0] == ops[i] && ops[i..][1..] == ops[i + 1..];
        var r := Import(ops[i]);
        if r.Abort? {
          return false;
        }
        i := i + 1;
      }
      completed := true;
    }

    /** `WasmPlugin::call`. */
    method Call(call: H.ExportCall) returns (r: H.CallResult)
      modifies this, bridge, bridge.reader, bridge.writer, bridge.poison, bridge.journal
      ensures (Wires(), State(), r) == H.PluginCall(env, old(Wires()), old(State()), call)
    {
      hide H.RunOps, H.Labelled, Ascii;
      if poisoned {
        return H.EngineError(Ascii("runtime-failure: store is poisoned"));
      }
      callbackActive := true;
      history := history + [call];
      var guest := env.guest(instance, history);
      bridge.journal.Record(H.Entered(call));
      var completed := RunOps(guest.ops);
      callbackActive := false;
      if !completed || guest.outcome.Traps? {
        bridge.journal.Record(H.Left(call, H.Trapped));
        poisoned := true;
        return H.EngineError(guest.failure);
      }
      match guest.outcome
      case Fails(code, message) =>
        bridge.journal.Record(H.Left(call, H.GuestFailed(code)));
        r := H.GuestError(H.Labelled(code, message));
      case Returns(output) =>
        bridge.journal.Record(H.Left(call, H.Returned));
        r := H.Output(output);
    }

    /** `WasmPlugin::invoke`. */
    method Invoke(operation: Text, input: seq<byte>, callbackId: u64) returns (r: H.CallResult)
      modifies this, bridge, bridge.reader, bridge.writer, bridge.poison, bridge.journal
      ensures (Wires(), State(), r) == H.PluginInvoke(env, old(Wires()), old(State()), operation, input, callbackId)
    {
      hide D.FromWire, H.PluginCall, Ascii;
      if D.FromWire(input).Err? {
        return H.EngineError(Ascii("invalid-value"));
      }
      r := Call(H.CallInvoke(operation, input, callbackId));
      if r.Output? && D.FromWire(r.bytes).Err? {
        r := H.EngineError(Ascii("invalid-value"));
      }
    }
  }

  // ---------------------------------------------------------------- engine

  /** `WasmGuestEngine`: a plugin or none. */
  class WasmGuestEngine {
    const env: H.Env
    var plugin: WasmPlugin?

    constructor (env: H.Env)
      ensures this.env == env && plugin == null
    {
      this.env := env;
      plugin := null;
    }

    /** The plugin and its bridge. */
    ghost function Store(): set<object>
      reads this
    {
      if plugin == null then {} else {plugin, plugin.bridge}
    }

    /** Everything a call of the plugin may change. */
    ghost function Touched(): set<object>
      reads this
    {
      if plugin == null then {}
      else
        var bridge := plugin.bridge;
        {plugin, bridge, bridge.reader, bridge.writer, bridge.poison, bridge.journal}
    }

    ghost function State(): Option<H.Plugin>
      reads this, Store()
    {
      if plugin == null then None else Some(plugin.State())
    }

    /** The streams, cell and journal the plugin's bridge uses. */
    ghost predicate Uses(reader: ByteReader, writer: ByteWriter, poison: Cell, journal: Journal)
      reads this
    {
      plugin != null ==>
        && plugin.env == env
        && plugin.bridge.reader == reader && plugin.bridge.writer == writer
        && plugin.bridge.poison == poison && plugin.bridge.journal == journal
    }

    method Load(outcome: H.LoadOutcome, instance: nat, bridge: ProcessBridge, ghost wd: H.World)
      returns (r: H.HostResult<seq<byte>>)
      requires wd.wire == bridge.Wires() && wd.plugin == State() && wd.loads == instance
      requires bridge.State() == H.Bridge(bridge.pluginId, bridge.session, 2)
      modifies this, bridge, bridge.reader, bridge.writer, bridge.poison, bridge.journal
      ensures var (after, answer) := H.EngineLoad(env, wd, outcome, bridge.pluginId, bridge.session);
              r == answer && bridge.Wires() == after.wire && (plugin != old(plugin) ==> State() == after.plugin)
                && (plugin == old(plugin) ==> after.plugin == wd.plugin)
      ensures plugin != old(plugin) ==> plugin != null && fresh(plugin) && plugin.bridge == bridge && plugin.env == env
    {
      hide H.PluginCall, H.RuntimeError;
      if plugin != null {
        return H.Fault(H.EngineInvalidState());
      }
      match outcome
      case DescriptorFault(error) => r := H.Fault(error);
      case EngineFault(text) => r := H.Fault(H.RuntimeError(text));
      case ComponentFault(text) => r := H.Fault(H.RuntimeError(text));
      case InstantiateFault(text) => r := H.Fault(H.HostError(H.WitMismatch, text));
      case Ready =>
        bridge.journal.Record(H.Instantiated);
        var made := new WasmPlugin(env, bridge, instance, bridge.pluginId, bridge.session);
        var result := made.Call(H.CallLoad);
        if result.Output? {
          plugin := made;
        }
        r := H.Classify(result);
    }

    /** `enable` and `disable`. */
    method Call(call: H.ExportCall) returns (r: H.HostResult<seq<byte>>)
      requires plugin != null ==> plugin.env == env
      modifies Touched()
      ensures plugin == null ==> r == H.Fault(H.EngineInvalidState())
      ensures plugin != null ==>
                var (w, p, result) := H.PluginCall(env, old(plugin.Wires()), old(plugin.State()), call);
                plugin.Wires() == w && plugin.State() == p && r == H.Classify(result)
    {
      hide H.PluginCall, Ascii;
      if plugin == null {
        return H.Fault(H.EngineInvalidState());
      }
      var result := plugin.Call(call);
      r := H.Classify(result);
    }

    method Invoke(operation: Text, input: seq<byte>, callbackId: u64) returns (r: H.HostResult<seq<byte>>)
      requires plugin != null ==> plugin.env == env
      modifies Touched()
      ensures plugin == null ==> r == H.Fault(H.EngineInvalidState())
      ensures plugin != null ==>
                var (w, p, result) :=
                  H.PluginInvoke(env, old(plugin.Wires()), old(plugin.State()), operation, input, callbackId);
                plugin.Wires() == w && plugin.State() == p && r == H.Classify(result)
    {
      hide H.PluginInvoke;
      if plugin == null {
        return H.Fault(H.EngineInvalidState());
      }
      var result := plugin.Invoke(operation, input, callbackId);
      r := H.Classify(result);
    }

    /** `unload` takes the plugin out before it calls the guest. */
    method Unload() returns (r: H.HostResult<seq<byte>>)
      requires plugin != null ==> plugin.env == env
      modifies this, Touched()
      ensures plugin == null
      ensures old(plugin) == null ==> r == H.Fault(H.EngineInvalidState())
      ensures old(plugin) != null ==>
                var (w, _, result) := H.PluginCall(env, old(plugin.Wires()), old(plugin.State()), H.CallUnload);
                old(plugin).Wires() == w && r == H.Classify(result)
    {
      hide H.PluginCall, Ascii;
      if plugin == null {
        return H.Fault(H.EngineInvalidState());
      }
      var taken := plugin;
      plugin := null;
      var result := taken.Call(H.CallUnload);
      r := H.Classify(result);
    }
  }

  // ---------------------------------------------------------------- server

  lemma EngineLoadKeeps(env: H.Env, wd: H.World, outcome: H.LoadOutcome, pluginId: u64, session: u64)
    ensures var after := H.EngineLoad(env, wd, outcome, pluginId, session).0;
            after.state == wd.state && after.loads == wd.loads
  {
    hide H.PluginCall, H.RuntimeError;
  }

  class ProcessServer {
    const env: H.Env
    const reader: ByteReader
    const writer: ByteWriter
    const poison: Cell
    const engine: WasmGuestEngine
    var state: H.Lifecycle
    var loads: nat
    const journal: Journal

    constructor (env: H.Env, reader: ByteReader, writer: ByteWriter)
      ensures this.env == env && this.reader == reader && this.writer == writer
      ensures fresh(poison) && fresh(engine) && fresh(journal) && Valid()
      ensures State() == H.World(H.Wire(reader.data, reader.broken, writer.State(), None, []), H.AwaitHello, None, 0)
    {
      this.env, this.reader, this.writer := env, reader, writer;
      poison := new Cell();
      engine := new WasmGuestEngine(env);
      journal := new Journal();
      state, loads := H.AwaitHello, 0;
    }

    ghost predicate Valid()
      reads this, engine
    {
      engine.env == env && engine.Uses(reader, writer, poison, journal)
    }

    /** Everything a command may change. */
    ghost function Repr(): set<object>
      reads this, engine
    {
      {this, reader, writer, poison, journal, engine} + engine.Store()
    }

    ghost function Wires(): H.Wire
      reads reader, writer, poison, journal
    {
      H.Wire(reader.data, reader.broken, writer.State(), poison.reason, journal.events)
    }

    ghost function State(): H.World
      reads Repr()
    {
      H.World(Wires(), state, engine.State(), loads)
    }

    method Hello() returns (r: H.HostResult<seq<byte>>)
      requires Valid()
      modifies this
      ensures Valid() && engine.plugin == old(engine.plugin)
      ensures (State(), r) == H.ServerHello(old(State()))
    {
      if state != H.AwaitHello {
        return H.Fault(H.ServerInvalidState());
      }
      state := H.AwaitLoad;
      r := H.Fine([]);
    }

    /** The part of `load` after the descriptor was read: a fresh bridge, and the engine's own load. */
    method LoadEngine(descriptor: H.LoadOutcome, pluginId: u64, session: u64) returns (r: H.HostResult<seq<byte>>)
      requires Valid()
      modifies Repr()
      ensures Valid() && fresh(Repr() - old(Repr()))
      ensures (State(), r) == H.EngineLoad(env, old(State()), descriptor, pluginId, session)
    {
      hide H.EngineLoad;
      var bridge := new ProcessBridge(reader, writer, poison, journal, pluginId, session);
      EngineLoadKeeps(env, State(), descriptor, pluginId, session);
      r := engine.Load(descriptor, loads, bridge, State());
    }

    method Load(pluginId: u64, session: u64) returns (r: H.HostResult<seq<byte>>)
      requires Valid()
      modifies Repr()
      ensures Valid() && fresh(Repr() - old(Repr()))
      ensures (State(), r) == H.ServerLoad(env, old(State()), pluginId, session)
    {
      hide H.EngineLoad, H.ServerInvalidState;
      if state != H.AwaitLoad {
        return H.Fault(H.ServerInvalidState());
      }
      var descriptor := env.load(loads);
      loads := loads + 1;
      if descriptor.DescriptorFault? {
        return H.Fault(descriptor.error);
      }
      r := LoadEngine(descriptor, pluginId, session);
      if r.Fine? {
        state := H.Loaded;
      }
    }

    method Enable() returns (r: H.HostResult<seq<byte>>)
      requires Valid()
      modifies Repr()
      ensures Valid() && Repr() == old(Repr())
      ensures (State(), r) == H.ServerEnable(env, old(State()))
    {
      hide H.PluginCall, Ascii;
      if state != H.Loaded {
        return H.Fault(H.ServerInvalidState());
      }
      r := engine.Call(H.CallEnable);
      if r.Fine? {
        state := H.Enabled;
      }
    }

    method Invoke(operation: Text, input: seq<byte>, callbackId: u64) returns (r: H.HostResult<seq<byte>>)
      requires Valid()
      modifies Repr()
      ensures Valid() && Repr() == old(Repr())
      ensures (State(), r) == H.ServerInvoke(env, old(State()), operation, input, callbackId)
    {
      hide H.PluginInvoke;
      if state != H.Enabled {
        return H.Fault(H.ServerInvalidState());
      }
      r := engine.Invoke(operation, input, callbackId);
    }

    method Disable() returns (r: H.HostResult<seq<byte>>)
      requires Valid()
      modifies Repr()
      ensures Valid() && Repr() == old(Repr())
      ensures (State(), r) == H.ServerDisable(env, old(State()))
    {
      hide H.PluginCall, Ascii;
      if state != H.Enabled {
        return H.Fault(H.ServerInvalidState());
      }
      r := engine.Call(H.CallDisable);
      if r.Fine? {
        state := H.Disabled;
      }
    }

    method Shutdown() returns (r: H.HostResult<seq<byte>>)
      requires Valid()
      modifies Repr()
      ensures Valid() && Repr() <= old(Repr())
      ensures (State(), r) == H.ServerShutdown(env, old(State()))
    {
      hide H.PluginCall, Ascii;
      if state != H.Loaded && state != H.Disabled {
        return H.Fault(H.ServerInvalidState());
      }
      r := engine.Unload();
      if r.Fine? {
        state := H.Closed;
      }
    }

    method Dispatch(body: MessageBody) returns (r: H.HostResult<seq<byte>>)
      requires Valid() && H.IsCommand(body)
      modifies Repr()
      ensures Valid() && fresh(Repr() - old(Repr()))
      ensures (State(), r) == H.Dispatch(env, old(State()), body)
    {
      hide H.ServerHello, H.ServerLoad, H.ServerEnable, H.ServerInvoke, H.ServerDisable, H.ServerShutdown;
      match body
      case Hello => r := Hello();
      case Load(_, _, pluginId, session) => r := Load(pluginId, session);
      case Enable => r := Enable();
      case Invoke(operation, input, callbackId) => r := Invoke(operation, input, callbackId);
      case Disable => r := Disable();
      case Shutdown => r := Shutdown();
    }

    /** `handle`. */
    method Handle(body: MessageBody) returns (r: Outcome<(MessageBody, bool)>)
      requires Valid()
      modifies Repr()
      ensures Valid() && fresh(Repr() - old(Repr()))
      ensures (State(), r) == H.Handle(env, old(State()), body)
    {
      hide H.Dispatch, H.ErrorBody, H.Fatal;
      if !H.IsCommand(body) {
        return Invalid("child-only message arrived as a parent command");
      }
      var result := Dispatch(body);
      match result
      case Fine(output) => r := Success((if body.Invoke? then ResultReply(output) else OkReply, body.Shutdown?));
      case Fault(error) =>
        r := if H.Fatal(error.code) then Invalid(H.CodeLiteral(error.code)) else Success((H.ErrorBody(error), false));
    }

    method Reply(id: u64, body: MessageBody) returns (r: Outcome<()>)
      modifies writer, journal
      ensures (Wires(), r) == H.Reply(old(Wires()), id, body)
    {
      hide NewMessage, PutFrame;
      var made := NewMessage(id, body);
      if made.Failure? {
        return Invalid("invalid process response");
      }
      var written := writer.WriteFrame(made.value);
      if written.Failure? {
        return Failure(written.error);
      }
      journal.Record(H.Sent(made.value));
      r := Success(());
    }

    /** What follows one command frame: whether the loop goes on. */
    method Turn(m: Message) returns (r: Outcome<bool>)
      requires Valid()
      modifies Repr()
      ensures Valid() && fresh(Repr() - old(Repr()))
      ensures (State(), r) == H.Turn(env, old(State()), m)
    {
      hide H.Handle, H.Reply;
      if m.requestId % 2 == 0 {
        return Invalid("callback response arrived outside a callback");
      }
      var handled := Handle(m.body);
      if poison.reason.Some? {
        return Invalid(poison.reason.value);
      }
      if handled.Failure? {
        return Failure(handled.error);
      }
      var (response, close) := handled.value;
      var replied := Reply(m.requestId, response);
      r := if replied.Failure? then Failure(replied.error) else Success(!close);
    }

    /** `close_on_eof`: what the guest answers is ignored. */
    method CloseOnEof()
      requires Valid()
      modifies Repr()
      ensures Valid() && Repr() <= old(Repr())
      ensures State() == H.CloseOnEof(env, old(State()))
    {
      hide H.PluginCall, H.Classify;
      if state == H.Enabled {
        var _ := engine.Call(H.CallDisable);
      }
      if state == H.Loaded || state == H.Enabled || state == H.Disabled {
        var _ := engine.Unload();
      }
      state := H.Closed;
    }

    /** `serve`: frames are handled until the input ends, a shutdown succeeds, or an error. */
    method Serve() returns (r: Outcome<()>)
      requires Valid()
      modifies Repr()
      ensures Valid()
      ensures (State(), r) == H.Serve(env, old(State()))
    {
      hide H.Turn, H.CloseOnEof, ReadFrame, NewMessage;
      while true
        invariant Valid() && fresh(Repr() - old(Repr()))
        invariant H.Serve(env, State()) == H.Serve(env, old(State()))
        decreases |reader.data|
      {
        var read := reader.NextFrame();
        if read.Failure? {
          return Failure(read.error);
        }
        if read.value == None {
          journal.Record(H.EndOfStream);
          CloseOnEof();
          return Success(());
        }
        journal.Record(H.Received(read.value.value));
        H.TurnFollows(env, State(), read.value.value);
        var going := Turn(read.value.value);
        if going.Failure? {
          return Failure(going.error);
        }
        if !going.value {
          return Success(());
        }
      }
    }
  }

  /** A server made and run to its end. What it wrote and what it answered are what the specification
      says of the run on this input, so every theorem on runs is one about these objects: for one, the
      journal is disciplined and the output reads back as the messages it records. */
  method Run(env: H.Env, input: seq<byte>, broken: bool, room: Option<nat>)
    returns (r: Outcome<()>, output: seq<byte>, ghost after: H.World)
    ensures (after, r) == H.Serve(env, H.Initial(input, broken, room)) && output == after.wire.sink.output
    ensures forall k | 0 <= k < |after.wire.log| :: T.Proper(after.wire.log, k)
    ensures FL.ReadAll(output, false).0 == T.SentMessages(after.wire.log)
  {
    hide H.Serve, T.Proper, T.SentMessages, FL.ReadAll;
    var reader := new ByteReader(input, broken);
    var writer := new ByteWriter(room);
    var server := new ProcessServer(env, reader, writer);
    r := server.Serve();
    output := writer.output;
    after := server.State();
    T.RunsAreDisciplined(env, input, broken, room);
    T.OutputReadsBack(env, input, broken, room);
  }
}
