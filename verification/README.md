# Aura runtime: values, protocol, process server

This project models the part of the Aura plugin runtime through which values, messages and lifecycle
commands travel, and proves what it promises for every input, peer and guest. There are three layers,
each using the theorems of the one below it.

1. **Bridge Value v1** (`Bytes`, `Unicode`, `BridgeValue`, `Encoding`, `Decoding`, `DecoderClass`, `CodecLaws`,
   `CodecLimits`, `MessagePack`, `Scanner`). A tree of ten kinds of node is written to and read from MessagePack.
   `BridgeValue.Wire` says which bytes a tree has, and `BridgeValue.Fits` says, without mentioning any
   order of traversal, which trees have an encoding. The class `Encoder`, which appends and counts and
   stops early, is proved to accept exactly the trees that fit; the class `Decoder` is proved to do what
   the cursor functions of `Decoding` say; and `CodecLaws` proves the two exact inverses of each other,
   at every depth and with every earlier spending of the shared budgets. That the bytes mean what they
   should is said independently: `MessagePack` reads them with a generic reader that knows nothing of the
   codec and finds the tree's own numbers, texts and members, and `Unicode` ties text to code points.
2. **Process protocol v1** (`Protocol`, `Validation`, `MapOrder`, `ProtocolLaws`, `Frames`, `FrameLaws`). Fourteen kinds
   of message as maps that are written in one order and read in any order, with request IDs whose parity
   gives the direction, inside four-byte length frames. The accepted byte strings are characterised
   exactly, and so is every length; `Validation` says by tables which messages exist and under which names
   their parts are written.
3. **Process server, bridge, plugin and engine** (`Host`, `Discipline`, `Traces`, `Lifecycles`, `Payloads`,
   `BridgeAnswers`, `Replies`, `CommandAnswers`, `Cleanups`, `EdgeCases`, `ConcreteRuns`, `Server`,
   `Concurrency`). `Host` gives the server as
   functions on an explicit state with a log of everything that happens. Guest code is a parameter: for every
   instance and every history of export calls it may use its bridge imports any finite number of times and
   then return, fail, or trap. The peer is an arbitrary byte string that ends or breaks, the writer accepts
   any number of bytes before it fails for good, and loading may fail at every stage. Theorems quantify over
   all of these. `Server` is the same system as objects that share two streams and a poison cell; each method
   is proved to do what the function of the same name does. `Concurrency` interleaves any number of threads on
   one bridge.

The launch-hook example (`LaunchHook`, `HookLaws`, `HookCases`, `HookRuns`, `HookAnswers`) is one concrete guest: its
tree update is characterised on all inputs, its own state machine is proved to stay in step with the
server's, and its answers always to fit the server's replies. `GoldenVectors` has the byte vectors with which
the repository guards its formats.

Strings are byte sequences under a UTF-8 predicate written after section 4 of RFC 3629; floats are 64-bit
patterns, finite unless all exponent bits are set (section 3.4 of IEEE 754-2019). Machine integers are
integers with their ranges and wrap-around written out.

Places where the code does less than one might think:

- Reading a message and writing it again is a normalisation, not the identity on bytes: every message has
  an input on which they differ (`ProtocolLaws.AnotherEncoding`), and they agree exactly when the keys of
  both maps came in writing order (`ProtocolLaws.ReencodingIsIdentity`).
- `serve` can succeed with a poisoned cell: two commands and a guest that retains a handle while it is
  unloaded do it (`ConcreteRuns.SuccessWithPoison`). It happens exactly when the input ends cleanly and the
  guest's first import while it is shut down gets past its own payload check
  (`Cleanups.SuccessWithPoisonExact`); otherwise poison decides the result (`Traces.PoisonDominates`).
- A callback does not look at the poison cell (`EdgeCases.CallIgnoresPoison`): hello and load, and a guest
  that retains a handle twice while it is loaded, make one leave after a refusal
  (`ConcreteRuns.CallbackAfterRefusal`). An import sends one exactly when the window is open, its owner and
  payload are in order, and the next ID makes a message that can be framed and that the writer takes
  (`EdgeCases.ImportSendsExact`).
- A guest whose unload fails leaves a server without plugin in its old state
  (`EdgeCases.FailedUnloadLeavesNoPlugin`), and if the run goes on, it is nothing but refusals
  (`EdgeCases.StrandedForGood`): hello, load and shutdown, and a guest that refuses to be unloaded, do it
  whatever follows (`ConcreteRuns.UnloadStrands`).
- A result over 16 MiB − 127 bytes, or an error whose code and text exceed 4096 bytes, ends the run instead
  of being answered (`ConcreteRuns.ResultEndsTheRun`, `ConcreteRuns.ErrorEndsTheRun`; exactly when:
  `Replies.TurnExact`).
- The launch hook cannot deliver a change to an event that is valid but nearly full
  (`HookCases.FullEventIsRefused`; exactly when: `HookLaws.EventExact`). Whatever it
  answers, a working writer gets it delivered unless the call poisoned the cell
  (`HookAnswers.AnswersNeverEndARun`).
- Callback IDs wrap around: two of one bridge are equal exactly when a multiple of 2^63 allocations lies
  between them (`Concurrency.IdsRepeat`), and `Traces.RunsAreDisciplined` says they rise until shortly before.

## Model

| member | source | states |
|---|---|---|
| Bytes.Utf8IsScalars | crates/aura-bridge-value/src/value.rs:432-435 | the byte-by-byte predicate used for text is exactly "one well-formed scalar value after another", by the table of RFC 3629 |
| Unicode.TextExact | crates/aura-bridge-value/src/value.rs:432-435 | the text predicate holds of exactly the UTF-8 encodings of sequences of Unicode scalar values, surrogates excluded |
| Unicode.BlankExact | crates/aura-runtime-protocol/src/lib.rs:665-672 | a text is blank exactly when each of its code points has the White_Space property |
| BridgeValue.WireCodeInverse | crates/aura-bridge-value/src/error.rs:26-57 | an error-code string is read as a code exactly when it is that code's string |
| Encoding.IsValidTypeName | crates/aura-bridge-value/src/value.rs:117-139 | the loop with the separator flag accepts exactly the declarative name grammar of at most 128 bytes |
| Encoding.HandleIsValid | crates/aura-bridge-value/src/value.rs:32-54 | a handle is valid exactly with positive signed-64 IDs and a valid type name |
| Encoding.Encoder.Value | crates/aura-bridge-value/src/value.rs:157-217 | succeeds iff the tree fits the budgets left at this depth; then output, content and node totals grow by exactly the tree's wire form and cost |
| Encoding.Encoder.Body | crates/aura-bridge-value/src/value.rs:163-216 | the same for the node's payload once the node is counted and its tag written |
| Encoding.Encoder.Items | crates/aura-bridge-value/src/value.rs:185-190 | an array succeeds iff its length is within limits and its items fit together at the next depth, and appends their wire forms |
| Encoding.Encoder.Entries | crates/aura-bridge-value/src/value.rs:191-202 | a map succeeds iff its keys are distinct and within limits and all values fit, and appends the entries |
| Encoding.Encoder.Scalar | crates/aura-bridge-value/src/value.rs:164-214 | a node without content or members succeeds iff it is valid by itself, and appends its payload |
| Encoding.Encoder.ByteString | crates/aura-bridge-value/src/value.rs:179-184 | a byte string succeeds iff it is within its limit and the total, and appends its payload |
| Encoding.Encoder.HandleFields | crates/aura-bridge-value/src/value.rs:203-213 | a handle succeeds iff it is valid, and appends its payload |
| Encoding.Encoder.KeyAndValue | crates/aura-bridge-value/src/value.rs:199-200 | a key and its value succeed iff both fit, and append their wire forms |
| Encoding.Encoder.String | crates/aura-bridge-value/src/value.rs:233-236 | a string succeeds iff it is within its limit and the total, and appends its wire form |
| Encoding.Encoder.MetadataString | crates/aura-bridge-value/src/value.rs:238-243 | a type name or code succeeds iff it is within its limit, spends no content, and is appended |
| Encoding.Encoder.WriteString | crates/aura-bridge-value/src/value.rs:245-250 | tag, length and bytes of a string, refused only from 2^32 bytes on |
| Encoding.Encoder.ContainerLength | crates/aura-bridge-value/src/value.rs:252-258 | a container header is appended iff it has at most 1024 entries |
| Encoding.Encoder.Uint64 | crates/aura-bridge-value/src/value.rs:266-269 | appends the eight-byte unsigned form |
| Encoding.Encoder.AddContent | crates/aura-bridge-value/src/value.rs:219-231 | content is added iff both the string's own limit and the total allow it; the overflow branch refuses nothing else |
| Encoding.Encoder.WriteLength | crates/aura-bridge-value/src/value.rs:260-264 | a length is refused only from 2^32 on, which no container, string or byte string within its limit reaches; by Encoder.Value this refusal never decides the result |
| Encoding.Encode | crates/aura-bridge-value/src/value.rs:99-104 | the stateful encoder computes the order-free specification, errors included |
| DecoderClass.Decoder.Value | crates/aura-bridge-value/src/value.rs:304-378 | agrees with the cursor function, never passes the end of input, enters at most one node per three bytes and per unit of the node budget, plus one, and recurses no deeper than one past the limit |
| DecoderClass.Decoder.Items | crates/aura-bridge-value/src/value.rs:340-347 | the loop over items agrees with the recursive reading, with the same bounds on work |
| DecoderClass.Decoder.Key | crates/aura-bridge-value/src/value.rs:353-354 | the pair header and key of an entry, as the cursor function reads them |
| DecoderClass.Decoder.Scalar | crates/aura-bridge-value/src/value.rs:311-376 | every other tag agrees with the cursor function, unknown tags included |
| DecoderClass.Decoder.Number | crates/aura-bridge-value/src/value.rs:321-332 | integers and finite floats agree with the cursor function |
| DecoderClass.Decoder.ByteString | crates/aura-bridge-value/src/value.rs:334-339 | byte strings agree with the cursor function |
| DecoderClass.Decoder.HandleFields | crates/aura-bridge-value/src/value.rs:362-370 | handles agree with the cursor function, invalid ones refused |
| DecoderClass.Decoder.Byte | crates/aura-bridge-value/src/value.rs:380-384 | reads the next byte or fails at the end |
| DecoderClass.Decoder.Expect | crates/aura-bridge-value/src/value.rs:386-392 | accepts exactly the expected byte |
| DecoderClass.Decoder.Entries | crates/aura-bridge-value/src/value.rs:348-361 | the key-set loop accepts exactly distinct keys, in order, and agrees with the recursive reading |
| DecoderClass.Decoder.Take | crates/aura-bridge-value/src/value.rs:394-402 | reads exactly the next bytes or fails without passing the end |
| DecoderClass.Decoder.Length | crates/aura-bridge-value/src/value.rs:408-410 | a four-byte big-endian length |
| DecoderClass.Decoder.Bits | crates/aura-bridge-value/src/value.rs:404-406 | an eight-byte big-endian pattern |
| DecoderClass.Decoder.String | crates/aura-bridge-value/src/value.rs:412-416 | a string within its limit and the content total |
| DecoderClass.Decoder.MetadataString | crates/aura-bridge-value/src/value.rs:418-421 | a string within its limit that spends no content |
| DecoderClass.Decoder.StringLength | crates/aura-bridge-value/src/value.rs:423-430 | the string tag and a length within the limit |
| DecoderClass.Decoder.ReadString | crates/aura-bridge-value/src/value.rs:432-435 | exactly the next bytes when they are UTF-8 |
| DecoderClass.Decoder.ContainerLength | crates/aura-bridge-value/src/value.rs:437-444 | the array tag and at most 1024 entries |
| DecoderClass.Decoder.Uint64 | crates/aura-bridge-value/src/value.rs:446-449 | the unsigned tag and its eight bytes |
| DecoderClass.Decoder.AddContent | crates/aura-bridge-value/src/value.rs:451-463 | content is added iff both the own limit and the total allow it |
| DecoderClass.FromWire | crates/aura-bridge-value/src/value.rs:106-115 | the stateful decoder computes the cursor specification; on every input, accepted or not, it enters at most min(65536, input length / 3) + 1 nodes and recurses at most 32 deep |
| CodecLaws.ScalarExact | crates/aura-bridge-value/src/value.rs:311-376 | a leaf is read exactly when its own encoding stands there and the budgets allow it |
| CodecLaws.TakeHandleExact | crates/aura-bridge-value/src/value.rs:362-370 | a handle is read exactly when a valid handle's encoding stands there |
| CodecLaws.ItemsExact | crates/aura-bridge-value/src/value.rs:340-347 | a list of items is read exactly when the concatenation of their encodings stands there and they fit |
| CodecLaws.EntriesExact | crates/aura-bridge-value/src/value.rs:348-361 | the same for entries, with distinct keys |
| CodecLaws.ValueExact | crates/aura-bridge-value/src/value.rs:304-378 | at any offset, depth and spent budget, a tree is read exactly when its encoding stands there and it fits, and the cursor moves by exactly its size and cost |
| CodecLaws.FromWireExact | crates/aura-bridge-value/src/value.rs:98-115 | for all bytes and trees: decoding gives the tree iff encoding the tree gives the bytes |
| CodecLaws.DecodeThenEncode | crates/aura-bridge-value/src/value.rs:106-115 | decoding is canonical: re-encoding gives back the same bytes |
| CodecLaws.EncodeThenDecode | crates/aura-bridge-value/src/value.rs:99-104 | whatever is encoded is decoded to itself |
| CodecLaws.SelfDelimiting | crates/aura-bridge-value/src/value.rs:304-402 | inside any longer input the decoder stops exactly at the end of an encoding, with the totals the encoder had |
| CodecLaws.PrefixFree | crates/aura-bridge-value/src/value.rs:98-115 | no encoding is a proper prefix of another |
| CodecLimits.FiniteExact | crates/aura-bridge-value/src/value.rs:325-332 | a float is accepted exactly when its exponent bits are not all ones |
| CodecLimits.DepthLimit | crates/aura-bridge-value/src/value.rs:4 | a null inside n arrays has an encoding exactly for n up to 31 |
| CodecLimits.MapDepthLimit | crates/aura-bridge-value/src/value.rs:4 | the same inside n maps |
| CodecLimits.NodeLimits | crates/aura-bridge-value/src/value.rs:7-9 | rows of nulls, or of maps, have an encoding exactly with at most 1024 members per container and 65,536 nodes in all; a map is a node, its keys are none |
| CodecLimits.SharedBudget | crates/aura-bridge-value/src/value.rs:219-231 | a key, a string and a byte string have an encoding together exactly up to 16 MiB in all |
| CodecLimits.MetadataIsFree | crates/aura-bridge-value/src/value.rs:203-215 | type names and error codes spend nothing of the content budget |
| CodecLimits.HandleLimits | crates/aura-bridge-value/src/value.rs:32-54 | a handle has an encoding exactly with positive signed-64 IDs and a name of at most 128 bytes from the language of names |
| CodecLimits.ContentLimits | crates/aura-bridge-value/src/value.rs:6-8 | two byte strings have an encoding together exactly up to 16 MiB in all |
| CodecLimits.StringLimits | crates/aura-bridge-value/src/value.rs:5 | a key and a string have an encoding exactly up to 1 MiB each |
| MessagePack.BigEndianIsUnsigned | crates/aura-bridge-value/src/value.rs:260-269 | lengths and unsigned numbers are written in base 256, most significant byte first |
| MessagePack.SignedBitsAreSigned | crates/aura-bridge-value/src/value.rs:167-170 | the eight bytes of an integer, read as two's complement, are that integer |
| MessagePack.ValueStands | crates/aura-bridge-value/src/value.rs:157-285 | wherever a tree's encoding lies, a generic MessagePack reader finds one object there: the pair of the tag and the tree's own data, number by number, member by member, ending where the encoding ends |
| MessagePack.EncodingIsOneObject | crates/aura-bridge-value/src/value.rs:98-104 | every encoding is exactly one MessagePack object under the format table of the MessagePack specification, and it holds exactly the tree's data |
| MessagePack.DecodedIsOneObject | crates/aura-bridge-value/src/value.rs:106-115 | whatever the decoder accepts is one MessagePack object that holds exactly the data of the value that comes out |
| Scanner.KebabIsRegular | crates/aura-bridge-value/src/value.rs:117-139 | the accepted names are exactly the words of the regular expression [a-z][a-z0-9]*([.-][a-z0-9]+)* |
| Scanner.CodeIsTypeName | crates/aura-runtime-protocol/src/lib.rs:692-719 | every valid error code is a valid type name |
| Protocol.ScanCode | crates/aura-runtime-protocol/src/lib.rs:692-719 | the loop with the separator flag accepts exactly the error codes of the grammar |
| Validation.NewMessageExact | crates/aura-runtime-protocol/src/lib.rs:93-105 | for all fourteen kinds: a message is made exactly when every rule of its kind holds (ID range and parity, a code point that is no white space, signed-64 identifiers, the language of codes, 4096 bytes), and otherwise refused for the first rule that does not |
| Validation.ValidateExact | crates/aura-runtime-protocol/src/lib.rs:257-311 | the same for the body alone, with each reason |
| Validation.FromEnvelopeExact | crates/aura-runtime-protocol/src/lib.rs:137-150 | every value that is no message is refused for the first rule it breaks, with that rule's reason: of the envelope, of its kind's payload, of the body, of the ID; and a value that breaks none is that message |
| Validation.FromWireRefusals | crates/aura-runtime-protocol/src/lib.rs:137-141 | bytes that are no value are refused as that, and a value that breaks an envelope rule for that rule |
| Validation.WrittenAsDocumented | crates/aura-runtime-protocol/src/lib.rs:313-384 | the bytes of every message decode to the map of version, ID, kind and payload with the documented names and values |
| ProtocolLaws.ParseKindExact | crates/aura-runtime-protocol/src/lib.rs:386-466 | a kind string means a kind exactly when it is that kind's string |
| ProtocolLaws.BodyFromFieldsExact | crates/aura-runtime-protocol/src/lib.rs:386-466 | reading the named fields of a map gives a valid body exactly when they are that body's fields, for each of the fourteen kinds |
| ProtocolLaws.PayloadExact | crates/aura-runtime-protocol/src/lib.rs:386-466 | a kind string and a payload are read as a body exactly when the body is valid, the string is its kind's, and the payload map is a rearrangement of its fields |
| ProtocolLaws.EnvelopeExact | crates/aura-runtime-protocol/src/lib.rs:137-150 | an envelope is parsed exactly when it is a rearrangement of the canonical one |
| ProtocolLaws.FromWireExact | crates/aura-runtime-protocol/src/lib.rs:137-150 | the accepted byte strings are exactly the encodings of messages with the entries of both maps in any order |
| ProtocolLaws.EncodeThenDecode | crates/aura-runtime-protocol/src/lib.rs:119-150 | whatever is written is read back |
| ProtocolLaws.DecodeThenEncode | crates/aura-runtime-protocol/src/lib.rs:119-150 | re-encoding an accepted message succeeds, keeps its length and decodes to the same message; when it also keeps the bytes is `ProtocolLaws.ReencodingIsIdentity` |
| ProtocolLaws.AnotherEncoding | crates/aura-runtime-protocol/src/lib.rs:556-568 | every message that can be written has a second accepted encoding |
| ProtocolLaws.ReencodingIsIdentity | crates/aura-runtime-protocol/src/lib.rs:119-150 | decoding and encoding again gives the same bytes iff the four envelope keys and the payload keys stand in the order in which they are written |
| ProtocolLaws.EncodedLengthExact | crates/aura-runtime-protocol/src/lib.rs:119-134 | the closed form of every message's encoded length |
| ProtocolLaws.ValidIds | crates/aura-runtime-protocol/src/lib.rs:258-311 | a valid body's identifiers are signed-64, so encoding them never fails |
| MapOrder.Pigeonhole | crates/aura-runtime-protocol/src/lib.rs:556-568 | as many entries as names and every name present means a rearrangement: nothing repeated, nothing extra |
| MapOrder.RearrangementMeasures | crates/aura-runtime-protocol/src/lib.rs:556-568 | rearranging entries changes no size or limit |
| Frames.ByteReader.ReadExact | crates/aura-runtime-protocol/src/lib.rs:541-554 | exactly n bytes, or all that is left and an error that says whether input ended or broke |
| Frames.ByteReader.NextFrame | crates/aura-runtime-protocol/src/lib.rs:506-527 | reads one frame as the specification does, from any stream |
| Frames.ByteWriter.WriteFrame | crates/aura-runtime-protocol/src/lib.rs:529-539 | writes header and body, which is one frame, or as much as the writer takes |
| Frames.PutInTwo | crates/aura-runtime-protocol/src/lib.rs:535-537 | header and body in two writes leave the same bytes as the frame in one, also when the writer fails in between |
| FrameLaws.ReadFramed | crates/aura-runtime-protocol/src/lib.rs:506-539 | a written frame is read back and leaves exactly what follows it |
| FrameLaws.ReadPayload | crates/aura-runtime-protocol/src/lib.rs:506-527 | a header within bounds and as many bytes are consumed, whatever they hold, and read as one message or refused as none |
| FrameLaws.ReadCut | crates/aura-runtime-protocol/src/lib.rs:541-554 | a frame cut anywhere reads as the matching truncation, never as a message |
| FrameLaws.ReadPrefix | crates/aura-runtime-protocol/src/lib.rs:506-554 | the first n bytes of a written stream read as exactly the messages whose frames lie within them; the end is clean iff n is a frame boundary |
| FrameLaws.ReadAllWritten | crates/aura-runtime-protocol/src/lib.rs:506-539 | a written stream reads back as the same sequence and then ends |
| FrameLaws.ReadIsWritable | crates/aura-runtime-protocol/src/lib.rs:506-539 | every message that was read can be written |
| FrameLaws.FrameExact | crates/aura-runtime-protocol/src/lib.rs:529-539 | a message can be written iff its free strings are within 1 MiB and its closed-form length within 16 MiB; the frame has exactly that length plus four |
| FrameLaws.HeldReadsBack | crates/aura-runtime-protocol/src/lib.rs:506-539 | what a writer that fails for good once it fails holds after any writes reads back as exactly the messages written; the end is clean iff it was not cut off inside a frame |
| Host.DispatchOutcome | crates/aura-wasm-host/src/server.rs:150-213 | a command acts on streams and store only through its one export call; the state moves exactly when that call returns, and load and unload decide whether a plugin stays |
| Host.TurnFollows | crates/aura-wasm-host/src/server.rs:62-107 | handling a command puts nothing back into the input, so every run ends |
| Discipline.CallKeeps | crates/aura-wasm-host/src/server.rs:261-304 | one callback, whatever the peer answers, stays inside the wire automaton: the ID is the next one, the response bears it, or the bridge refuses |
| Discipline.BridgeKeeps | crates/aura-wasm-engine/src/bridge.rs:7-55 | the same for the imports with their owner, session and payload checks |
| Discipline.PluginCallKeeps | crates/aura-wasm-engine/src/plugin.rs:48-74 | the same for a whole export call with any number of imports |
| Discipline.TurnKeeps | crates/aura-wasm-host/src/server.rs:76-106 | the same for a command with its reply |
| Discipline.CloseKeeps | crates/aura-wasm-host/src/server.rs:223-234 | the cleanup at end of input sends nothing but callbacks, inside export calls |
| Discipline.RunsAreOrderly | crates/aura-wasm-host/src/server.rs:62-107 | every run of every guest, peer, package and writer ends in one of five ways, with the result that belongs to it; poison always means the poison reason |
| Traces.RunsAreDisciplined | crates/aura-wasm-host/src/server.rs:62-148 | at every event of every run: commands are read only when the last was answered and nothing was ever refused; replies bear the odd ID of the one open command; callbacks occur only inside export calls, with IDs 2, 4, 6, … per load attempt, each answered under its ID or refused at once before the next callback, the end of the export or the reply; after a refusal or the end of input the IDs stay even and rising, short of 2^63 − 2 tries |
| Traces.PoisonDominates | crates/aura-wasm-host/src/server.rs:81-90 | the cell keeps the first reason ever reported; reported before the end of input it is the result of the run, after it it is ignored |
| Traces.OutputReadsBack | crates/aura-wasm-host/src/server.rs:91-102 | the output of every run, with any writer that fails for good once it fails, reads back as exactly the messages sent, then a clean end or, where the writer failed inside a frame, a truncation |
| Lifecycles.PluginCallLives | crates/aura-wasm-engine/src/plugin.rs:48-74 | a call on a poisoned store changes nothing; any other call enters, leaves and poisons the store iff it failed as an engine call |
| Lifecycles.TurnHolds | crates/aura-wasm-host/src/server.rs:150-213 | between commands Enabled implies a plugin, AwaitHello and AwaitLoad imply none, and a missing plugin elsewhere means unload was called or the store is dead |
| Lifecycles.CloseHolds | crates/aura-wasm-host/src/server.rs:223-234 | the cleanup leaves no plugin and calls unload at most once, also after a failed disable |
| Lifecycles.ServeHolds | crates/aura-wasm-host/src/guest_engine.rs:16-64 | these invariants over whole runs |
| Lifecycles.RunsAreLawful | crates/aura-wasm-host/src/guest_engine.rs:16-64 | in every run load is the first export of its store, enable succeeds at most once, invoke and disable reach the guest only between a successful enable and a successful disable, unload is entered at most once and last, and nothing is entered on a store after a trap |
| Payloads.ImportChecks | crates/aura-wasm-engine/src/bridge.rs:7-55 | an import outside the callback window is denied and changes nothing; a payload that does not decode never reaches the peer, and one from the peer never reaches the guest |
| Payloads.PluginCallIsClear | crates/aura-wasm-engine/src/plugin.rs:48-74 | the callback window is shut again after every call, however it ends |
| Payloads.RunsCarryValues | crates/aura-wasm-engine/src/plugin.rs:97-114 | in every run each invoke that enters the guest, each callback sent and each result sent carries a payload that decodes |
| BridgeAnswers.ImportAnswers | crates/aura-wasm-host/src/server.rs:306-341 | for every import inside the window, by the log: the guest is handed an output iff the peer answered this callback with it (and it decodes; for handles, iff it is empty), the peer's code iff the peer answered with that code, "protocol-error" on every refusal, and a failed call iff a payload that was to cross does not decode |
| BridgeAnswers.ImportRefusals | crates/aura-wasm-host/src/server.rs:261-341 | exactly when an import is refused and with which reason, first met first: owner or session, ID, message, frame, writer, stream, missing response, other ID, other kind; the reason is recorded last and the cell keeps its first |
| BridgeAnswers.ClosedImport | crates/aura-wasm-engine/src/bridge.rs:13-15 | an import outside the window gets "bridge-denied" and nothing happens |
| Replies.ErrorBodyValid | crates/aura-wasm-host/src/server.rs:374-379 | an error reply is valid iff code, separator and message take at most 4096 bytes |
| Replies.ReplyExact | crates/aura-wasm-host/src/server.rs:91-102 | an Ok is always delivered, a result iff at most 16 MiB − 127 bytes, an error iff valid; otherwise nothing is written |
| Replies.UndeliveredExact | crates/aura-wasm-host/src/server.rs:91-102 | a reply that is not delivered ends the run with the reason that belongs to it: an error that is no valid message, a result beyond 16 MiB − 47 bytes that is no value, a shorter one beyond 16 MiB − 127 that is no frame |
| Replies.TurnExact | crates/aura-wasm-host/src/server.rs:82-102 | exactly when a command is answered, with which frame, and whether the run goes on; every other command ends the run with nothing written for it, and with the poison reason if there is one, else the fatal code if there is one |
| Replies.PoisonedIsFatal | crates/aura-wasm-host/src/guest_engine.rs:70-84 | the text of a poisoned store is classified as runtime-failure, whatever the first failure was |
| Replies.InvalidValueIsRecoverable | crates/aura-wasm-host/src/guest_engine.rs:70-84 | the text of a malformed payload is classified as the recoverable invalid-value |
| Replies.PoisonedStoreEnds | crates/aura-wasm-engine/src/plugin.rs:52-54 | a command that would enter a poisoned store ends the run as runtime-failure, with no reply and without running the guest |
| Replies.MalformedInvokeAnswered | crates/aura-wasm-engine/src/plugin.rs:97-103 | input that does not decode is answered with invalid-value before the store is looked at, poisoned or not |
| CommandAnswers.RuntimeErrorExact | crates/aura-wasm-host/src/guest_engine.rs:70-84 | for every failure text and each of the five codes, iff: fuel first, then epoch or deadline, then limit or memory, then invalid-value, else runtime-failure; the text is kept |
| CommandAnswers.EndsExact | crates/aura-wasm-host/src/error.rs:26-32 | exactly the codes deadline-exceeded, fuel-exhausted, resource-limit and runtime-failure end the run |
| CommandAnswers.FaultReported | crates/aura-wasm-host/src/server.rs:142-147 | a failed command ends the run with its code, or is answered with the code and the text "code: message", or has too long a text |
| CommandAnswers.WithoutGuest | crates/aura-wasm-host/src/server.rs:150-221 | a command out of turn is answered with invalid-state and changes nothing, by a table of the six states; so is one that finds no plugin, in its own words |
| CommandAnswers.LoadFailures | crates/aura-wasm-host/src/guest_engine.rs:17-36 | how each way in which loading can fail is reported, and that only the count of attempts changes |
| CommandAnswers.CallIsTheCommands | crates/aura-wasm-host/src/server.rs:156-213 | the export a command enters is its own, with the command's own arguments, in the plugin that is there or a new store with the command's owner and session |
| CommandAnswers.GuestIsAnswered | crates/aura-wasm-host/src/server.rs:76-106 | what the parent gets for a command whose guest is entered: the poison reason, else the guest's own output or ok, else its error as guest-error, else what the text of the trap means; and the server's state afterwards |
| CommandAnswers.OutOfFuelEnds | crates/aura-wasm-host/src/guest_engine.rs:70-84 | a trap whose text contains "fuel" ends an unpoisoned run as fuel-exhausted |
| Cleanups.CallAtEnd | crates/aura-wasm-host/src/server.rs:261-304 | after the end of input an export call poisons the cell iff the store lets the guest in and its first import gets past its own payload check; otherwise exactly when the store comes out poisoned |
| Cleanups.CleanupExact | crates/aura-wasm-host/src/server.rs:223-234 | the same for the whole cleanup, disable and unload, from every state |
| Cleanups.SuccessWithPoisonExact | crates/aura-wasm-host/src/server.rs:62-107 | over every run: success with a poisoned cell iff the input ended cleanly and the guest then called back, in terms of the server found at the end and the guest's first import |
| ConcreteRuns.SuccessWithPoison | crates/aura-wasm-host/src/server.rs:72-75 | the run on the bytes of hello and load, with a guest that retains a handle when unloaded: success, and the cell says the response is missing |
| ConcreteRuns.BigDecodes | crates/aura-bridge-value/src/value.rs:99-115 | a payload that decodes and is longer than any result frame |
| ConcreteRuns.ResultEndsTheRun | crates/aura-wasm-host/src/server.rs:90-102 | the run on the bytes of hello, load, enable and invoke, with a guest that returns that payload: an error, though nothing was poisoned and the call returned |
| ConcreteRuns.ErrorEndsTheRun | crates/aura-wasm-host/src/server.rs:90-102 | the run on the bytes of hello and load, with a guest that refuses at length: an error, though the failure is recoverable |
| ConcreteRuns.CallbackAfterRefusal | crates/aura-wasm-host/src/server.rs:261-304 | the run on the bytes of hello and load, with a guest that retains a handle twice in its load: both callbacks leave, the second after the first was refused |
| ConcreteRuns.UnloadStrands | crates/aura-wasm-host/src/server.rs:203-213 | the run on the bytes of hello, load and shutdown and any rest, with a guest that refuses to be unloaded: the refusal is answered, and from the stranded server on that rest there are only commands and their refusals |
| ConcreteRuns.AskIsAnswered | crates/aura-wasm-host/src/server.rs:323-341 | a Bridge invocation whose response lies in the input: the request leaves, the response is read, and the guest gets the response's output |
| ConcreteRuns.CompleteLifecycle | crates/aura-wasm-host/src/server.rs:62-107 | the run on the bytes of all six commands and one callback response, with a guest that invokes the Bridge inside its invoke: success, and the whole log, event by event |
| EdgeCases.CallIgnoresPoison | crates/aura-wasm-host/src/server.rs:261-291 | a call does the same to streams, journal and IDs whatever the cell holds |
| EdgeCases.ImportSendsExact | crates/aura-wasm-engine/src/bridge.rs:7-55 | exactly when an import sends a callback, whatever the poison cell holds, with which ID and body, and never a second one |
| EdgeCases.FailedUnloadLeavesNoPlugin | crates/aura-wasm-host/src/guest_engine.rs:54-57 | an unload that is refused or traps leaves the state where it was and no plugin |
| EdgeCases.StrandedForGood | crates/aura-wasm-host/src/server.rs:62-107 | from a server without plugin in Loaded or Disabled, and with a working writer, the rest of every run is commands and their invalid-state refusals, one each, until the input ends or breaks the protocol; no export is entered |
| Server.ProcessBridge.ProtocolFailure | crates/aura-wasm-host/src/server.rs:293-304 | sets the shared cell only when it is empty |
| Server.ProcessBridge.SendRequest | crates/aura-wasm-host/src/server.rs:262-277 | the write half of a call: allocation with wrap-around, validation, one frame |
| Server.ProcessBridge.AwaitResponse | crates/aura-wasm-host/src/server.rs:278-290 | the read half of a call: one frame, present and with the right ID |
| Server.ProcessBridge.Call | crates/aura-wasm-host/src/server.rs:261-291 | updates ID counter, streams and cell as the specification says |
| Server.ProcessBridge.HandleCall | crates/aura-wasm-host/src/server.rs:306-315 | the same for handle callbacks with the session check |
| Server.ProcessBridge.Invoke | crates/aura-wasm-host/src/server.rs:323-341 | the same for Bridge invocations with the owner check |
| Server.ProcessBridge.RetainHandle | crates/aura-wasm-host/src/server.rs:343-356 | the same for retaining a handle |
| Server.ProcessBridge.ReleaseHandle | crates/aura-wasm-host/src/server.rs:358-371 | the same for releasing a handle |
| Server.WasmPlugin.Import | crates/aura-wasm-engine/src/bridge.rs:7-55 | the imports as the specification says, including the callback window |
| Server.WasmPlugin.RunOps | crates/aura-wasm-engine/src/bridge.rs:7-55 | the imports of one call in order, up to one that fails the call |
| Server.WasmPlugin.Call | crates/aura-wasm-engine/src/plugin.rs:48-74 | opens and closes the callback window and poisons the store as the specification says |
| Server.WasmPlugin.Invoke | crates/aura-wasm-engine/src/plugin.rs:97-114 | validates the payload on both sides of the call as the specification says |
| Server.WasmGuestEngine.Load | crates/aura-wasm-host/src/guest_engine.rs:17-36 | keeps the new plugin exactly when its load returned |
| Server.WasmGuestEngine.Call | crates/aura-wasm-host/src/guest_engine.rs:38-52 | enable and disable on the plugin that is there, or invalid-state |
| Server.WasmGuestEngine.Invoke | crates/aura-wasm-host/src/guest_engine.rs:42-48 | invoke on the plugin that is there, or invalid-state |
| Server.WasmGuestEngine.Unload | crates/aura-wasm-host/src/guest_engine.rs:54-57 | the plugin is gone whatever the guest answers |
| Server.ProcessServer.constructor | crates/aura-wasm-host/src/server.rs:52-60 | a new server waits for hello with an empty cell and no plugin |
| Server.ProcessServer.Hello | crates/aura-wasm-host/src/server.rs:150-154 | hello once, as the specification says |
| Server.ProcessServer.Load | crates/aura-wasm-host/src/server.rs:156-182 | a load attempt with a fresh bridge, as the specification says |
| Server.ProcessServer.LoadEngine | crates/aura-wasm-host/src/server.rs:165-179 | the part after the descriptor: a fresh bridge on the shared streams and cell, and the engine's load |
| Server.ProcessServer.Enable | crates/aura-wasm-host/src/server.rs:184-189 | enable from Loaded, as the specification says |
| Server.ProcessServer.Invoke | crates/aura-wasm-host/src/server.rs:191-194 | invoke in Enabled, as the specification says |
| Server.ProcessServer.Disable | crates/aura-wasm-host/src/server.rs:196-201 | disable from Enabled, as the specification says |
| Server.ProcessServer.Shutdown | crates/aura-wasm-host/src/server.rs:203-213 | shutdown from Loaded or Disabled, as the specification says |
| Server.ProcessServer.Dispatch | crates/aura-wasm-host/src/server.rs:110-136 | the switch over the six commands |
| Server.ProcessServer.Reply | crates/aura-wasm-host/src/server.rs:91-102 | frames and writes a reply, or names it invalid |
| Server.ProcessServer.Turn | crates/aura-wasm-host/src/server.rs:76-106 | what follows one frame read: parity, command, poison, reply |
| Server.ProcessServer.Handle | crates/aura-wasm-host/src/server.rs:109-148 | the whole command switch, as the specification says |
| Server.ProcessServer.CloseOnEof | crates/aura-wasm-host/src/server.rs:223-234 | the cleanup, as the specification says |
| Server.ProcessServer.Serve | crates/aura-wasm-host/src/server.rs:62-107 | the loop ends with exactly the state and result of the recursive specification, so all theorems on runs hold of it |
| Server.Run | crates/aura-wasm-host/src/server.rs:52-107 | a new server on any streams, run to its end, gives the result and the output of the specified run; its journal is disciplined and its output reads back as the messages the journal has as sent |
| Concurrency.StepKeeps | crates/aura-wasm-host/src/server.rs:261-304 | every atomic step of every thread keeps the ownership of IDs, of frames read and of failures |
| Concurrency.IdsRepeat | crates/aura-wasm-host/src/server.rs:262-265 | the IDs of two allocations are equal iff a multiple of 2^63 lies between them |
| Concurrency.CallsGetTheirOwnResponses | crates/aura-wasm-host/src/server.rs:261-304 | in every interleaving a call that returns a body had written one frame, with its own ID and the body it was begun with, and its own thread read the response with that ID, which no other call read; every frame written is the request of the call recorded with it; crossed responses make their reader fail and the cell keeps the first report |
| Concurrency.OutputIsWholeFrames | crates/aura-wasm-host/src/server.rs:268-277 | in every interleaving and with any writer that fails for good once it fails, the output reads back as exactly the requests written, with at most a truncation where the writer failed |
| Concurrency.AloneIsSequential | crates/aura-wasm-host/src/server.rs:261-291 | a thread that is not disturbed does in its own steps what the sequential call does |
| LaunchHook.Guest.Transition | examples/launch-hook/src/lib.rs:97-102 | moves exactly from the expected state, otherwise refuses and stays |
| LaunchHook.Guest.Load | examples/launch-hook/src/lib.rs:18-20 | CREATED to LOADED or refused |
| LaunchHook.Guest.Enable | examples/launch-hook/src/lib.rs:22-24 | LOADED to ENABLED or refused |
| LaunchHook.Guest.Disable | examples/launch-hook/src/lib.rs:88-90 | ENABLED to LOADED or refused |
| LaunchHook.Guest.Unload | examples/launch-hook/src/lib.rs:92-94 | LOADED to CREATED or refused |
| LaunchHook.Guest.Find | examples/launch-hook/src/lib.rs:121-137 | the search finds the first match |
| LaunchHook.Guest.ExtendCommand | examples/launch-hook/src/lib.rs:64-76 | the launch command gets one argument more, or is left alone, or is refused |
| LaunchHook.Guest.Append | examples/launch-hook/src/lib.rs:53-86 | the update level by level computes the decision that `HookLaws` characterises |
| LaunchHook.Guest.Invoke | examples/launch-hook/src/lib.rs:26-86 | which operation answers in which state |
| HookLaws.AnyIsFirst | examples/launch-hook/src/lib.rs:121-173 | where keys are distinct, as the decoder guarantees, any-match and first-match lookups agree |
| HookLaws.AppendedOnlyOneWay | examples/launch-hook/src/lib.rs:59-76 | "one string appended at the path, nothing else moved" determines the result |
| HookLaws.DecideExact | examples/launch-hook/src/lib.rs:53-86 | exactly which events are left alone, which are changed, and that a change is one string appended at plan.command.jvmArguments |
| HookLaws.AppendedMeasures | examples/launch-hook/src/lib.rs:74-76 | an append adds one node and the string's bytes, deepens nothing beyond the path, and stays sound iff the list was not full |
| HookLaws.ShortAnswersEncode | examples/launch-hook/src/lib.rs:39-47 | the unchanged answers of both operations always encode |
| HookLaws.ReplacementEncodes | examples/launch-hook/src/lib.rs:78-85 | a changed event can be encoded iff the list has at most 1023 arguments and data leaves 5 nodes and 77 bytes |
| HookLaws.RefusalExact | examples/launch-hook/src/lib.rs:53-173 | exactly which events are refused and in which words: the first obstacle on the path from the event to the argument list |
| HookLaws.EventExact | examples/launch-hook/src/lib.rs:53-86 | the hook operation on all byte strings: refused with which error, left alone, or replaced; the answers are read back from the output and spelled out entry by entry |
| HookLaws.PatchExact | examples/launch-hook/src/lib.rs:34-48 | the patch operation on all byte strings: a map with schema version 1 is answered with the one fixed map, spelled out; everything else is refused, with which error |
| HookCases.FullEventEncodes | crates/aura-bridge-value/src/value.rs:157-217 | an event with 1024 arguments is within every limit |
| HookCases.FullEventIsRefused | examples/launch-hook/src/lib.rs:67-85 | that event decodes, is understood and of the kind that is changed, and the hook answers it with an error |
| HookCases.EventIsChanged | crates/aura-wasm-host/tests/launch_hook.rs:28-98 | the event of the repository's own example is answered with the replacement that the example expects |
| GoldenVectors.FortyTwo | crates/aura-bridge-value/tests/value.rs:3-11 | the bytes of the integer 42, both ways |
| GoldenVectors.ErrorCodes | crates/aura-bridge-value/src/error.rs:26-57 | the bytes of every error code |
| GoldenVectors.HelloFrame | crates/aura-runtime-protocol/tests/protocol.rs:8-46 | the bytes of the hello frame with ID 7 |
| GoldenVectors.BadHeaders | crates/aura-runtime-protocol/tests/protocol.rs:61-62 | a frame header with length 0 or beyond 16 MiB is refused as soon as it is read, whatever follows |
| GoldenVectors.ShortHeaders | crates/aura-runtime-protocol/tests/protocol.rs:246-248 | no bytes are a clean end, and one to three bytes a truncated header |
| GoldenVectors.HookUnchanged | crates/aura-wasm-host/tests/process_callbacks.rs:10 | the bytes of the hook's unchanged answer |
| GoldenVectors.PatchUnchanged | crates/aura-wasm-host/tests/process_callbacks.rs:11 | the bytes of the patch answer |
| HookRuns.Answer | examples/launch-hook/src/lib.rs:17-95 | the hook object behaves as the guest function used for whole runs |
| HookRuns.OutcomesByName | examples/launch-hook/src/lib.rs:17-102 | the hook's answer to every call in every state, by name: which operation is which, and each refusal in the hook's own words |
| HookRuns.MovesByName | examples/launch-hook/src/lib.rs:9-24 | the cycle of the three states: load, enable, disable and unload lead back to the start |
| HookRuns.AcceptedCall | examples/launch-hook/src/lib.rs:17-102 | in the state the server's command implies, no lifecycle call fails and no invoke fails with invalid-state |
| HookRuns.TurnInTune | crates/aura-wasm-host/src/server.rs:150-213 | between commands Loaded, Enabled and Disabled correspond to the hook's LOADED, ENABLED and LOADED |
| HookAnswers.AppendedLength | examples/launch-hook/src/lib.rs:74-76 | an append adds exactly the wire bytes of what is appended |
| HookAnswers.EventAnswerIsClose | examples/launch-hook/src/lib.rs:53-86 | the answer to an event decodes and is at most 55 bytes longer than the event |
| HookAnswers.PatchAnswerIsClose | examples/launch-hook/src/lib.rs:34-48 | the same for the answer to a patch request |
| HookAnswers.OutcomeIsDeliverable | examples/launch-hook/src/lib.rs:17-95 | in every state the hook's answer to a call is such an output of one of its two operations, or an error with a short text |
| HookAnswers.AnswersAreAnswerable | crates/aura-wasm-host/src/server.rs:82-102 | the hook's answer to a command that came in a frame can be passed on: the invoke frame bounds the event, and 55 bytes more fit a result frame |
| HookAnswers.AnswersNeverEndARun | crates/aura-wasm-host/src/server.rs:62-107 | in every run hosting the hook, with a working writer: when a failed run ends right after an export call that answered, the call had poisoned the cell, and that is the error |
| HookRuns.NeverRefused | examples/launch-hook/src/lib.rs:31-33 | in no run hosting the hook, traps and end-of-input cleanup included, does the hook ever answer invalid-state |

## Left out

- Wasmtime itself: fuel, epochs, the ticker thread, memory limits, WASI and stdout capture. A call that they stop is a trap with an arbitrary text.
- The guest's reasons for what it does: since the input is fixed and the guest arbitrary, a guest that looks at the answers to its callbacks is one of the guests quantified over.
- Descriptor files, path policy and JSON: reading a descriptor is an arbitrary success or an arbitrary host error.
- Short reads and interrupted reads: a stream is the bytes it yields or takes before it ends or fails.
- `flush`: it always succeeds in the model. A flush that fails differs from a failing write, which never leaves a whole frame behind: the frame may be out although the server treats it as not written.
- Traces.OutputReadsBack: a writer that fails inside a frame and later accepts bytes again is not covered; since a callback does not look at the poison cell, the next callback of the same export call would then follow part of a frame. Nor is a flush that fails after the whole frame was taken: the output would then read back as one message more than the log has as sent.
- Concurrency.OutputIsWholeFrames: as for Traces.OutputReadsBack, with a failing flush too: the output would read back as one request more than was recorded as written.
- FrameLaws.HeldReadsBack: as for Traces.OutputReadsBack.
- Poisoned mutexes: no lock holder panics in the model.
- `Error` display texts other than the ones the server sends or classifies by.
- The Rust float type: floats are compared by their bits.
- The guest copy of the value codec, which is the same code, and the generated bindings.
- The Java provider and host plugin, packaging and validation tools.
- Encoding.Encoder.Value: on failure it does not say what was written so far, because the encoder is thrown away then.
- Encoding.Encoder.Body: as for Encoding.Encoder.Value.
- DecoderClass.Decoder.Value: on failure it does not say where the cursor stopped, beyond the bounds on work, because the decoder is thrown away then.
- DecoderClass.FromWire: inputs are shorter than 2^64 bytes, as every slice is.
- Concurrency.CallsGetTheirOwnResponses: the four steps of a call are atomic; the memory model below the two locks and the atomic counter is not modelled.
- LaunchHook.Guest.Append: the nested mutable references of the source are rebuilt level by level, as Dafny values have no interior references; aliasing between levels is therefore not modelled.
- Server.WasmPlugin.Call: resetting fuel and deadline before a call cannot fail in the model.
