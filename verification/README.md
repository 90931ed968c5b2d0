# Verified model of the Overhauled broker

Overhauled is a C++ broker that takes task frames from TCP clients, runs them on a CPU, GPU or NPU
backend, and hosts WASM sandbox modules that can be swapped while tasks run. This project models
its four connected cores in Dafny and proves properties of them over all inputs and all
interleaved runs.

1. **The WASM hotswap manager** (`Names`, `Hotswap`, `HotswapRuns`, `HotswapLimits`,
   `HotswapReplies`, `HotswapManager`, `WasmLifecycle`). Each locked section of `WasmSandboxManager` is
   one event of a transition system with any number of tasks in flight; a task is two events, admit and complete. A ghost
   ticket records the key and the incarnation a task was admitted under. The theorems speak about
   every finite run. `WasmSandboxManager` is a class whose methods refine the events.
2. **The wire codecs** (`Bytes`, `Wire`, `Utf8`, `Brk1`, `Brk2`, `Brk2Request`, `Brk2Response`,
   `Wsm1`, `Wsm1Codec`, `Med1`, `Nxr1`, `Layouts`). Printers `Put…(x, k)` give the encoding of `x` followed by
   `k`; decoders are offset-advancing methods whose contract says, for every message, that the
   result is that message if and only if the input is its encoding and fits the limits. `Layouts`
   ties every encoding to its documented layout, byte by byte.
3. **Placement and GPU admission** (`Topology`, `Placement`, `GpuService`, `GpuBroker`, `Doubles`,
   `Dispatch`). Concurrent requests take a client id, a home GPU, a placement and an in-flight slot
   in separate critical sections; every interleaving is covered.
4. **The broker session** (`Framing`, `Session`, `SessionReplies`, `SessionClose`). A reader, bounded response
   threads and a socket shared under a write mutex, as steps over the stream of bytes sent. A write
   may fail part-way and a thread may fail to start.

Machine integers are modelled where they matter: the 32-bit task counter and the 64-bit lease
counter of the hotswap manager and the 64-bit round-robin counter of the placer wrap; byte values,
16-, 32- and 64-bit fields are range-restricted types. Strings are byte sequences. Doubles are
64-bit patterns; a pattern is finite when its exponent bits are not all ones (section 3.4 of
IEEE 754-2008).

## Where the code and its promises part

The model follows the code.

- docs/BROKER_PROTOCOL.md says the low eight bits of the BRK2 request flags are accepted; the code
  accepts only zero. The minor version byte is not checked. The document's field tables do not list
  request field 10 or response field 7, which the code reads and writes.
- docs/WASM_INTEROP.md reserves the flags byte of a WSM1 task request as zero; the decoder accepts
  any value (`Wsm1Codec.TaskRequestReencodes` says exactly which frames carry a message).
- A release needs no earlier drain and ignores the acknowledgement token; it succeeds exactly when
  the module is known and idle (`HotswapRuns.ReleaseOkIff`).
- The module key joins three ids with ':'. Among all triples of ids it is ambiguous exactly when one
  contains ':' (`Names.KeyIsUnambiguousIff`). Among modules that can be registered, whose ids are
  not empty, it is ambiguous exactly when a ':' sits where another split leaves no id empty
  (`Names.NamedKeyIsUnambiguousIff`); two such modules then share one record
  (`HotswapLimits.CollidingModulesInterfere`).
- The 32-bit counters of the records are exact throughout a run exactly when fewer than 2^32 tasks
  were in flight per key at every moment of it (`HotswapLimits.AlwaysExactIff`). One task more and
  the module can be released under all of them (`HotswapLimits.OverflowLosesTasks`); once passed, the
  counter can stay wrong (`HotswapLimits.CounterStaysWrong`).
- A lifecycle request takes effect before its answer is encoded. If the module's lease is too long to
  encode, the client is told Error although the module was registered, drained or released
  (`WasmLifecycle.LostChangeIff`, `WasmLifecycle.LongIdsAreLost`).
- A socket write that fails part-way does not end the session (`Session.CutSessionGoesOn`), so the
  bytes sent are the frames sent, each behind its length, exactly when no write was cut short
  (`Session.OutputIsFrames`).

## Model

| member | source | states |
|---|---|---|
| `HotswapRuns.CountersAreExact` | src/wasm_sandbox.cpp:784-1065 | After every run, a record's task count equals the number of tasks in flight under its key; Prepared and Stopped mean none, Draining means at least one, and Released is never stored. |
| `HotswapRuns.CompletionFindsItsIncarnation` | src/wasm_sandbox.cpp:994-1065 | After every run, a task in flight finds the record of the incarnation that admitted it, with that incarnation's lease and a positive count, so neither guard of the completing section fails. |
| `HotswapRuns.ReleaseOkIff` | src/wasm_sandbox.cpp:888-926 | In every reachable state, release succeeds if and only if the module is known and no task admitted under its key is in flight. |
| `HotswapRuns.OthersUntouched` | src/wasm_sandbox.cpp:784-1065 | No event changes the record, the incarnation or the tasks of any key but its own. |
| `HotswapRuns.ModulesIndependent` | src/wasm_sandbox.cpp:754-758 | For sandbox and module ids without ':', no event on one module changes the record of another module. |
| `HotswapRuns.SoloModulesIndependent` | src/wasm_sandbox.cpp:754-758 | Of two different modules that can be registered, one of them with an unambiguous key, no event on one changes the record of the other. |
| `HotswapRuns.OnlyForward` | src/wasm_sandbox.cpp:803-1065 | Over every run, an incarnation that is still alive has moved only forward in Prepared, Active, Draining, Stopped and has kept its lease and GPU. |
| `HotswapRuns.DrainCloses` | src/wasm_sandbox.cpp:852-886 | A successful drain closes the live incarnation: Stopped if no task of it is in flight, Draining otherwise. |
| `HotswapRuns.NoAdmissionAfterDrain` | src/wasm_sandbox.cpp:994-1019 | Whatever runs after a drain, releases and prepares included, the drained incarnation stays closed and its set of tasks only shrinks. |
| `HotswapRuns.DrainProgress` | src/wasm_sandbox.cpp:1052-1065 | Over every run from a Draining record with n tasks, after c < n completions it is alive, Draining and holds n - c tasks; after n it is Stopped while it is alive; c never exceeds n. |
| `HotswapRuns.StoppedAtLastCompletion` | src/wasm_sandbox.cpp:1058-1063 | The completion that stops a Draining record is exactly its n-th, whatever interleaves. |
| `HotswapRuns.StoppedForGood` | src/wasm_sandbox.cpp:801-819 | A Stopped incarnation completes nothing more and stays Stopped and empty for as long as it lives. |
| `HotswapRuns.RunSerials` | src/wasm_sandbox.cpp:826-842 | Over every run the list of incarnations only grows, and a key either keeps its incarnation or has a newly created one. |
| `HotswapRuns.LeasesDistinct` | src/wasm_sandbox.cpp:826-848 | Over every run, two prepares that each register an incarnation answer with different lease tokens, whether or not the incarnations are still alive, unless 2^64 registrations lie between them. |
| `HotswapRuns.RecordsComeFromPrepares` | src/wasm_sandbox.cpp:821-850 | After every run, each stored record has the module, the GPU and the lease that the last registering prepare of its key was given and answered; no event alters or invents them. |
| `HotswapRuns.GpusInRange` | src/wasm_sandbox.cpp:821-828 | If no prepare of a run was given a GPU outside -1 to n - 1, no record ever names one. |
| `HotswapRuns.SameLeaseWhileLive` | src/wasm_sandbox.cpp:801-819 | After any run over which an incarnation stays alive, preparing it again changes nothing: before a drain it returns the lease and GPU it has had all along with the current count, after a drain it is refused as busy. |
| `Hotswap.RunInv` | src/wasm_sandbox.cpp:784-1065 | The invariant behind these theorems holds after every legal run from any state that has it. |
| `Hotswap.StepInv` | src/wasm_sandbox.cpp:784-1065 | Each of the five events preserves the invariant while fewer than 2^32 tasks are in flight per key. |
| `Hotswap.PrepareInv` | src/wasm_sandbox.cpp:784-850 | Prepare preserves it: a new incarnation starts with no task and a fresh serial. |
| `Hotswap.DrainInv` | src/wasm_sandbox.cpp:852-886 | Drain preserves it. |
| `Hotswap.ReleaseInv` | src/wasm_sandbox.cpp:888-926 | Release preserves it: a record it erases has no task in flight. |
| `Hotswap.AdmitInv` | src/wasm_sandbox.cpp:994-1019 | Admission preserves it. |
| `Hotswap.CompleteInv` | src/wasm_sandbox.cpp:1052-1065 | Completion preserves it. |
| `HotswapLimits.AlwaysExactIff` | src/wasm_sandbox.cpp:784-1065 | Over every run whatever, without any bound on tasks, all counters equal the tasks in flight at every moment if and only if at every moment fewer than 2^32 tasks were in flight per key. |
| `HotswapLimits.CounterExactIff` | src/wasm_sandbox.cpp:1005-1017 | The step: from a state with the invariant, an admission leaves the 32-bit counter equal to the number in flight if and only if that number is below 2^32. |
| `HotswapLimits.CounterStaysWrong` | src/wasm_sandbox.cpp:1052-1065 | A concrete family of runs: after one admission too many and one completion, 2^32 - 1 tasks are in flight and the counter reads zero. |
| `HotswapLimits.OverflowLosesTasks` | src/wasm_sandbox.cpp:1005-1017 | A concrete family of runs: with 2^32 - 1 tasks in flight, one more admission wraps the counter to zero and release then erases the record under all of them. |
| `HotswapLimits.CollidingModulesInterfere` | src/wasm_sandbox.cpp:754-758 | For every registrable module with ':' in an id there is a different triple of ids whose drain stops it; if the key is ambiguous among registrable modules, the other is registrable too and preparing it returns the first one's lease. |
| `HotswapManager.WasmSandboxManager.constructor` | src/wasm_sandbox.cpp:736-737 | A new manager is in the initial state of the transition system. |
| `HotswapManager.WasmSandboxManager.SetForceCpu` | src/wasm_sandbox.cpp:739-742 | Only the flag changes. |
| `HotswapManager.WasmSandboxManager.PrepareModule` | src/wasm_sandbox.cpp:784-850 | State and reply are those of the prepare event, with the GPU chosen from target, flag and selector. |
| `HotswapManager.WasmSandboxManager.DrainModule` | src/wasm_sandbox.cpp:852-886 | State and reply are those of the drain event. |
| `HotswapManager.WasmSandboxManager.ReleaseModule` | src/wasm_sandbox.cpp:888-926 | State and reply are those of the release event. |
| `HotswapRuns.ClosedIffDrained` | src/wasm_sandbox.cpp:784-1065 | After every run, a stored record is Draining or Stopped if and only if a drain of its key followed its last registration. |
| `HotswapRuns.QueryIsExact` | src/wasm_sandbox.cpp:929-956 | After every run, a query finds a module exactly while an incarnation of it is alive; it then reports the number of that incarnation's tasks in flight and the lease it was registered with, Draining exactly if it was drained since its registration and has tasks left, Stopped exactly if it was drained and has none. |
| `HotswapReplies.PrepareAnswers` | src/wasm_sandbox.cpp:784-850 | After every run: a prepare of a nameless module is rejected; of a live undrained one it reports state, GPU, count and lease by history and changes nothing; of a drained one it is busy with state alone; any other is registered with the given GPU and the lease of the next serial. |
| `HotswapReplies.DrainAnswers` | src/wasm_sandbox.cpp:852-886 | After every run: a drain of a live module answers Ok with Stopped or Draining by its tasks in flight, their number, and the GPU and lease of its last registration, and stores just that state; any other is not found. |
| `HotswapReplies.ReleaseAnswers` | src/wasm_sandbox.cpp:888-926 | After every run: a release of a live idle module erases it and answers Released with its GPU and lease; of a busy one it changes nothing and answers Busy with all of it; any other is not found. |
| `HotswapReplies.QueryAnswers` | src/wasm_sandbox.cpp:929-956 | After every run: a query of a live module answers state, GPU, number of tasks and lease, each by the history since its last registration; any other is not found. |
| `HotswapReplies.AdmitAnswers` | src/wasm_sandbox.cpp:994-1019 | After every run: a task is told that there is no such module, that it is draining, or that it is rejected because a drained one has no task left; otherwise it is admitted on the GPU of the last registration, and the module is Active with one task more. |
| `HotswapReplies.CompleteEffect` | src/wasm_sandbox.cpp:1052-1065 | After every run: a completion leaves its module one task less and otherwise as it was, or Stopped if it was drained and this was the last. |
| `HotswapReplies.PreparedIffUnused` | src/wasm_sandbox.cpp:784-1065 | After every run, a stored record is Prepared if and only if neither a drain nor a task of its key followed its last registration. |
| `HotswapReplies.LiveRecord` | src/wasm_sandbox.cpp:784-1065 | After every run, every part of a live record by history: the module, GPU and lease of its last registration, its state, and its tasks in flight. |
| `HotswapManager.WasmSandboxManager.HandleLifecycle` | src/wasm_sandbox.cpp:760-782 | The action byte selects one of the four events; any other byte changes nothing and fails. |
| `HotswapManager.WasmSandboxManager.AdmitTask` | src/wasm_sandbox.cpp:985-1019 | The first locked section of a task is the admit event. |
| `HotswapManager.WasmSandboxManager.CompleteTask` | src/wasm_sandbox.cpp:1052-1065 | The second locked section of a task is the complete event. |
| `Names.LeaseInjective` | src/wasm_sandbox.cpp:830-831 | Equal lease tokens have equal serial numbers, whatever the ids contain. |
| `Names.DecimalInjective` | src/wasm_sandbox.cpp:830-831 | The decimal suffix of a lease determines its serial number. |
| `Names.DecimalDenotes` | src/wasm_sandbox.cpp:830-831 | The suffix consists of digits, without a leading zero unless it is zero, and denotes the serial number. |
| `Names.LeaseSpelled` | src/wasm_sandbox.cpp:830-831 | A lease is `lease-`, the three ids and the serial number, joined by '-'. |
| `Names.KeySpelled` | src/wasm_sandbox.cpp:754-758 | A key is the three ids joined by ':'. |
| `Names.ColonFreeKeysInjective` | src/wasm_sandbox.cpp:754-758 | Modules whose sandbox and module ids contain no ':' have equal keys only if they are equal. |
| `Names.KeyIsUnambiguousIff` | src/wasm_sandbox.cpp:754-758 | Among all triples of ids, empty ones included, as raw manager calls allow, a module is the only one with its key if and only if none of its ids contains ':'. |
| `Names.NamedKeyIsUnambiguousIff` | src/wasm_sandbox.cpp:754-799 | Among modules that prepare accepts, whose ids are not empty, a module is the only one with its key if and only if ':' occurs in its sandbox id at most as first byte, in its module id at most as the whole of it, and in its version at most as last byte. |
| `Session.OutputIsFrames` | src/broker_server.cpp:301-326 | After every run the bytes sent are the frames sent, each behind its length, plus at most the length of the frame being written, if and only if no write was cut short; then a client can split them in only one way. |
| `Session.CutSessionGoesOn` | src/broker_server.cpp:301-326 | From every idle state, a reply whose body write fails leaves the session open and writing behind four stray bytes. |
| `Session.OneReplyEach` | src/broker_server.cpp:335-398 | In every run each reply to a decoded request carries that request's own request id (BRK2) or task id (BRK1), and no request has two. |
| `SessionReplies.RepliesSayTheResponse` | src/broker_server.cpp:301-398 | In every run exactly one response was handed in for an answered request, by its own handler or as its own rejection over the cap, and the frame sent says that response: over BRK1 it is its frame, over BRK2 it has the request id and the documented fields with its values. |
| `SessionReplies.RepliesAreOwn` | src/broker_server.cpp:301-398 | In every run the one thing ever said to an answered request is the frame sent for it. |
| `SessionReplies.ReturnedOnce` | src/broker_server.cpp:386-398 | Over every run at most one response is handed in for a request. |
| `Session.EncodedMeans` | src/broker_server.cpp:301-310 | A response has no encoding exactly if a string, the result or the whole exceeds the limits of the protocol, stated by sizes; otherwise the encoding says all of it. |
| `SessionReplies.SaidOnce` | src/broker_server.cpp:386-398 | Over every run at most one reply is ever composed for a request. |
| `SessionReplies.RepliedUnlessDropped` | src/broker_server.cpp:301-410 | In every run a decoded request is in flight or has exactly one reply on the wire, never both, if and only if no step gave its reply up (a thread that could not be started, a throwing handler, a reply too large for its protocol, writes already disabled, a failed write); once the socket is closed, it is answered if and only if no step did. |
| `SessionReplies.KeptRun` | src/broker_server.cpp:301-410 | The same for one request over a run from any reachable state. |
| `Session.ThreadsBounded` | src/broker_server.cpp:276-294 | In every run at most `max_inflight_per_client` responses are pending, writes are enabled exactly until the session winds down, and when the socket is closed every response thread has finished and been joined. |
| `SessionClose.EveryRunCanClose` | src/broker_server.cpp:276-411 | Every run of every session has a legal continuation that ends with the socket closed, without a failing write, a throwing handler or further input; so mutex, threads and join never deadlock. |
| `SessionClose.CanClose` | src/broker_server.cpp:276-411 | The same from any state with the session invariant. |
| `SessionClose.EveryScheduleCloses` | src/broker_server.cpp:403-410 | Once writes are disabled every schedule, failing writes and throwing handlers included, has at most a fixed number of steps, and no step is possible exactly when the socket is closed. |
| `SessionClose.BudgetBound` | src/broker_server.cpp:403-410 | That number is at most twice `max_inflight_per_client` plus three. |
| `SessionClose.NoFrameBegunAfterStop` | src/broker_server.cpp:302-315 | Once writes are disabled no frame is begun: over every run at most the one whose writer already holds the mutex is still sent. |
| `SessionClose.NothingReadAfterLast` | src/broker_server.cpp:328-345 | After a frame that ends the session, a stop or a failed thread start, no run reads another request or refuses another frame. |
| `SessionClose.FinishesIff` | src/broker_server.cpp:328-401 | Exactly what ends reading: end of input or shutdown, a thread that cannot be started, a frame length out of range, or a refusal or rejection too large to be sent. |
| `SessionClose.RefusalReadsOn` | src/broker_server.cpp:364-374 | After any other refusal or rejection, written or given up, the reader reads on. |
| `Session.EncodedIsCorrelated` | src/broker_server.cpp:301-315 | An encoded reply fits the frame limit and carries the id of its request. |
| `Session.RunInv` | src/broker_server.cpp:276-411 | The session invariant holds after every run. |
| `Session.StepInv` | src/broker_server.cpp:276-411 | Every step of the reader, of a response thread or of a write preserves the session invariant. |
| `Framing.StreamInjective` | src/broker_server.cpp:308-315 | Length-prefixed streams of frames shorter than 2^32 are equal only if the frames are. |
| `Brk2.ParseFields` | src/brk2_protocol.cpp:36-52 | The result is a field list if and only if the bytes after the header are the concatenation of its printed fields, with distinct ids, flags at most 3 and types 1 to 12; so the list is unique, in order, and prints back to the same bytes. |
| `Brk2.ReadField` | src/brk2_protocol.cpp:39-45 | One TLV is read if and only if the bytes at the offset start with a printed well-formed field, and the offset advances by exactly that field. |
| `Brk2.HasId` | src/brk2_protocol.cpp:46-48 | The duplicate test: true if and only if an earlier field has the id. |
| `Brk2.FieldsLaw` | src/brk2_protocol.cpp:25-52 | Parsing the TLV region yields a list if and only if the region is that list's printed form. |
| `Brk2.FieldsUnique` | src/brk2_protocol.cpp:25-29 | Well-formed field lists with the same bytes are equal. |
| `Brk2.FindIsFirst` | src/brk2_protocol.cpp:70 | Whichever field comes first with the id is the one found, even in a list with repeated ids. |
| `Brk2.Find` | src/brk2_protocol.cpp:70 | A field with the id if there is one, none if and only if no field has it. |
| `Brk2.EnvelopeSplit` | src/brk2_protocol.cpp:89-103 | Every body of at least 32 bytes is the printed form of the envelope read from its fixed offsets, followed by the rest. |
| `Brk2.EnvelopeInjective` | src/brk2_protocol.cpp:81-86 | A printed envelope determines every header field and the payload. |
| `Utf8.ValidUtf8` | src/brk2_protocol.cpp:53-69 | The masking and shifting loop accepts exactly the concatenations of encodings of Unicode scalar values (section 4 of RFC 3629), in bounds on every input. |
| `Utf8.GrammarIsEncoding` | src/brk2_protocol.cpp:53-69 | The byte-range grammar of section 4 of RFC 3629 describes exactly the encodings of scalar values. |
| `Utf8.RangeTestIsGrammar` | src/brk2_protocol.cpp:58-66 | The overlong, surrogate and upper-bound tests on the assembled code point decide exactly that grammar. |
| `Utf8.EncodeAllInjective` | src/brk2_protocol.cpp:53-69 | An accepted string spells only one sequence of scalar values. |
| `Brk2Request.DecodeRequest` | src/brk2_protocol.cpp:89-135 | The decoder returns a request and an id if and only if the body is a request envelope with that id around a field list that satisfies the schema for that request, within the limits. |
| `Brk2Request.AcceptsMeans` | src/brk2_protocol.cpp:89-135 | That relation, said twice: by printing an envelope around fields, and by reading fixed offsets and parsing. |
| `Brk2Request.CheckEnvelope` | src/brk2_protocol.cpp:92-103 | The header tests hold if and only if the body is a version 2 request envelope of the right schema whose payload length is exact and within the limits. |
| `Brk2Request.ReadSchema` | src/brk2_protocol.cpp:105-132 | The schema layer yields a request if and only if the fields carry exactly its values. |
| `Brk2Request.GetString` | src/brk2_protocol.cpp:71-77 | A string comes back if and only if the field carries it as non-empty valid UTF-8. |
| `Brk2Request.GetFixed` | src/brk2_protocol.cpp:78-80 | Data come back if and only if the field has the type and the size. |
| `Brk2Request.CheckKnown` | src/brk2_protocol.cpp:105-108 | True if and only if no field with an unknown id is critical. |
| `Brk2Request.GetOptional` | src/brk2_protocol.cpp:121-131 | The three optional fields pass if and only if each is absent or well-formed. |
| `Brk2Request.GetTexts` | src/brk2_protocol.cpp:110-114 | The four names come back if and only if the fields carry them within the string limit. |
| `Brk2Request.GetScalars` | src/brk2_protocol.cpp:115-120 | Priority, timeout and payload come back if and only if fields 5, 6 and 7 carry them. |
| `Brk2Request.FieldOrderIrrelevant` | src/brk2_protocol.cpp:36-135 | Permuting the fields of a body changes neither whether it is accepted nor the request and id it yields. |
| `Brk2Request.UnknownOptionalIgnored` | src/brk2_protocol.cpp:105-108 | Inserting a fresh-id unknown non-critical field at any boundary, within the limits, changes neither whether a body is accepted nor what it yields. |
| `Brk2Request.UnknownCriticalRejected` | src/brk2_protocol.cpp:105-108 | A body with an unknown critical field is accepted as no request. |
| `Brk2Request.DecodingSeesKnownFields` | src/brk2_protocol.cpp:89-135 | Decoding depends only on the known fields: bodies that agree on them yield the same request, whatever their minor version, order or unknown optional fields. |
| `Brk2Request.AcceptedFields` | src/brk2_protocol.cpp:89-135 | A printed body is accepted if and only if its fields fit the limits and satisfy the schema. |
| `Brk2Response.EncodeResponse` | src/brk2_protocol.cpp:137-151 | Encoding succeeds exactly when both strings fit, 76 plus the three lengths fits the payload limit, 108 plus them the frame limit, and each length 32 bits; the output is then the documented envelope with the request id around bytes that parse to the documented fields and nothing else. |
| `Brk2Response.BodyReadsBack` | src/brk2_protocol.cpp:137-151 | The body has the stated length and literal envelope, and the only field list its bytes parse to is ids 1 to 7 with literal wire types: task id, status byte 0 to 3, GPU in two's complement over eight bytes, latency, result, error, and "cpu", "gpu" or "npu". |
| `Brk2Response.FieldsDocumented` | src/brk2_protocol.cpp:142-148 | The fields the encoder puts are exactly those. |
| `Brk2Response.PayloadSize` | src/brk2_protocol.cpp:141-149 | The payload is 76 bytes plus task id, result and error. |
| `Brk2Response.PayloadIsFields` | src/brk2_protocol.cpp:141-148 | The seven appended fields are the printed field list. |
| `Brk2Response.FieldsDetermineResponse` | src/brk2_protocol.cpp:142-148 | The seven fields determine every value of the response, the two's-complement GPU index included, except the fallback flag, which is not sent. |
| `Brk2Response.AppendField` | src/brk2_protocol.cpp:25-29 | Appending fails exactly on 2^32 bytes or more, and otherwise adds the printed field. |
| `Brk2Response.WriteEnvelope` | src/brk2_protocol.cpp:81-86 | The bytes written are the printed envelope and its payload. |
| `Layouts.TaskRequestBytes` | docs/WASM_INTEROP.md:102-137 | A frame carries a WSM1 task request exactly if it is, byte by byte, the documented layout of a message within the limits, the flags byte being free. |
| `Layouts.TaskResponseBytes` | docs/WASM_INTEROP.md:141-159 | The same for a WSM1 task response. |
| `Layouts.LifecycleRequestBytes` | docs/WASM_INTEROP.md:163-184 | The same for a WSM1 lifecycle request. |
| `Layouts.LifecycleResponseBytes` | docs/WASM_INTEROP.md:188-213 | The same for a WSM1 lifecycle response. |
| `Layouts.Brk1RequestBytes` | src/broker_protocol.cpp:240-269 | The same for a BRK1 request. |
| `Layouts.Brk1ResponseBytes` | src/broker_protocol.cpp:271-299 | The same for a BRK1 response. |
| `Layouts.Med1Bytes` | docs/BROKER_PROTOCOL.md:215-234 | The same for a MED1 chunk. |
| `Layouts.Nxr1Bytes` | docs/BROKER_PROTOCOL.md:145-161 | The same for an NXR1 frame; its nine doubles are neither infinite nor NaN. |
| `Layouts.Brk2RequestBytes` | docs/BROKER_PROTOCOL.md:28-64 | A body is accepted as a BRK2 request with an id exactly if its 32 header bytes are the documented ones with that id and the rest is, byte by byte, TLV fields whose ids 1 to 10, wire types and values are the documented ones for that request. |
| `Layouts.FieldsBytes` | docs/BROKER_PROTOCOL.md:45-50 | What the TLV parser accepts, byte by byte. |
| `Layouts.RequestFields` | docs/BROKER_PROTOCOL.md:52-64 | The request schema, field by field with literal ids and wire types. |
| `Layouts.RequestHeaderBytes` | docs/BROKER_PROTOCOL.md:30-43 | The request header, byte by byte. |
| `Wsm1.TaskRequestLaw` | src/wasm_sandbox.cpp:335-434 | Parsing yields a task request, its flags byte and a rest if and only if the input is that request printed before that rest and it fits the limits, for descriptor lists of any length. |
| `Wsm1.TaskResponseLaw` | src/wasm_sandbox.cpp:436-520 | The same for task responses. |
| `Wsm1.LifecycleRequestLaw` | src/wasm_sandbox.cpp:522-621 | The same for lifecycle requests. |
| `Wsm1.LifecycleResponseLaw` | src/wasm_sandbox.cpp:623-730 | The same for lifecycle responses. |
| `Wsm1.GetPutDescriptors` | src/wasm_sandbox.cpp:68-212 | A printed list of descriptors of any length reads back unchanged before any rest. |
| `Wsm1Codec.EncodeTaskRequest` | src/wasm_sandbox.cpp:335-380 | Encoding succeeds exactly when the message fits, and the frame then carries that message, so decoding gives it back. |
| `Wsm1Codec.DecodeTaskRequest` | src/wasm_sandbox.cpp:382-434 | The decoder yields a message if and only if the frame carries it. |
| `Wsm1Codec.TaskRequestReencodes` | src/wasm_sandbox.cpp:335-434 | A frame carries a message if and only if clearing its byte 7 gives that message's encoding. |
| `Wsm1Codec.TaskRequestUnique` | src/wasm_sandbox.cpp:382-434 | A frame carries at most one task request. |
| `Wsm1Codec.EncodeTaskResponse` | src/wasm_sandbox.cpp:436-473 | Encoding succeeds exactly when the message fits, and the frame then carries it. |
| `Wsm1Codec.DecodeTaskResponse` | src/wasm_sandbox.cpp:475-520 | The decoder yields a message if and only if the frame is its encoding, so an accepted frame re-encodes to itself. |
| `Wsm1Codec.EncodeLifecycleRequest` | src/wasm_sandbox.cpp:522-566 | Encoding succeeds exactly when the message fits, and the frame then carries it. |
| `Wsm1Codec.DecodeLifecycleRequest` | src/wasm_sandbox.cpp:568-621 | The decoder yields a message if and only if the frame is its encoding. |
| `Wsm1Codec.EncodeLifecycleResponse` | src/wasm_sandbox.cpp:623-668 | Encoding succeeds exactly when the message fits, and the frame then carries it. |
| `Wsm1Codec.DecodeLifecycleResponse` | src/wasm_sandbox.cpp:670-730 | The decoder yields a message if and only if the frame is its encoding. |
| `Wsm1Codec.AppendBuffers` | src/wasm_sandbox.cpp:68-89 | The descriptor loop succeeds exactly when the count and every name fit, and appends the printed list. |
| `Wsm1Codec.ReadBuffers` | src/wasm_sandbox.cpp:183-212 | The descriptor loop succeeds exactly when the bytes at the offset start with a printed list within the limits, and advances past exactly that list. |
| `Wsm1Codec.ReadHeader` | src/wasm_sandbox.cpp:214-268 | The header is accepted exactly when magic, version and type match; its flags byte comes back. |
| `Wsm1Codec.WriteHeader` | src/wasm_sandbox.cpp:270-276 | The bytes written are the printed header. |
| `Brk1.RequestLaw` | src/broker_protocol.cpp:240-352 | Parsing yields a request and a rest if and only if the input is that request printed before that rest and it fits. |
| `Brk1.ResponseLaw` | src/broker_protocol.cpp:271-413 | The same for responses. |
| `Brk1.EncodeRequest` | src/broker_protocol.cpp:240-269 | Encoding succeeds exactly when the visible part of the request is valid and fits, and the frame then carries it. |
| `Brk1.DecodeRequest` | src/broker_protocol.cpp:301-352 | The decoder yields a request if and only if the frame is its encoding. |
| `Brk1.EncodeResponse` | src/broker_protocol.cpp:271-299 | Encoding succeeds exactly when the response fits, and the frame then carries its visible part. |
| `Brk1.DecodeResponse` | src/broker_protocol.cpp:354-413 | The decoder yields a response if and only if the frame is its encoding. |
| `Brk1.RequestPrefixFree` | src/broker_protocol.cpp:301-352 | No accepted request frame is a proper prefix of another, even under different limits. |
| `Brk1.ResponsePrefixFree` | src/broker_protocol.cpp:354-413 | No accepted response frame is a proper prefix of another, even under different limits. |
| `Brk1.ReadHeader` | src/broker_protocol.cpp:133-190 | The common header is accepted exactly when it is the printed one for that message type. |
| `Med1.Law` | src/media_stream.cpp:80-238 | Parsing yields a media frame and a rest if and only if the input is that frame printed before that rest and it fits. |
| `Med1.Encode` | src/media_stream.cpp:80-135 | Encoding succeeds exactly when the frame fits and gives its printed form. |
| `Med1.Decode` | src/media_stream.cpp:137-238 | The decoder yields a frame if and only if the bytes are its printed form and it fits. |
| `Nxr1.Law` | src/geospatial_frame.cpp:88-207 | Parsing yields a geospatial frame and a rest if and only if the input is that frame printed before that rest, all nine fields are finite and it fits. |
| `Nxr1.Encode` | src/geospatial_frame.cpp:88-130 | Encoding succeeds exactly when all nine fields are finite and the payload fits, and gives the printed form. |
| `Nxr1.Decode` | src/geospatial_frame.cpp:132-207 | The decoder yields a frame if and only if the bytes are its printed form and it fits. |
| `Nxr1.ReadDoubles` | src/geospatial_frame.cpp:65-82 | The nine-field loop succeeds exactly on nine finite printed doubles and advances past them. |
| `Wire.ReadUint` | src/wasm_sandbox.cpp:91-134 | A number is read exactly when enough bytes are left, and the offset then advances past its printed form. |
| `Wire.ReadSized` | src/wasm_sandbox.cpp:136-181 | A string or blob is read exactly when its length is within the limit and its bytes are there. |
| `Wire.AppendStr` | src/wasm_sandbox.cpp:38-51 | Succeeds exactly when the string is within the limit and a 16-bit length, and appends its printed form. |
| `Wire.AppendBlob` | src/wasm_sandbox.cpp:53-66 | Succeeds exactly when the blob is within the limit and a 32-bit length, and appends its printed form. |
| `Wire.GetPutUint` | src/wasm_sandbox.cpp:16-134 | A printed number reads back before any rest. |
| `Wire.GetPutSized` | src/wasm_sandbox.cpp:38-181 | A printed string or blob reads back before any rest. |
| `Bytes.AppendUint` | src/media_stream.cpp:16-20 | The shifting loop appends the big-endian digits of the value. |
| `Bytes.ReadUintAt` | src/media_stream.cpp:37-52 | The accumulating loop gives the value of the big-endian digits. |
| `Bytes.BeValOfBe` | src/media_stream.cpp:16-52 | Reading n printed bytes gives the value modulo 256^n. |
| `Bytes.BeOfBeVal` | src/media_stream.cpp:16-52 | Printing the value of a byte string gives the string back. |
| `GpuService.InflightExact` | src/broker_service.cpp:226-274 | In every interleaving of requests, throwing kernels included, the counter of a GPU equals the requests between their increment and their decrement on it, never exceeds the cap outside the lock, and is zero when none runs. |
| `GpuService.FinishGuard` | src/broker_service.cpp:266-272 | The guard before the final decrement never fails. |
| `GpuService.FallbackNeverTaken` | src/broker_service.cpp:235-239 | In every run, a placement made for a request leaves the round-robin counter alone: its client already has an in-range home. |
| `GpuService.NeverHomeless` | include/nvlink_placement.h:104-111 | Every id a thread has obtained has an in-range home. |
| `GpuService.IdsDistinct` | src/broker_service.cpp:457-468 | In every run distinct sources have distinct client ids. |
| `GpuService.HomeByArrival` | src/broker_service.cpp:457-468 | In every run m sources have exactly the ids 1 to m, and the stored home of client c, which `home_of` returns, is GPU (c - 1) mod n. |
| `GpuService.IdsByArrival` | src/broker_service.cpp:457-468 | Over every run from a state, a source that is new since has a larger id than every source known then: ids follow the order of arrival. |
| `GpuService.AdmittedIffRoom` | src/broker_service.cpp:242-254 | In every run a request about to be counted is admitted exactly when fewer than the cap are running on its GPU, and a refused one leaves every counter alone. |
| `GpuService.RunInv` | src/broker_service.cpp:226-274 | The service invariant holds after every run, and a source keeps its client id for ever. |
| `GpuService.HomesBalanced` | src/nvlink_placement.cpp:235-242 | In every run the clients homed on GPU g number exactly its round-robin share, so two GPUs differ by at most one. |
| `GpuService.StepInv` | src/broker_service.cpp:226-274 | Each step, the two halves of home assignment included, preserves the service invariant. |
| `GpuBroker.BrokerService.constructor` | src/broker_service.cpp:63-73 | A new service is in the initial state of the transition system. |
| `GpuBroker.BrokerService.GetOrAssignClientId` | src/broker_service.cpp:457-468 | The locked lookup is a hit, or the three steps that emplace an id, take a home and store it. |
| `GpuBroker.BrokerService.PlaceClient` | src/broker_service.cpp:235-239 | The placement, made while any thread may hold the client lock and counters move, is the placement step, and the GPU is the one its readings call for. |
| `GpuBroker.BrokerService.EnterGpu` | src/broker_service.cpp:242-254 | The admission section is the counting step; it admits exactly below the cap. |
| `GpuBroker.BrokerService.LeaveGpu` | src/broker_service.cpp:266-272 | The release section is the finishing step. |
| `GpuBroker.BrokerService.PlaceSource` | src/broker_service.cpp:235-239 | Undisturbed, a source gets a GPU with no more in flight than its home, fewer than the threshold if any GPU has, and otherwise the fewest of all, home on ties. |
| `GpuBroker.BrokerService.RunOnGpu` | src/broker_service.cpp:226-274 | Undisturbed, a request is rejected exactly when its GPU is at the cap, is Ok exactly when it is admitted and the kernel succeeds, with the kernel's packed output, and leaves all counters as they were even if the kernel throws. |
| `Topology.BestPeer` | src/nvlink_placement.cpp:159-172 | The first accessible peer of maximum bandwidth, or -1 if there is none or the index is out of range. |
| `Topology.BestNvlinkPeer` | src/nvlink_placement.cpp:138-157 | The first NVLink peer of maximum bandwidth, or -1. |
| `Topology.BestIsUnique` | src/nvlink_placement.cpp:138-172 | These descriptions fix the answer. |
| `Topology.BestExists` | src/nvlink_placement.cpp:138-172 | Every GPU has such an answer, -1 included. |
| `Topology.BestPeerIsNvlink` | src/nvlink_placement.cpp:138-172 | In every topology with the property of the two constructors, a GPU with an NVLink peer has the same best peer in both searches, and it is an NVLink peer. |
| `Topology.Synthetic` | src/nvlink_placement.cpp:106-120 | Fails exactly without a GPU; otherwise all links are PCIe of bandwidth 10 and NVLink bandwidth dominates. |
| `Topology.Detect` | src/nvlink_placement.cpp:48-104 | Fails exactly without a GPU; otherwise a link is NVLink, PCIe or none exactly as its probe says, with bandwidth 100, 90, 10 or 0, and NVLink bandwidth dominates. |
| `Placement.Placer.constructor` | src/nvlink_placement.cpp:232-233 | A new placer has no client and starts at the first GPU. |
| `Placement.Placer.AssignHome` | src/nvlink_placement.cpp:235-242 | The client gets the next GPU in round-robin order and the 64-bit counter advances by one. |
| `Placement.Placer.ReleaseClient` | src/nvlink_placement.cpp:253-256 | Exactly the client's entry goes. |
| `Placement.Placer.Place` | include/nvlink_placement.h:101-133 | Whatever moves between the reads: home if its reading is below the threshold, else the best peer if its reading is, else the first minimum of home's reading and the scan's. If nothing moves: never deeper than home, below the threshold whenever any GPU is, else a global minimum that is home on ties. The counter moves only when the client has no in-range home. |
| `Placement.ScanAll` | include/nvlink_placement.h:123-131 | The scan returns the first minimum of home's reading and its own, home on ties. |
| `Placement.ReadsAreGood` | include/nvlink_placement.h:113-133 | Whatever moves between the reads, the chosen GPU was read no deeper than home, and was read below the threshold if any reading of the placement was. |
| `Placement.SteadyChoice` | include/nvlink_placement.h:113-133 | When nothing moves, the choice by readings is the three-tier choice for the snapshot. |
| `Placement.ChosenIsGood` | include/nvlink_placement.h:113-133 | The three-tier choice for a snapshot is never deeper than home, is below the threshold whenever any GPU is, and otherwise is a global minimum that is home on ties. |
| `Placement.TierTwoIsNvlink` | include/nvlink_placement.h:118-121 | Where NVLink dominates and home, which has an NVLink peer, is at the threshold, there is a best NVLink peer, and it is the choice if it is below the threshold. |
| `Doubles.DecodePayload` | src/broker_service.cpp:21-36 | Succeeds exactly on multiples of eight bytes and gives the patterns whose packing is the payload. |
| `Doubles.EncodePayload` | src/broker_service.cpp:38-51 | The nested byte loops fill the buffer with the packed patterns. |
| `Doubles.UnpackPack` | src/broker_service.cpp:21-51 | Unpacking a packed list gives the list. |
| `Doubles.PackUnpack` | src/broker_service.cpp:21-51 | Packing an unpacked payload gives the payload. |
| `Dispatch.SelectBackend` | include/backend_dispatch.h:60-92 | Exactly when the NPU and exactly when the GPU is chosen, flag by flag; neither ever for exact, verification or cryptographic work that is not accelerator-verified. |
| `Dispatch.SelectedMeans` | src/broker_service.cpp:152-184 | What a request is dispatched to by its profile or, without one, by its preference: "npu", "gpu", "cpu", or anything else. |
| `Dispatch.FallbackMeans` | src/broker_service.cpp:164-183 | Fallback is allowed by the profile's flag or, without a profile, exactly for the preferences "npu" and "gpu". |
| `Dispatch.WasmKinds` | src/broker_service.cpp:139-150 | The six kinds that go to the WASM handlers, spelled out. |
| `Broker.InvalidMeans` | src/broker_protocol.cpp:206-238 | A request is refused exactly for an empty name, a timeout of zero or above 300000, or too large a payload. |
| `Dispatch.HandleRequest` | src/broker_service.cpp:97-224 | On every path a late answer is an empty timeout; a timely geospatial or media request is echoed byte for byte exactly if it carries a frame of its kind and rejected otherwise; WASM kinds get their handler's answer under their own task id; all other kinds get what the generic path promises; outside WASM, Timeout means late and only Ok carries a result. |
| `Dispatch.HandleCompute` | src/broker_service.cpp:97-224 | An Ok result is the reported backend's kernel on the decoded payload, packed; fallback happens exactly after a failed accelerator attempt on a fallback-safe request; work that requires the CPU reports the CPU; a timeout has no result; a timely valid request succeeds exactly when its payload is whole doubles and any accelerator failure was fallback-safe.; a failure names the backend that was tried and is a rejection only for lack of room on a GPU. |
| `Dispatch.RunOnGpu` | src/broker_service.cpp:226-274 | For any outcome of placement and admission, Ok exactly when both and the kernel succeed, with the kernel's packed output, and Rejected exactly when admission refuses; `GpuBroker.BrokerService.RunOnGpu` supplies the outcomes from the counters. |
| `WasmLifecycle.HandleLifecycle` | src/broker_service.cpp:396-451 | What is no lifecycle request is rejected and changes nothing. Otherwise the manager prepares, drains, releases or queries as the kind says, or for the general kind as action byte 1 to 4 says, any other byte failing without change. The answer echoes the four ids with literal status and state bytes under Ok, Rejected or Error by the manager's status, or is an empty Error exactly when the lease, the error text or the frame is too long. |
| `WasmLifecycle.LostChangeIff` | src/broker_service.cpp:423-431 | In every reachable state, a decoded request has its registration, drain or release done and its client told Error if and only if the action changes the manager and the module's lease exceeds the string limit or the answer around it the frame limit. |
| `WasmLifecycle.LongIdsAreLost` | src/broker_service.cpp:423-431 | Under every limit: a new module whose three ids together come within nine bytes of the string limit is registered and its client told Error. |
| `WasmLifecycle.ChangesIff` | src/wasm_sandbox.cpp:760-926 | In every reachable state, exactly a prepare of an unregistered module, a drain of an undrained one and a release of an idle one change the manager, and then the reply is Ok with the module's lease. |
| `Dispatch.HandleGeospatial` | src/broker_service.cpp:287-314 | Ok exactly when the payload is some frame's encoding; the result is then the payload byte for byte; any other outcome is a rejection, so the encode-failure branch is dead. |
| `Dispatch.HandleMedia` | src/broker_service.cpp:316-343 | The same for media frames. |

## Left out

- Sockets, the accept loop, `admit_client`, socket timeouts and errno handling: the session sees decoded requests, end of input and write outcomes as steps.
- Update in place in the session: `session_loop` is modelled on values, one step per atomic action of a thread; aliasing of the captured references is not captured.
- Separate failures of the two writes of a frame: a failed write is one step that delivers any bytes. This covers that the reader, unlike a response thread, writes the body of its own replies even after the length failed (src/broker_server.cpp:82-83, 121-122).
- Reading of frames inside the session: which requests arrive is arbitrary; the BRK1 and BRK2 decoders are modelled separately.
- Vectors that the C++ codecs append to or read through a moving offset are sequences passed in and out.
- The body of `handle_wasm_task_request` (the WASM handlers are a parameter of `Dispatch.HandleRequest`), and the `is_module_active`, `get_module_state` and `get_active_tasks` getters.
- The WSM1 task kind's own computation and its error texts.
- Simulated latency, and the clock: elapsed time is a parameter.
- CUDA, cuBLAS, the Ethos-U driver, `adi_server.cpp`, `gpu_runtime_server.cpp` and `enable_peer_access`: kernels are arbitrary functions that may fail; peer probes are a parameter of `Topology.Detect`.
- IEEE arithmetic inside kernels and host byte order.
- Error texts other than the timeout text, and the name functions.
- Exceptions that are not `std::exception` thrown by compute functions.
- GpuService.HomesBalanced: holds while fewer than 2^31 - 1 client ids have been given out and the 64-bit round-robin counter has not wrapped; runs of the model end there.
- GpuService.IdsDistinct: holds while fewer than 2^31 - 1 client ids have been given out; the C++ increment is undefined beyond.
- Hotswap.StepInv: assumes fewer than 2^32 tasks in flight per key; `HotswapLimits` says what happens beyond.
- Session.OutputIsFrames: the unique split is stated for a frame limit below 2^32, the range of the length prefix.
- HotswapRuns.GpusInRange: assumes the GPUs given to prepares are in range; a caller's own target is passed through unchecked by the code.
- GpuBroker.BrokerService.RunOnGpu: describes a call that no other request disturbs; interleaved calls are covered by the transition system of `GpuService`, section by section.
