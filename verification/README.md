# A Dafny model of the hub's protocols, files and caches

The hub is a voice assistant backend: it speaks the Wyoming protocol, supervises the engines that run as child processes, keeps the prompt cache of the language model on disk, and keeps a vector index of a Jellyfin library. This project models the parts that keep state, move bytes or run a protocol, and proves what they promise over all inputs and all runs.

`dafny verify dfyconfig.toml` checks everything.

## How it is organised

| Part | Files | Main results |
|---|---|---|
| GGUF check | `Gguf`, `GgufTruncation`, `GgufEncoding`, `GgufDecoding` | No prefix declares another size; the parser reads exactly the encodings of headers with nested values; for which headers the check tells complete from cut files, exactly |
| Audio | `Audio`, `Wav` | Value ranges of the conversion; the RIFF chunk walk and its inverse |
| Wyoming | `Json`, `JsonRoundTrip`, `JsonObjects`, `Wyoming`, `WyomingRoundTrip`, `WyomingClients`, `Speech`, `Synthesis`, `SpeechStream` | Event streams round-trip, down to JSON bytes; exactly which events of other clients are read, and what they mean; chunk borders change nothing; when a listener hears what a speaker writes |
| Engines | `Engine`, `Specs`, `Watchdog`, `Supervision`, `SupervisorLoop`, `Restarts` | How each run ends, exactly, from the answers of its probes; ban, download-once, bounded switching and hang detection over whole runs |
| Prompt cache | `Directory`, `SlotFiles`, `SlotMove`, `SlotSave`, `SlotOverlap`, `SlotKeeper`, `Hub` | Saves that survive a crash at any file operation, also in a row, and which of them may overlap; when a turn restores or saves, exactly; restore discipline for each value of the counter and for each program, also composed with the supervisor step by step |
| Media index | `Rows`, `Ranking`, `MediaIndex`, `IndexFiles`, `MediaGate` | The index is a map; top-k equals a full sort; crash-safe files; the gate depends only on scores |
| Media sync | `Sync`, `LiveUpdate`, `TornIndex`, `SyncCrash`, `TornExample`, `SyncHistory`, `MediaSync`, `MediaRun` | Convergence in every turn in which nothing fails, which failures stop a sync, which crashes the next sync repairs, and invariants over every history of syncs and updates |

Code that changes state step by step is a class or a method with loops, proved against a function or a predicate; the properties are then lemmas about these. Files are byte sequences, a folder is a map from names to contents with a ghost record of every state it went through, so a crash is any recorded state. Choices of the environment (clocks, health probes, engine answers, failures, library content) are parameters or free choices.

## Assumptions

- Arithmetic is that of the release build: unsigned 64-bit and 32-bit operations wrap around where the source has no saturating operation. In `Gguf` this matters: see `GgufEncoding.ChecksCompleteness`.
- The embedder is a function from texts to vectors of `dims` values, `dims` is positive, one listing has one document for an id, the library server gives listed items in order, in pages of at most 1000 (any other number of items, any total and any failure is possible), it answers a request for ids with all of its documents that have them, the library does not change while one listing is fetched, and texts in play have different hashes (`NoCollision`). The exact conditions for torn indexes (`TornIndexIsRepaired`, `TornStageIsRepaired`, `CrashIsRepaired`) also assume that different texts have different vectors. Agreement is about hash and vector: the series id of an entry is not part of the embedded text, so a change of it alone is not noticed.
- Scores are numbers of a total order, so NaN does not occur. Mean and margin are exact.
- Host facts are constant in a run. `EngineHistory` and `AtMostTwoSwitches` also need that a model file, once found, stays and keeps its architecture (`FileStays`).
- Probe times do not decrease. A limit of 0 failed probes acts as 1.

## Findings

Properties that the code does not have on all inputs, each with an input and the exact condition.

- `expected_min_size` computes in 64 bits (src/gguf.rs:173, 178, 185). The check tells complete from cut files for a header if and only if its exact size is reached by a tensor whose count fits 64 bits, or no file is that large and the tensor that ends last in the arithmetic of the reader still ends beyond every file (`GgufEncoding.ChecksCompleteness`; `EndLosses` says which step loses the end of a tensor). It accepts cut files if a size in bytes wraps around (`WrapAroundAcceptsShortFile`), if the last sum wraps around (`FarOffsetAcceptsShortFile`), and if an element count saturates (`SaturatedCountAcceptsShortFile`).
- A present but empty payload of a Wyoming event is written like no payload, so it is read as none (`WyomingRoundTrip.EmptyPayloadIsLost`). `WyomingRoundTrip.StreamRoundTrip` gives the exact condition for a round trip.
- Synthesized speech with many channels is sent in chunks that the reader of this program does not accept: it would read them back if and only if no chunk is above its own limit of 16 MiB (`SpeechStream.SpeechArrives`, `WideSpeechIsRefused`). The protocol itself sets no limit.
- A move of a slot file is exact for every listing order if and only if no sidecar takes the name of another one (`SlotMove.MoveExactIffChainFree`; `SlotMove.ChainOfTwo` has such a chain). The sidecars of both engines meet this.
- A move takes sidecars along that an interrupted save left under the temporary name (`SlotSave.LeftoverJoins`), unless the engine wrote them again (`SlotSave.LeftoversJoinTheNextSave`). An engine that always writes the same sidecars is safe (`SlotSave.SavesNeverMix`), if its saves do not overlap.
- The save at shutdown (src/main.rs:471-473) does not wait for a periodic save that still runs, and both use the same temporary name. Overlapping saves never mix two generations if and only if the engine writes no sidecars (`SlotOverlap.OverlapCondition`). Otherwise the main file of one save can lie beside a sidecar of the other, and in the end that sidecar can be missing (`SlotOverlap.OverlapMixes`).
- "Restores once after each start" holds for each value of the counter (`Hub.CounterDiscipline`) and not for each program: a turn reads the counter, waits for two answers, and then calls whatever program lives. If a restart comes in between, the restore that is meant for the old program goes to the new one, which is restored again in the next turn (`Hub.RestoredTwice`), or the new one is saved before its own restore (`Hub.SavedBeforeItsRestore`). A call goes to the program that its turn means if and only if a program lives and the counter, read again at the call, is the same (`Hub.CallOfStart`). So a program is restored at most twice, once by a turn of its own and once by an overtaken one (`Hub.RestoredAtMostTwice`), and a restore follows another restore, a save or a busy answer of the same program only if that earlier turn was overtaken (`Hub.RestoreDiscipline`).
- A turn reads the file name last. If the supervisor ends the child and plans another engine before that, a restore that is meant for one start names the file of the other engine (`Hub.OvertakenRestore`). It names its own start's file if and only if the engine that was chosen last is the one of that start (`Hub.FileOfStart`). A program that gets a call always gets its own file (`Hub.LivingEngineGetsItsFile`).
- A torn index (old entries over new vectors) with as many entries is loaded. The next full sync repairs it if and only if each entry that it keeps has its hash in place (`SyncCrash.CrashIsRepaired`, for any library at that time); `TornExample.TornIndexStays` is a sync that leaves one that is never repaired. If the library does not change before the next sync completes, a sync that removes nothing is always repaired, also after crash on crash (`SyncCrash.CrashKeepsTrust`). If it does change, this is false: `TornExample.UndoneEditStays` is an edit that is undone after the crash.
- Live changes whose update fails are lost. Index and library agree afterwards if and only if the changes cover the difference and every document was stored before the failure (`SyncHistory.UpdateConverges`, `RefusedUpdateConverges`); `SyncHistory.FailedUpdateLosesItem` is a new item that stays missing. A later full sync finds it (`CompleteSyncConverges`).
- A page that is empty, or that names no total or a too small one, ends a listing, also before its last item (src/jellyfin.rs:341, src/media/mod.rs:348), and the full sync then removes what was not listed. It reaches the library if and only if nothing was missing (`Sync.ShortListing`); an empty first page empties the index (`Sync.EmptyListing`).

## Model

| member | source | states |
|---|---|---|
| Gguf.Reader.Read | src/gguf.rs:65-71 | Reading n bytes returns them and moves the cursor by n, or fails with the caller's error, as `ReadAt` says for any cursor, also one behind the end |
| Gguf.Reader.Skip | src/gguf.rs:78-82 | A skip is a seek: it may pass the end of the file and fails only beyond the range of a signed 64-bit offset |
| Gguf.Reader.String | src/gguf.rs:83-93 | A length-prefixed string up to 1 MiB; a longer one is an error before anything is read |
| Gguf.Reader.SkipValue | src/gguf.rs:94-116 | The cursor ends behind one value of the type, for scalars, strings and nested arrays; wrong types and counts are errors; terminates although the file decides the nesting |
| Gguf.SkipManyAt | src/gguf.rs:103-112 | Every element of an array of non-scalars takes at least 8 further bytes of the file, which bounds recursion and loop |
| Gguf.Reader.Pairs | src/gguf.rs:154-166 | Reading all metadata pairs gives the alignment of the last scalar `general.alignment` (at least 1), or 32, and ends behind the last pair |
| Gguf.Reader.Tensors | src/gguf.rs:167-180 | Reading all tensor records gives the largest end over known types with saturated element counts and wrapping sizes |
| Gguf.Reader.Entry | src/gguf.rs:131-138 | One pair of the metadata search: a matching key of string type ends it, every other pair is skipped exactly |
| Gguf.ExpectedMinSize | src/gguf.rs:144-186 | The declared size of the file as `LayoutOf` and wrapping addition give it, or the first error in reading order |
| Gguf.MetadataString | src/gguf.rs:121-140 | The string value of a key as the search specification gives it, or the first error |
| Gguf.Check | src/gguf.rs:190-212 | A file is accepted exactly if it is readable, its declared size is known and it has at least that many bytes |
| Gguf.AlignUpIsNextMultiple | src/gguf.rs:181-184 | The data start is the least multiple of the alignment that is not below the end of the header |
| GgufTruncation.SameSkipValue | src/gguf.rs:94-116 | Skipping a value in a prefix gives the same position as in the whole file, if it succeeds in the prefix or ends inside it |
| GgufTruncation.SameLayout | src/gguf.rs:144-184 | A prefix has the layout of the whole file whenever its own layout can be read or the data start lies in the prefix |
| GgufTruncation.TruncationTheorem | src/gguf.rs:144-212 | For every file with a declared size n, every prefix gives an error or n; every prefix shorter than n is rejected; the file itself is accepted exactly if it has n bytes |
| GgufTruncation.AcceptedPrefix | src/gguf.rs:190-212 | If the last sum fits 64 bits, a prefix is accepted exactly if it reaches the data start plus the largest tensor end as the reader computed it |
| GgufTruncation.ExactIffSumFits | src/gguf.rs:185-212 | Over all prefixes of a file the check follows the computed tensor ends if and only if the last sum fits 64 bits |
| GgufEncoding.SkipsExactly | src/gguf.rs:94-116 | For every well-formed value with arbitrarily nested arrays, a skip consumes exactly its encoding |
| GgufEncoding.AlignmentFromFront | src/gguf.rs:157-163 | Folding the pairs from the front, as the reader does, gives the last alignment setting |
| GgufEncoding.FindsFirstString | src/gguf.rs:121-140 | The search over encoded pairs returns the first string value of the key, whatever pairs of other keys or types come before |
| GgufEncoding.LayoutOfHeader | src/gguf.rs:144-184 | Of every file that begins with an encoded header, the reader finds the aligned header length and the largest tensor end |
| GgufEncoding.MetadataOfHeader | src/gguf.rs:121-140 | Of every such file, the search returns the value of the first matching string key, or none |
| GgufEncoding.MaxEndIsExact | src/gguf.rs:168-180 | Below 2^64 the largest computed tensor end is never above the exact one, and equal exactly if a tensor whose count fits 64 bits reaches it |
| GgufEncoding.DeclaredSizeIsExact | src/gguf.rs:144-186 | Of every file that begins with an encoded header, the declared size is the exact mathematical one if and only if that fits 64 bits and is reached by a tensor whose element count fits 64 bits; below 2^64 it is never too large |
| GgufEncoding.ChecksCompleteness | src/gguf.rs:144-212 | For every header: the check accepts exactly the complete ones among all files that begin with it, if and only if its exact size is reached by a tensor with a 64-bit count, or no file can be complete and the computed tensor ends still say so |
| GgufEncoding.EndLosses | src/gguf.rs:171-179 | The computed end of a tensor of known type is the exact one if and only if neither its element count, nor its size, nor the sum with its offset leaves 64 bits |
| GgufEncoding.WrapAroundAcceptsShortFile | src/gguf.rs:178 | A concrete header whose product wraps: it declares more than 2^64 bytes and is accepted with 64 |
| GgufEncoding.FarOffsetAcceptsShortFile | src/gguf.rs:185 | A concrete header whose last sum wraps: it declares more than 2^64 bytes and is accepted with 63, before its data section |
| GgufEncoding.SaturatedCountAcceptsShortFile | src/gguf.rs:171-174 | A concrete header whose element count saturates: a file that lacks its last block is accepted |
| GgufDecoding.HeaderIsEncoded | src/gguf.rs:144-184 | Whatever header the parser reads within a file, it is the encoding of a well-formed one |
| GgufDecoding.ReadsOnlyHeaders | src/gguf.rs:144-184 | The parser reads a header whose data section begins in the file if and only if the file begins with the encoding of one |
| Audio.SampleFits | src/audio.rs:20-28 | A decoded sample of any width fits 16 bits, and wide samples keep their two highest bytes |
| Audio.FrameFits | src/audio.rs:33-43 | For any 16-bit channel count, every partial channel sum fits 32 bits and the average fits 16 |
| Audio.ClampIsIdentity | src/audio.rs:44-60 | At equal rates the result is the mono signal itself, otherwise exactly the interpolated values: the clamp changes nothing |
| Audio.InterpolatedBetween | src/audio.rs:48-60 | A resampled value lies between the smallest and the largest input sample |
| Audio.BetweenNeighbours | src/audio.rs:48-60 | A resampled value lies between the two input samples around its position |
| Audio.RampStaysRamp | src/audio.rs:48-60 | A signal that rises evenly is resampled to the same slope, rounded once, at every position |
| Audio.DecodesWideSample | src/audio.rs:20-28 | Whatever 16-bit sample is written into the two highest bytes of a sample of 16 to 32 bits, it is decoded |
| Audio.MonoIsMean | src/audio.rs:30-43 | 16-bit frames of any channel count become the means of their channels, rounded toward zero |
| Audio.SameFormatIsACopy | src/audio.rs:30-60 | 16 kHz 16-bit mono is copied |
| Wav.ParseWav | src/audio.rs:86-118 | The chunk loop ends on every input, stays in bounds and gives what the walk says, with its three errors |
| Wav.ParsesRiffFile | src/audio.rs:86-118 | Of every RIFF/WAVE file of odd- or even-sized padded chunks with a data chunk behind them, the last fmt chunk and exactly the data bytes are returned (to the end of the file for size 0 or 0xFFFFFFFF); an error without a fmt chunk |
| Wav.ReadsFmtFields | src/audio.rs:94-104 | A written fmt chunk of any tag, rate, channel count and sample width gives its format back |
| Wav.OnlyRiffFiles | src/audio.rs:86-89 | A file is refused as no WAV if and only if the RIFF or WAVE mark is missing |
| Wav.EndsTooEarly | src/audio.rs:90-118 | Chunks without a data chunk, and a cut fmt chunk behind any chunks, are refused with their errors |
| Wav.WavBytes | src/audio.rs:63-82 | The written header and samples are the RIFF file of one fmt and one data chunk |
| Wav.WavRoundTrip | src/audio.rs:62-118 | Parsing a written file gives format and samples back, for every sample count (also above 4 GiB) |
| JsonRoundTrip.EncodingHasNoNewline | src/wyoming/protocol.rs:98-121 | A written JSON value has no raw newline, whatever strings it holds: a header is one line |
| JsonRoundTrip.ReadsValue | src/wyoming/protocol.rs:58-96 | The JSON reader consumes exactly one written value of any nesting up to the depth limit and returns it |
| JsonRoundTrip.DecodesEncoding | src/wyoming/protocol.rs:70-86 | A whole line with or without its newline decodes to the written value |
| JsonRoundTrip.ReadsWriting | src/wyoming/protocol.rs:58-96 | The same for every spacing, any order of the fields and repeated fields: the reader returns the normal form |
| JsonRoundTrip.DecodesWriting | src/wyoming/protocol.rs:70-86 | A whole text in any such writing, with any white space around it, decodes to the normal form |
| JsonRoundTrip.DeepTextIsRefused | src/wyoming/protocol.rs:70-86 | A text that opens 128 arrays or objects is refused |
| JsonObjects.InsertAllIsMerge | src/wyoming/protocol.rs:75-86 | Inserting fields into a sorted object is the merge of two maps in which the new fields win, and keeps it sorted |
| JsonObjects.SortedIsUnique | src/wyoming/protocol.rs:75-86 | A sorted object is determined by its map |
| Wyoming.EventReader.ReadLine | src/wyoming/protocol.rs:59-66 | One line up to the limit: to the newline, the limit or the end of the stream |
| Wyoming.EventReader.ReadEvent | src/wyoming/protocol.rs:58-96 | One event, the end of the stream, or an error; what is consumed is given exactly; what the event means is `WyomingClients.ReadsAnyEvent` |
| Wyoming.EventReader.ReadBody | src/wyoming/protocol.rs:74-96 | Data and payload of the announced lengths; the fields of the header line and those of the block are merged, the block wins (`WyomingClients.ReadsAnyEvent`) |
| Wyoming.EventWriter.WriteEvent | src/wyoming/protocol.rs:98-121 | Writing appends the encoding of the event and changes nothing before it |
| WyomingRoundTrip.EventRoundTrip | src/wyoming/protocol.rs:44-121 | In any stream, a written event within the size limits is read back and consumed exactly, an empty payload as none; an event beyond a limit is an error |
| WyomingRoundTrip.EmptyPayloadIsLost | src/wyoming/protocol.rs:87-94 | Any event whose payload is present but empty is read back without one |
| WyomingRoundTrip.StreamRoundTrip | src/wyoming/protocol.rs:44-121 | Reading the written forms of a list of events gives the list and then the end of the stream, if and only if each event is within the limits and has no empty payload |
| WyomingClients.ReadsAnyEvent | src/wyoming/protocol.rs:58-96 | For a header line in any spacing and field order: it is read if and only if it is short enough, names its kind, and the announced lengths are natural numbers within the limits for which the stream has the bytes, the block being JSON; then kind and payload are those, and the data are, as a map, the inline fields overridden by those of the block |
| WyomingClients.InlineRoundTrip | src/wyoming/protocol.rs:70-96 | Any event whose data stand in the header line, in any spacing, is read back with all of its data, whatever follows |
| WyomingClients.PythonRoundTrip | src/wyoming/protocol.rs:139-150 | In particular as a Python client writes it, with a space after each comma and colon |
| Speech.Convert | src/wyoming/mod.rs:167-170 | The PCM of all segments in order |
| Speech.Session.Serve | src/wyoming/mod.rs:134-195 | The loop over incoming events keeps format, open segments and heard utterances as the step function says |
| Speech.ChunkBordersDoNotMatter | src/wyoming/mod.rs:157-165 | Chunk sequences with the same bytes in the same formats leave the connection in the same state |
| Speech.NoSeams | src/wyoming/mod.rs:134-195 | In any session, replacing audio chunks by others of the same content changes no utterance that is heard, then or later |
| Synthesis.Speak | src/wyoming/mod.rs:214-233 | A WAV answer is sent as start, chunks and stop behind what was sent before; another answer is an error and nothing is sent |
| Synthesis.PiecesPartition | src/wyoming/mod.rs:226-232 | The chunks hold all bytes in order; none is empty and only the last can be short |
| Synthesis.ListenerHearsUtterance | src/wyoming/mod.rs:139-235 | A listener of the same protocol that receives these events hears the whole utterance exactly once, whatever it received before |
| Synthesis.HearsSamples | src/wyoming/mod.rs:139-235 | Samples of 16 kHz, 16 bits and one channel are heard as they are, however they were cut into chunks |
| Synthesis.HearsParts | src/wyoming/mod.rs:157-170 | Audio in several formats, however it is cut into chunks, is heard part by part |
| Synthesis.PcmOfParts | src/wyoming/mod.rs:167-170 | What is heard of several parts is what is heard of each, in order, converted to 16 kHz |
| SpeechStream.SpeechArrives | src/wyoming/mod.rs:222-233 | The bytes that the speaker writes are read back as its events if and only if no chunk is above the payload limit; the header lines always fit |
| SpeechStream.ListenerHearsBytes | src/wyoming/mod.rs:139-235 | A listener that reads these bytes hears the whole utterance exactly once, whatever it received before |
| SpeechStream.WideSpeechIsRefused | src/wyoming/mod.rs:226-227 | 65535 channels: an utterance of more than 16 MiB does not arrive |
| Engine.DecisionConditions | src/llm/engine.rs:109-165 | ik_llama.cpp is chosen if and only if the hardware allows it, it is not banned and it runs the model found; a download comes first if and only if ik is possible, not banned, no model is there and none was downloaded |
| Engine.IkConditions | src/llm/engine.rs:62-165 | ik_llama.cpp can run and runs a model if and only if no GPU is chosen, the program is there, the processor has AVX2 and FMA, a model is there, and it is preferred or chosen for the architecture of its family |
| Engine.RunKinds | src/llm/engine.rs:178-190 | A run of ik is good if and only if it was healthy and lasted two minutes; every other one that was not replaced is a failure |
| Engine.Chooser.Note | src/llm/engine.rs:178-204 | Only runs of ik count; a good run clears the count, a failed one adds to it, the second failure bans for good |
| Engine.CountCondition | src/llm/engine.rs:186-204 | The count is positive exactly if a failed ik run has had no good ik run after it |
| Engine.BanCondition | src/llm/engine.rs:172-204 | Over every history of runs: banned if and only if two failed ik runs had no good ik run between them |
| Engine.ActiveEngine.Set | src/llm/engine.rs:38-57 | What is set is what a reader gets, although it is kept as a number |
| Specs.LlmSpecs.Plan | src/llm/specs.rs:102-141 | The next spec and the new state as the planning function says |
| Specs.PlanAgrees | src/llm/specs.rs:105-141 | Program, decision and active engine agree; ik needs a model file; the spec is restarted when healthy exactly if the download comes first |
| Specs.PlanConditions | src/llm/specs.rs:105-141 | Both conditions of a decision in terms of the state after the last outcome was noted; a ban is never lifted |
| Watchdog.WatchChild | src/supervisor.rs:123-190 | The loop over probe answers ends in the verdict of the step function |
| Watchdog.HangCondition | src/supervisor.rs:123-190 | Without replacement, a hang is declared at probe n if and only if the last `failures` probes all failed and counted (after the first success, or after the start grace) and this held at no earlier probe |
| Watchdog.ReplaceCondition | src/supervisor.rs:159-170 | A child is replaced if and only if its spec asks for it and some probe was answered with no hang due before it |
| Watchdog.VerdictCondition | src/supervisor.rs:123-190 | With and without replacement: the verdict is Replace, Hang or none, and the child was seen healthy, exactly as the timed answers alone say |
| Supervision.RunIsSound | src/supervisor.rs:198-293 | All invariants of supervisor and specs hold after every event of every run |
| Supervision.LivingChild | src/supervisor.rs:198-240 | Whenever a child lives, the active engine names its program; the counter is the number of started programs; ik was chosen only for a model it runs |
| Supervision.ReplacedAtMostOnce | src/supervisor.rs:159-170 | Over any run at most one run is recorded as replaced |
| Restarts.OutcomeOfRun | src/supervisor.rs:250-285 | A child ends as exited if it exits, as replaced if its spec asks for it and a probe is answered before a hang is due, as hung if a hang is due, and otherwise it goes on; the recorded outcome says so, from the answers alone |
| Restarts.NoSecondReplacement | src/supervisor.rs:250-285 | After a child was stopped because it answered, none is planned or started that would be stopped so: downloads do not restart without end |
| Restarts.DownloadCondition | src/llm/specs.rs:105-130 | A plan downloads first if and only if ik is possible, not banned, no model is there, and no child was stopped because it answered in the run so far |
| Supervision.FailureHistory | src/llm/engine.rs:172-204 | Over any run: ik is banned exactly if two failed runs had no good one between them, and failed ik runs never exceed the good ones by more than 2 |
| Supervision.EngineHistory | src/llm/specs.rs:105-141 | Over any run the chosen engines are llama.cpp\*, ik\*, llama.cpp\* |
| Supervision.AtMostTwoSwitches | src/llm/specs.rs:105-141 | Over any run there are at most two switches of the engine |
| SupervisorLoop.LifeIs | src/supervisor.rs:198-293 | One turn of the restart loop is a run of model events: it plans with the last outcome, counts only successful starts, and classifies the end |
| SupervisorLoop.Loop.RunChild | src/supervisor.rs:198-293 | A turn of the loop keeps code state and event model in step |
| SupervisorLoop.Loop.Supervise | src/supervisor.rs:198-293 | The whole loop over any lives keeps the bounds on replacements and failures |
| SlotFiles.Sidecars | src/llm/slots.rs:50-63 | Lists exactly the files whose name continues the file name with a dot, in any order |
| SlotFiles.MoveWithSidecars | src/llm/slots.rs:67-81 | The folder passes exactly the states: stale sidecars removed one by one, main file renamed, sidecars renamed one by one; without a main file it stops after the removals |
| SlotFiles.RemoveWithSidecars | src/llm/slots.rs:83-88 | The group is gone afterwards, every state in between only lacks files of the group, and nothing else changes |
| SlotMove.MoveIsCrashSafe | src/llm/slots.rs:65-81 | After every single file operation, for every listing order, the target holds the complete old or the complete new main file with sidecars of the same generation only, no file outside the group differs, and the final group is exactly the new one |
| SlotMove.MoveExactIffChainFree | src/llm/slots.rs:76-79 | The final group is exact for every listing order if and only if no sidecar takes the name of another |
| SlotMove.ChainOfTwo | src/llm/slots.rs:76-79 | A concrete folder with such a chain, for which some listing order loses a file |
| SlotMove.PlainSidecarsMakeNoChain | src/llm/slots.rs:47-49 | Sidecars whose suffix does not begin with `.tmp`, as those of both engines, meet this condition |
| SlotMove.EngineFilesAreDisjoint | src/config.rs:247-262 | No file belongs to the groups of both engines, and the temporary group of an engine is part of its own |
| SlotSave.SaveGeneration | src/llm/slots.rs:197-215 | A save that stops anywhere keeps the old generation or brings the new one; a complete one leaves exactly what the engine wrote, whatever earlier saves left behind |
| SlotSave.RemovalGeneration | src/llm/slots.rs:83-88 | A removal after a refused restore that stops anywhere leaves the old generation or no main file; a complete one leaves nothing of the group |
| SlotSave.SavesNeverMix | src/llm/slots.rs:67-88 | Over every run of saves and removals, each cut at any point, the saved main file and its sidecars come from one and the same save |
| SlotSave.LeftoversJoinTheNextSave | src/llm/slots.rs:76-79 | A complete move is exact if and only if every temporary sidecar left from before was written again |
| SlotSave.LeftoverJoins | src/llm/slots.rs:76-79 | A concrete folder: an interrupted save leaves a sidecar, the next one writes none, and ends with the old sidecar beside its main file |
| SlotOverlap.OverlapCondition | src/llm/slots.rs:197-215 | However many saves overlap, step by step and cut anywhere, the saved group is always of one save, if and only if the engine writes no sidecars |
| SlotOverlap.OverlapMixes | src/main.rs:471-473 | For every engine with sidecars, two saves that overlap: the second one writes between the two renames of the first, which leaves the first main file beside the second sidecar, and after the second move that sidecar is missing |
| SlotKeeper.Pick | src/llm/slots.rs:169-185 | The slot to save is the first one of the latest task among the large ones; none exactly if any request runs or no slot is large |
| SlotKeeper.PickSlot | src/llm/slots.rs:169-185 | The loop with its early return gives this slot |
| SlotKeeper.Run | src/llm/slots.rs:273-312 | The polling loop does at every turn what the step function says, for any environment; what that is, from the answers alone, say `RestoreCondition` and `SaveCondition` |
| SlotKeeper.PickIsLatest | src/llm/slots.rs:146-185 | No slot is picked exactly if one runs a request or none is large; otherwise it is the first of those large ones with the latest task, where running and large are said in terms of the fields of both engines |
| SlotKeeper.RestoreCondition | src/llm/slots.rs:283-298 | A turn restores if and only if it is the first one with a new counter that finds the engine healthy and its slots listed, and no slot runs a request; if one does, this start is left alone |
| SlotKeeper.SaveCondition | src/llm/slots.rs:299-311 | A turn saves a slot if and only if its counter is settled and positive, 300 seconds have passed since the last settling or attempt, the slots are listed, none runs a request, the slot is the latest large one and has an id, and its task differs from that of the last successful save of this start |
| SlotKeeper.SettledOnce | src/llm/slots.rs:283-298 | Every start is settled once: no second restore, and none after it was first seen busy |
| SlotKeeper.RestoreOnlyIfIdle | src/llm/slots.rs:284-294 | A restore comes only after a healthy and not busy answer, for a start that has happened |
| SlotKeeper.SaveAfterRestore | src/llm/slots.rs:299-311 | A periodic save comes only after its start was settled, and no restore of that start follows it |
| SlotKeeper.RestoreCount | src/llm/slots.rs:273-312 | Number of restores <= settled start <= start counter, at every turn |
| SlotKeeper.RestoreFile | src/llm/slots.rs:217-255 | A refused restore removes the whole group; a lost connection, a success or a missing file changes nothing |
| Hub.SupervisorRuns | src/supervisor.rs:198-293 | Interleaved with the cache loop, the supervisor runs as alone |
| Hub.RunIsLinked | src/llm/slots.rs:273-312 | In every interleaving of single steps, the loop's state is that of its finished turns, counters grow within and across turns, and each deed uses the file of the engine chosen last, which is the one of the program that gets the call, and is meant for a start that has happened |
| Hub.RestoresNeverExceedStarts | src/supervisor.rs:218-220 | In every interleaving: restores <= settled start <= counter = number of started programs |
| Hub.RestoreDiscipline | src/llm/slots.rs:273-312 | If a program is restored although an earlier turn restored it, saved it or left it busy, then a restart had overtaken that earlier turn, and the later turn is the program's own |
| Hub.CounterDiscipline | src/llm/slots.rs:273-312 | In every interleaving, after a restore, a busy answer or a save for a value of the counter no restore for that value follows |
| Hub.RestoredAtMostTwice | src/llm/slots.rs:1-16 | A program is restored as often as one of its own turns restores it, plus as often as an overtaken turn does, and each of the two at most once |
| Hub.CallOfStart | src/llm/slots.rs:283-294 | A restore or save goes to the program that its counter means if and only if a program lives and the counter, read again at the call, is unchanged; then both answers came from that program and the file is its own; otherwise a later program gets it |
| Hub.RestoredTwice | src/llm/slots.rs:283-297 | A concrete run: a restart after the look at the counter, and the second program is restored twice |
| Hub.SavedBeforeItsRestore | src/llm/slots.rs:283-311 | A concrete run: a restart after the look of a saving turn, and the second program is saved before it is restored |
| Hub.LivingEngineGetsItsFile | src/llm/slots.rs:133-139 | In every interleaving, the program that gets a call gets the file of its own engine |
| Hub.FileOfStart | src/llm/slots.rs:197-218 | The file of a restore or save is that of the program which its counter means exactly if the last plan before chose the same engine as the plan of that program; in particular if no plan came in between |
| Hub.OvertakenRestore | src/llm/slots.rs:283-290 | A concrete run in which a plan overtakes a turn: the restore for the first start uses the other engine's file, while no engine lives |
| Rows.UpsertIsMapUpdate | src/media/index.rs:115-131 | On the map from ids to rows, an upsert is an update |
| Rows.WithoutIsSubtraction | src/media/index.rs:134-154 | On this map, a removal is a subtraction |
| Rows.WithoutKeepsOrder | src/media/index.rs:134-154 | The survivors of a removal are exactly the rows with other ids, in their order |
| Rows.RemovedCount | src/media/index.rs:134-154 | The number of removed rows is the number of ids that were there |
| MediaIndex.Index.constructor | src/media/index.rs:87-92 | A new index is valid and empty |
| MediaIndex.Index.UpsertRow | src/media/index.rs:115-131 | Replaces in place or appends, in entry list, flat buffer and table alike; a vector of wrong length is an error and changes nothing |
| MediaIndex.Index.Remove | src/media/index.rs:134-154 | Exactly the rows with the ids go, in all three structures, and the count of ids that were there is returned |
| MediaIndex.Index.Get | src/media/index.rs:106-108 | The table finds the entry of the abstract map, or none |
| MediaIndex.Index.Rank | src/media/index.rs:158-182 | A ranking of the rows that pass the filter; nothing for a query of wrong length or a limit of 0 |
| MediaIndex.RankingPromises | src/media/index.rs:158-182 | Every ranking has min(limit, kept) hits at distinct positions that pass the filter, best first, and no kept row left out scores higher than a hit |
| MediaIndex.RankingScores | src/media/index.rs:158-182 | The scores of every ranking are the first scores of a full sort, although the selection is unstable |
| Ranking.Top | src/media/index.rs:169-174 | Partial selection, cut and sort give a top part of the input |
| Ranking.TopScoresAreSortedScores | src/media/index.rs:169-174 | All top parts have the same score sequence |
| IndexFiles.Save | src/media/index.rs:184-202 | The folder passes exactly the states of two writes and two renames, up to the first one that fails; it reports success exactly if none does |
| IndexFiles.Load | src/media/index.rs:205-230 | The index of the two files, if fingerprint, dimensions and length fit; otherwise none |
| IndexFiles.SaveIsCrashSafe | src/media/index.rs:184-230 | After every step of a save, also inside a write, a load gives the old index, the new one, nothing, or old entries over new vectors of the same count; a complete save loads as saved, bit for bit |
| IndexFiles.DifferentCountsAreRejected | src/media/index.rs:212-216 | Old entries over new vectors of another count are rejected |
| IndexFiles.OtherModelIsRejected | src/media/index.rs:205-212 | An index that was saved for another model or another dimension is not loaded |
| Sync.SyncConverges | src/media/mod.rs:355-393 | From any index whose vectors match their hashes, a full sync ends with exactly the ids of the library, each with its document's hash and embedding |
| Sync.SecondSyncIsIdle | src/media/mod.rs:365-375 | A second sync removes nothing and embeds nothing |
| Sync.InterruptedSyncLeavesTheRest | src/media/mod.rs:428-458 | A sync that failed after k documents leaves exactly the others, in order, for the next one |
| Sync.SyncKeepsTrust | src/media/mod.rs:355-458 | Every stage of a sync keeps vectors that match their hashes |
| Sync.ShortListing | src/media/mod.rs:342-352 | After a listing that ended too early, a full sync agrees with what was listed, and with the library if and only if nothing was missing |
| Sync.EmptyListing | src/media/mod.rs:342-375 | An empty first page empties the index |
| LiveUpdate.AppliedEffect | src/media/mod.rs:396-426 | After an update, returned documents have their hash and embedding, removed ids are gone unless returned, all others are untouched |
| LiveUpdate.LiveUpdateConverges | src/media/mod.rs:396-426 | An update makes index and library agree if and only if the changes name every id on which they differ |
| TornIndex.TornIndexIsRepaired | src/media/mod.rs:355-393 | A torn index is repaired by the next full sync if and only if each entry the sync would keep stands in its place |
| TornIndex.TornStageIsRepaired | src/media/mod.rs:355-393 | The same for the vectors of any earlier state, also in the middle of a sync: repaired if and only if each entry the sync keeps has its hash in place |
| TornIndex.SameOrderIsRepaired | src/media/mod.rs:355-393 | The same ids in the same order are repaired, also if the later save was taken in the middle of a sync |
| TornIndex.SyncIsFaithful | src/media/mod.rs:428-458 | A sync against any library, complete or cut, keeps each vector the embedding of the text that its hash stands for |
| SyncCrash.SavingIsGood | src/media/mod.rs:445-451 | Every disk state of a save of stage k loads as nothing, the state before the job, or the vectors of a stage up to k under entries that are not younger |
| SyncCrash.FullSyncStagesAreTrusted | src/media/mod.rs:355-393 | Every stage of a full sync that can be on disk can be trusted |
| SyncCrash.LiveStagesAreTrusted | src/media/mod.rs:396-426 | Every stage of a live update that can be on disk can be trusted |
| SyncCrash.FullSyncIsSound | src/media/mod.rs:355-393 | The stages of a full sync hold embeddings of texts in play under distinct ids, as `CrashIsRepaired` needs, whatever the library has become since |
| SyncCrash.LiveUpdateIsSound | src/media/mod.rs:396-426 | So do the stages of a live update |
| SyncCrash.RecoveredSyncConverges | src/media/mod.rs:291-304 | A load of any stage of a sync or update, or of the state before, leads to the library with the next full sync |
| SyncCrash.SoundIsTrusted | src/media/mod.rs:291-304 | The stages of a sync or update can be trusted against every later library, as `RecoveredSyncConverges` needs |
| SyncCrash.CrashIsRepaired | src/media/mod.rs:291-304 | After a crash at any moment of a sync or update, the next full sync brings whatever a load finds to the library as it is then, also if documents of the job changed or went away, if and only if each entry that it keeps has its hash in place in the stage of its vectors |
| SyncCrash.TwoStagesAreRepaired | src/media/mod.rs:291-304 | A torn pair of two stages of one job is repaired if the library still has the documents of the job |
| SyncCrash.CrashKeepsTrust | src/media/mod.rs:291-304 | While the library stays as it is, a full sync that removes nothing can crash at any moment, again and again: every load can be trusted again and is repaired |
| TornExample.TornIndexStays | src/media/index.rs:199-200 | A concrete sync from {x, b} to {b, y} that crashes between the renames: the loaded index keeps a wrong vector for b, also after the next full sync |
| TornExample.EditIsFullSync | src/media/mod.rs:355-393 | The job of the next row is the full sync of an index that agreed with the library before an edit, and it removes nothing |
| TornExample.UndoneEditStays | src/media/index.rs:199-200 | A concrete sync of one edit that crashes between the renames: the next sync repairs the index if the edit is still there, and never if it was undone |
| MediaSync.FetchAll | src/media/mod.rs:342-352 | The result is the concatenation of the pages that were asked for, each from where the one before ended, up to the first one that is empty or names a total that is reached; it fails exactly if the next request does; a server that works well gives the whole listing |
| MediaSync.WholeListing | src/media/mod.rs:342-352 | If no request fails, every total is right and no page is empty before the end, then the pages are the whole listing when they end |
| MediaSync.OneListing | src/media/mod.rs:342-352 | Whether a listing ends or fails, and with which pages, is decided by the answers of the server |
| MediaSync.Service.FullSync | src/media/mod.rs:355-393 | It stops with the old index exactly if a request of the listing fails; otherwise it sends exactly the first part of the documents whose hash differed from the listing, stores a prefix of it, keeps every disk state good, and succeeds if and only if all batches and saves do that it needs; a failure stops at the first one that does not; if it succeeds, the disk holds a changed index, and an index that could be trusted agrees with the listing, which is the library if the server works well |
| MediaSync.Service.EmbedAndStore | src/media/mod.rs:428-458 | Batches of 16 and a save after every 512 documents and at the end: it fails exactly at the first batch or save that does not work, and then the index holds all documents up to it; after a failed batch the disk holds the last multiple of 512 |
| MediaSync.Service.FetchIds | src/media/mod.rs:403-411 | The answers to all requests of up to 100 ids are the documents of the changed ids; it fails exactly if a request does |
| MediaSync.Service.Apply | src/media/mod.rs:396-426 | It leaves the index alone exactly if a request fails; otherwise the index is the update applied up to the stored documents, every disk state is good, and it succeeds if and only if all batches and saves do that it needs; if it succeeds, the disk holds a changed index, and index and library agree if and only if the changes covered their difference |
| SyncHistory.HistoryIsFaithful | src/media/mod.rs:281-340 | Over every history of full syncs and updates, complete or cut, against a library that changes all the time, ids stay distinct and vectors match their hashes |
| SyncHistory.CompleteSyncConverges | src/media/mod.rs:355-393 | Whatever happened before, a complete full sync makes the index agree with its listing |
| SyncHistory.UpdateConverges | src/media/mod.rs:396-426 | A live update that stored only a part makes index and library agree if and only if the changes cover the difference and all documents to embed are in that part |
| SyncHistory.FailedUpdateConverges | src/media/mod.rs:396-426 | For distinct documents: if and only if the changes cover the difference and the update stored them all |
| SyncHistory.StaleAfterUpdate | src/media/mod.rs:428-458 | After such an update exactly the documents that were neither stored nor current before stay out of date |
| SyncHistory.RefusedUpdateConverges | src/media/mod.rs:403-411 | An update whose request fails leaves index and library in agreement if and only if no change was needed |
| SyncHistory.FailedUpdateLosesItem | src/media/mod.rs:331-336 | For any new item: the changes name it, the update fails in its first batch, and it is missing |
| MediaRun.NothingIsLost | src/media/mod.rs:319-337 | Every received change waits or was taken for exactly one update, in order, and no update is empty |
| MediaRun.ReconnectForcesSync | src/media/mod.rs:301-327 | The start and every reconnect are followed by a full sync before anything else |
| MediaRun.NeverStale | src/media/mod.rs:303-313 | No turn begins six hours or more after the last sync attempt without a new one |
| MediaRun.SyncCondition | src/media/mod.rs:301-327 | After a sync attempt, the next turn that makes one is the first that follows a reconnect or begins six hours after the attempt |
| MediaRun.QuietTakesAll | src/media/mod.rs:329-337 | A quiet turn leaves nothing waiting: all that was received until then has been taken |
| MediaRun.EventLoop.TakePending | src/media/mod.rs:331-336 | The waiting changes are taken once and are gone, whether the update is refused, fails in the middle or succeeds |
| MediaRun.EventLoop.Run | src/media/mod.rs:300-340 | Each turn makes a full sync exactly if it is due and a live update exactly if it takes a batch; a full sync is refused exactly if a request of its listing fails, an update exactly if one of its requests does, and either succeeds exactly if its batches and saves do; the index is the result of these in the order of the turns |
| MediaRun.RunConverges | src/media/mod.rs:300-340 | In every turn of every run, a full sync that reports success makes the index agree with what the library listed, whatever was cut or lost before |
| MediaRun.CalmTurnAgrees | src/media/mod.rs:300-313 | In every due turn of every run in which nothing fails, the index agrees with the whole listing afterwards, whatever was cut or lost before |
| MediaRun.CalmUpdateAgrees | src/media/mod.rs:329-337 | In every turn that takes a batch and in which nothing fails, index and library agree afterwards if and only if the waiting changes cover their difference |
| MediaRun.RunUpdateConverges | src/media/mod.rs:329-337 | In every turn of every run, a live update that reports success makes index and library agree if and only if the waiting changes cover their difference |
| MediaRun.RunIsFaithful | src/media/mod.rs:300-340 | In every turn of every run, ids are distinct and each vector is the embedding of the text that its hash stands for |
| MediaGate.Gate | src/media/mod.rs:594-628 | The loop that stops at 25 works gives the verdict on all hits grouped by work and cut at 25 |
| MediaGate.GroupedIsFirstHits | src/media/mod.rs:594-607 | The grouping is the list of those hits that are the first of their work, in order |
| MediaGate.BestHitIsReported | src/media/mod.rs:608-628 | For hits best first, the reported work is that of the best hit, no hit scores higher, and the margin is not negative if there are more than 5 works |
| MediaGate.JudgedScores | src/media/mod.rs:484-491 | In a query, the judged scores are the best 25 of the rows that take part: nothing is grouped away |
| MediaGate.VerdictDependsOnScores | src/media/mod.rs:484-491 | Score, margin and verdict depend only on the multiset of scores: not on the order of the index, not on ties, not on any limit of at least 25 |
| MediaGate.VerdictMeans | src/media/mod.rs:608-628 | The verdict in numbers: the first work with its score, the margin over the mean of the works behind the fifth, both limits for acceptance, and the series name before the name of an episode |
| MediaGate.EpisodesCountForSeries | src/media/mod.rs:594-607 | Any number of episodes of one indexed series count as one work, the series, with the score of the first |

## Left out

- HTTP, WebSocket, process and signal handling (`src/server.rs`, `src/llm/proxy.rs`, `src/probe.rs`, `src/mcp.rs`, the network code of `src/jellyfin.rs` and `src/youtube.rs`): only their results appear, as choices of the environment.
- Foreign calls (`src/stt.rs`, `src/media/embed.rs`, `src/search.rs`): the embedder is a function, transcription and synthesis are their inputs and outputs.
- Text cleanup, title matching, command lines and most of the configuration (`src/tts.rs`, `src/text.rs`, `src/llm/llamacpp.rs`, `src/llm/ik.rs`, `src/config.rs` except the slot file names): string processing without state.
- Building documents from library items and their hash (`src/media/docs.rs`, `fnv1a`): documents are given, the hash is any function.
- Floating-point rounding: resampling uses exact fractions, mean and margin are exact numbers; the vectors keep their exact bits.
- Gguf: files longer than 2^63 - 1 bytes, seek limits of a file system below that, and the depth of the machine stack for deeply nested arrays. Lossy UTF-8 decoding of keys and strings is not modelled: they are bytes.
- Json: numbers are integers of 64 bits, strings are bytes, `\u` escapes are read below 0x80 only; fractions, exponents and the UTF-8 check of the JSON library are not part of this model.
- Wyoming: writing never fails, and a failure of the connection while reading is the end of the stream.
- Speech.Session: transcription, description and the answers of `serve` are not modelled, only the audio state and what reaches the recogniser.
- Supervision: stop signals, output capture and restart delays. A cancel ends a run at any event.
- SlotFiles.MoveWithSidecars: removals succeed (the source ignores their failure), and a rename fails only if its source is missing.
- SlotKeeper.Run: the last save at shutdown is not a turn of the loop; what it can do to a periodic save is `SlotOverlap`. Cancelling ends the list of turns.
- Hub.CallOfStart: reading the file name and the call to the engine right after it are one step.
- SlotSave.SavesNeverMix: needs that saves do not overlap, that an engine reports success only after it wrote all its sidecars, and always the same ones; what happens otherwise is `SlotOverlap.OverlapCondition` and `LeftoversJoinTheNextSave`.
- SlotOverlap.OverlapCondition: what an engine writes for one save appears in one step, so a main file that is moved while the engine still writes it is not part of this model.
- IndexFiles: the JSON form of the entry list is kept as a value, not as text. What a crash leaves inside a write is any value.
- Ranking.SelectNth: the selection of the standard library is known by its contract only (its order inside both parts is open); the body that meets it here sorts.
- MediaIndex.Index.constructor: an index of given content (as a load makes it) is valid only for distinct ids; a file with a repeated id is loaded by the source, and the model then promises no validity.
- SyncCrash.CrashKeepsTrust: is about a library that stays as it is and about starts that find an index. If the counts differ, the start finds none and begins empty; a second crash is then judged by `CrashIsRepaired`, which needs that what was on disk before held embeddings of texts in play.
- MediaRun.EventLoop.Run: the timer may fire at any time, not only after its delay. The status display, the download of the model and the loading of the saved index are not part of the loop.
