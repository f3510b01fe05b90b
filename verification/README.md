# Verified model of the sign extension and its deployment tools

The sign extension holds one private key inside a TEE. An UPDATE instruction delivers an
encrypted key, a SIGN instruction returns a message with its signature, and a state request
tells whether a key is held. Around it stand an on-chain contract that sends the
instructions, tools that register the TEE machine, and tools that validate a deployment.
This project models the parts of that system where several functions, several runs or
several concurrent requests have to fit together, and proves what they keep.

| files | what they model |
|---|---|
| RegistrationProtocol, RegistrationSafety, RegistrationRuns, RegistrationCalls, RegistrationTool | the crash-resumable registration of a machine: a step function over the state file, the chain and the process, the invariants and results over all histories of runs, and RegisterNode itself as a program that updates its record in place |
| ByteStrings, AbiCodec, Scalars | big-endian words, the ABI encoder of the extension and the decoder of the end-to-end test, private keys in three languages, signature layout |
| KeyService | the sequential UPDATE/SIGN/STATE object, the Go and TypeScript handlers, and when the two servers cannot be told apart |
| GoServer | the Go server as interleaved goroutines with a readers-writer lock |
| PromiseQueue | the TypeScript server as a chain of promises |
| HexStrings, Dispatch | hex texts, 32-byte names, handler registration and lookup |
| ExtensionDiscovery | the contract's search for its extension id and the registry checks R2 and R7 |
| ExtensionEnv | the two parsers of extension.env, the checks on it, and the file pre-build writes |
| DeployReport | the in-place filter, the grouped printout and the counts of the deployment report |

## Assumptions

- Registration: one operator, and no one else changes the machine between runs; the state
  file is written whole or not at all; instruction ids are never zero and never reused; the
  availability proof fetched for an instruction id is about the machine that was asked for.
  Register records the machine with status INITIALIZED and toProduction sets PRODUCTION
  whenever they land. Every outside call either does not happen, or happens, or happens and
  still looks like an error; a kill can come between any two calls. The same command letters
  are used on every run: `ChangedCommandIsStale` shows why.
- The node's decrypt answer comes with each request. ECDSA signing is one function from key
  and message to a signature with r and s below the curve order and recovery id 0 or 1, the
  same in both languages. viem's encoding of (bytes,bytes) is the standard's. The TypeScript
  and Python curve libraries refuse exactly the scalars outside 1..N-1; the Go library
  reduces 32 bytes modulo N.
- go-ethereum's hexutil decodes the fixed data in Go: a hash is 0x or 0X and exactly 64 hex
  digits, bytes are 0x or 0X and an even number of hex digits, and an empty or absent text is
  no bytes. The fields that only Go reads (ids, timestamps, cosigners) decode.
- Node's `Buffer.from(h, "hex")` stops at the first pair that is not hex. It does not throw,
  so the "invalid hex" branches of server.ts and handlers.ts are never taken.
- Go slices are shorter than 2^63; big.Int's Uint64 and Int64 keep the low 64 bits.

Where documents and code differ the code is followed: DEPLOYMENT_STEPS.md line 477 shows
status 1 as PRODUCTION, and registration.go uses 2.

## Results that are conditions

- Re-encoding a decoded message gives the message back exactly when it is canonical.
- The decoder panics, instead of returning an error, exactly when an offset is at least
  2^63 - 32 or an offset plus a length reaches 2^63.
- Go and TypeScript take the same key from decrypted bytes exactly when they are too long or
  their value is at most the curve order.
- Go and TypeScript give the same outcome for a request exactly when Go can decode it and
  either nothing is routed, or the operation is written as 64 lower-case digits after 0x and
  either the message has bytes and the key is as above, or it has none and TypeScript fails
  too. What Go cannot decode it answers with 400, which TypeScript never does once it has the
  fields. The text "0x" is empty for Go and not empty for TypeScript; the empty text is empty
  for both.
- The promise queue answers all it holds exactly when no handler has rejected; the handlers of
  this extension catch every failure of their calls and return it as a result.
- A name survives the 32-byte conversion exactly when it does not end in NUL.
- With R2 passing, R7 passes exactly when setExtensionId stores the configured id and the
  contract has no other id, reserved ids included.
- A registration run fails exactly when its file did not load, a call other than a read or a
  save failed, or the promoted machine is not on chain.
- The four summary counts add up exactly when every status is a named one.

## Model

| member | source | states |
|---|---|---|
| RegistrationTool.Tool.RegisterNode | go/tools/pkg/fccutils/registration.go:60-173 | for every sequence of outside answers, and wherever the process is killed, the program leaves the file, the chain and the ending of the protocol run that hears those answers |
| RegistrationTool.Tool.ToProduction | go/tools/pkg/fccutils/registration.go:360-406 | the promotion follows the protocol: nothing is sent when the status read says PRODUCTION, and it succeeds only if the machine is found afterwards |
| RegistrationTool.Tool.RegisterPart | go/tools/pkg/fccutils/registration.go:75-107 | the r part skips from the file or asks the chain, and leaves the record and the id of the protocol |
| RegistrationTool.Tool.AttestPart | go/tools/pkg/fccutils/registration.go:109-125 | the R part, with the id reloaded or fresh |
| RegistrationTool.Tool.AvailabilityPart | go/tools/pkg/fccutils/registration.go:127-156 | the a part behind its policy gate, or the id of the command line |
| RegistrationTool.Tool.loadState | go/tools/pkg/fccutils/registration.go:34-47 | a missing file is an empty record, an unreadable or unparsable one an error |
| RegistrationTool.Tool.saveState | go/tools/pkg/fccutils/registration.go:49-58 | the file becomes the record if the write landed and is untouched otherwise |
| RegistrationTool.Tool.PreRegistration | go/tools/pkg/fccutils/registration.go:175-243 | the transaction is on the chain if it landed, also when the call returns an error |
| RegistrationTool.Tool.RequestTeeAttestation | go/tools/pkg/fccutils/registration.go:245-274 | the same for a fresh attestation, which never records the machine |
| RegistrationTool.Tool.RequestFTDCAvailabilityCheck | go/tools/pkg/fccutils/registration.go:276-306 | the availability check on the chain carries the attestation id it was given |
| RegistrationTool.RunContinuesHistory | go/tools/cmd/register-tee/main.go:25-30 | a run of the program, fresh or resumed, is the continuation of whatever history left its file and chain |
| RegistrationTool.Tool.RegisterTee | go/tools/cmd/register-tee/main.go:25-73 | main drops the file unless asked to resume, and then leaves the file, the chain and the ending of the protocol run |
| RegistrationSafety.AlwaysSound | go/tools/pkg/fccutils/registration.go:60-173 | one invariant of file, memory, log and status holds after every history of runs |
| RegistrationRuns.StateFileInvariant | go/tools/pkg/fccutils/registration.go:76-156 | in every reachable file the completed steps are a repeat-free prefix of the plan, never p; with r or R it holds the attestation that was the last one issued when it was saved, and is still the last one if no attestation step is left; an availability id is there exactly with a and is the last one issued |
| RegistrationRuns.FileHoldsLastRecordedAttestation | go/tools/pkg/fccutils/registration.go:100-123 | after every history the recorded attestation id is that of the step recorded last, as the log stood at that save |
| RegistrationRuns.AvailabilityChecksAreFresh | go/tools/pkg/fccutils/registration.go:75-146 | over all runs every availability check carries the attestation issued last, and every promotion the availability check issued last, reloaded or not |
| RegistrationRuns.ChangedCommandIsStale | go/tools/pkg/fccutils/registration.go:76-79 | with different letters on the second run a check can carry a stale attestation |
| RegistrationRuns.CrashResumeRefinement | go/tools/pkg/fccutils/registration.go:60-173 | when removals land, any history whose last run returned nil ends with the machine recorded, status PRODUCTION and no state file, which a single uninterrupted run from the start also reaches, and every such run that returns nil |
| RegistrationRuns.SuccessLeavesNoFile | go/tools/pkg/fccutils/registration.go:170-172 | when removals land, no file is left behind a run that returned nil, whatever idle events follow it |
| RegistrationRuns.NextRunSucceeds | go/tools/pkg/fccutils/registration.go:66-173 | wherever earlier runs stopped, a next run without failing calls, resumed or fresh, reaches that state within 13 calls |
| RegistrationRuns.RegistersAtMostOnce | go/tools/pkg/fccutils/registration.go:81-99 | with reliable GetTeeMachine reads Register lands once over all runs if the machine was new, and never if it was not |
| RegistrationRuns.SettledMachineIsLeftAlone | go/tools/pkg/fccutils/registration.go:360-380 | after success later runs send no Register and no ToProduction while the status reads work |
| RegistrationRuns.ExecutionsAreAccountedFor | go/tools/pkg/fccutils/registration.go:100-151 | every execution of a step was interrupted before its save, or its record was retired with the file, or it is still on record |
| RegistrationRuns.AtMostOncePlusInterruptions | go/tools/pkg/fccutils/registration.go:110-152 | until the file is retired a step executes at most once plus the times it was interrupted |
| RegistrationRuns.SavesMakeProgress | go/tools/pkg/fccutils/registration.go:77-105 | resumed runs never lose a saved step and each save that lands strictly reduces what is left |
| RegistrationRuns.LetterOrderIsIrrelevant | go/tools/pkg/fccutils/registration.go:76-158 | the flow depends on the set of command letters only |
| RegistrationCalls.RunFailsExactlyWhen | go/tools/pkg/fccutils/registration.go:60-173 | after every history the last run has ended with an error exactly when its file did not load, a call other than a read or a save was not answered Done, or the promoted machine is not on chain |
| RegistrationCalls.RefusedGatesStopTheRun | go/tools/pkg/fccutils/registration.go:139-166 | a run whose policy gate is refused ends with an error and has sent no availability check and no promotion; one without a proof has sent no promotion; one whose machine is not confirmed ends with an error |
| RegistrationCalls.TransactionsPassTheirGates | go/tools/pkg/fccutils/registration.go:139-168 | every availability check in the log was sent by a run whose policy gate had been granted since its start, every promotion by a run that had fetched its proof |
| RegistrationCalls.CallsAreCleared | go/tools/pkg/fccutils/registration.go:84-168 | no call is made before the one it depends on was granted in the same run |
| RegistrationCalls.SuccessDidEveryStep | go/tools/pkg/fccutils/registration.go:60-173 | a run that returned nil found each step of its command in the file or made it, and with p fetched the proof and confirmed the machine, or read status 2 |
| RegistrationCalls.RunAddsWhatTookEffect | go/tools/pkg/fccutils/registration.go:60-173 | a run adds to the log one Register, one availability check and one promotion for each of these sends that took effect, and nothing else of these kinds |
| RegistrationCalls.ChainIsItsLog | go/tools/pkg/fccutils/registration.go:355-406 | the status is 1 after a registration and 2 after a promotion, whichever the log has last, and a machine is on chain exactly if it was or some registration took effect |
| RegistrationCalls.WithoutCheckGivenIdIsUsed | go/tools/pkg/fccutils/registration.go:154-156 | without the letter a every promotion carries the instruction id of the command line |
| ByteStrings.PadLeftBuffer | go/internal/extension/utils.go:142-149 | the buffer is the input with leading zeros, or its last bytes |
| ByteStrings.OneFormPerLength | typescript/src/app/crypto.ts:14-32 | a number has one big-endian form of each length |
| ByteStrings.WordIsUnique | typescript/src/app/crypto.ts:14-32 | a 32-byte string is the word of its value |
| AbiCodec.abiEncodeTwo | go/internal/extension/utils.go:154-173 | the appended buffer is the head/tail encoding of the tuple (bytes,bytes) in the Contract ABI Specification, of length 128 plus both lengths rounded up |
| AbiCodec.padToMultipleOf32 | go/internal/extension/utils.go:175-188 | the data, then zeros up to the least multiple of 32 that holds it: nothing for full words and nothing for no bytes |
| AbiCodec.RoundUpInClosedForm | go/internal/extension/utils.go:175-188 | rounding up is 32 * ((n + 31) / 32) |
| AbiCodec.EncodeTwoMeetsTheStandard | go/internal/extension/utils.go:142-188 | the written-out form equals the generic recursive encoder, and its length is 128 plus the two padded lengths |
| AbiCodec.EncodingByPosition | go/internal/extension/utils.go:154-173 | the numbers in the four words, the places of the two byte strings and the zeros behind them, with both lengths rounded up |
| AbiCodec.EncIsWordAligned | go/internal/extension/utils.go:151-173 | every value of the standard's encoder is a whole number of words |
| AbiCodec.PartsAreWhereTheirHeadsSay | go/internal/extension/utils.go:154-173 | in the encoding of any tuple a static part stands in its head, and the head of a dynamic part holds the position of its encoding |
| AbiCodec.DecodeBounds | go/tools/cmd/run-test/main.go:182-210 | exactly when the decoder panics, errs and returns, on every slice, and which contiguous slices it returns |
| AbiCodec.HugeOffsetPanics | go/tools/cmd/run-test/main.go:189-199 | 64 bytes whose first word is 2^63 make the decoder panic |
| AbiCodec.ReadOutcome | go/tools/cmd/run-test/main.go:189-199 | the outcome of one read without wrap-around, for every 64-bit offset |
| AbiCodec.RoundTrip | go/tools/cmd/run-test/main.go:182-210 | decoding an encoding returns both parts, for all pairs whose encoding is a Go slice |
| AbiCodec.EncoderIsInjective | go/internal/extension/utils.go:154-173 | different pairs have different encodings |
| AbiCodec.CanonicalForm | go/tools/cmd/run-test/main.go:182-210 | re-encoding what was decoded gives the input exactly for canonical offsets, zero padding and exact length |
| Scalars.bigintToBytes | typescript/src/app/crypto.ts:24-32 | the shortest big-endian form of the number, and one zero byte for zero |
| Scalars.scalarToBytes | typescript/src/app/crypto.ts:46-47 | the only 32-byte form of a 256-bit number |
| Scalars.parsePrivateKey | typescript/src/app/crypto.ts:64-95 | accepts 1 to 32 bytes of value 1..N-1 and returns their 32-byte form; each refusal has its reason |
| Scalars.PythonAgreesWithTypeScript | python/app/crypto.py:36-60 | the Python parser gives the same result on every byte string |
| Scalars.GoAgreesBelowOrder | go/internal/extension/utils.go:109-121 | Go takes the same number or refuses too, exactly when the value is at most the order or the bytes are too many |
| Scalars.KeyAboveOrder | go/internal/extension/utils.go:109-121 | the 32 bytes of N+1 are the key 1 for Go and refused by the others |
| Scalars.goSignatureBytes | go/internal/extension/utils.go:125-134 | SignCompact's pieces rearranged to r, s, v |
| Scalars.tsSignatureBytes | typescript/src/app/crypto.ts:39-58 | the TypeScript layout is the same 65 bytes |
| Scalars.SignatureCarries | go/internal/extension/utils.go:125-134 | the 65 bytes hold r, s and a v of 27 or 28 |
| Scalars.normalizeV | go/tools/cmd/run-test/main.go:169-179 | byte by byte: a v of at least 27 in a 65-byte signature is reduced by 27, everything else is unchanged |
| Scalars.SignatureReachesTheClient | go/tools/cmd/run-test/main.go:142-152 | the end-to-end test recovers the message and r, s and recovery id as the library made them |
| Dispatch.stringToBytes32Hex | typescript/src/base/types.ts:68-72 | the hex text of the name padded to 32 bytes |
| Dispatch.bytes32HexToString | typescript/src/base/types.ts:75-82 | the bytes without their trailing zeros |
| Dispatch.NameRoundTrip | typescript/src/base/types.ts:68-82 | names of at most 32 bytes come back exactly when they do not end in NUL |
| Dispatch.Framework.lookup | typescript/src/base/types.ts:112-121 | the handler of the first matching entry, the empty command matching all |
| Dispatch.Framework.handle | typescript/src/base/types.ts:103-109 | registrations are kept in order, with both names converted |
| Dispatch.LookupIsLeastMatch | typescript/src/base/types.ts:112-121 | the entry found has the least matching index, and none is found only if none matches |
| Dispatch.DispatchByHexIsByName | typescript/src/base/types.ts:96-122 | dispatch on hex keys is dispatch on the names that were registered |
| HexStrings.BytesRoundTrip | typescript/src/base/encoding.ts:4-14 | hex text decodes to the bytes it was made from |
| HexStrings.WellFormedLength | typescript/src/base/encoding.ts:4-9 | no digit of a well-formed text is dropped |
| HexStrings.FromHexStops | typescript/src/base/encoding.ts:4-9 | decoding stops at the first pair that is not hex and keeps what came before |
| HexStrings.WrittenExactlyWhen | typescript/src/base/encoding.ts:12-14 | the texts bytesToHex writes are exactly 0x and an even number of lower-case digits |
| KeyService.Extension.processKeyUpdate | go/internal/extension/extension.go:109-129 | the sequential UPDATE: a failure leaves the key, a success replaces it |
| KeyService.Extension.processKeySign | go/internal/extension/extension.go:133-156 | the sequential SIGN: signed exactly for a message under a stored key, and the data decodes to the message and then its signature |
| KeyService.Extension.stateHandler | go/internal/extension/extension.go:49-57 | whether a key is held |
| KeyService.Extension.processAction | go/internal/extension/extension.go:66-105 | HTTP 400 when the action or its fixed data does not decode (operation fields of exactly 32 bytes in prefixed hex, a message in prefixed hex or absent), else 501 or 200 by type and command, with the sequential result |
| KeyService.Handlers.handleKeyUpdate | typescript/src/app/handlers.ts:43-74 | the sequential UPDATE on 32-byte keys, empty meaning the empty text |
| KeyService.Handlers.handleKeySign | typescript/src/app/handlers.ts:76-110 | the same for the TypeScript handler under the stored key |
| KeyService.processAction | typescript/src/base/server.ts:118-184 | decode errors, unknown operations and results with nothing else queued |
| KeyService.register | typescript/src/app/handlers.ts:25-28 | the two handlers in their order |
| KeyService.GoUpdateMeans | go/internal/extension/extension.go:109-129 | UPDATE over HTTP in Go: status 1 exactly when a message and 1 to 32 decrypted bytes of a value that is not zero modulo N arrive, and then the key is that value modulo N; otherwise status 0 and the key as before |
| KeyService.GoSignMeans | go/internal/extension/extension.go:133-156 | SIGN over HTTP in Go: status 1 exactly for a message under a stored key, with data that the client decodes to the message and 65 bytes holding r, s and v; otherwise status 0 without data |
| KeyService.DeliveredIsRecovered | go/tools/cmd/run-test/main.go:142-179 | from such data the end-to-end test recovers the message, r, s and the recovery id |
| KeyService.GoRefuses | go/internal/extension/extension.go:66-105 | 400 for what does not decode, 501 for what is neither KEY UPDATE nor KEY SIGN, and the key as before |
| KeyService.HashExactlyWhen | go/internal/extension/extension.go:66-73 | Go decodes as an operation field exactly the prefixed hex texts of 32 bytes |
| KeyService.TsUpdateMeans | typescript/src/app/handlers.ts:43-74 | UPDATE over HTTP in TypeScript: the same, with values from N on refused |
| KeyService.TsSignMeans | typescript/src/app/handlers.ts:76-110 | SIGN over HTTP in TypeScript: the same on the decoded text |
| KeyService.TsRefuses | typescript/src/base/server.ts:118-145 | 400 without an action, 501 for any other pair of operation texts |
| KeyService.TsRoutesCanonicalOps | typescript/src/base/types.ts:112-121 | TypeScript routes exactly what Go routes, if it is written as 64 lower-case digits after 0x |
| KeyService.CanonicalExactlyWhen | typescript/src/base/encoding.ts:12-14 | canonical text is 0x and 64 lower-case digits |
| KeyService.ImplementationsAgreeExactlyWhen | typescript/src/app/handlers.ts:43-110 | the exact condition under which one request has the same outcome in both servers, on every instruction whose message does not begin with 0X |
| KeyService.EmptyMessageTellsThemApart | typescript/src/app/handlers.ts:83-91 | a SIGN of 0x is signed by TypeScript and refused by Go |
| KeyService.KeyAboveOrderTellsThemApart | go/internal/extension/utils.go:109-121 | an UPDATE to any key above N has a different outcome in Go and in TypeScript |
| KeyService.ShortFieldsTellThemApart | go/internal/extension/extension.go:66-70 | operation fields shorter than 32 bytes are answered 400 by Go and 501 by TypeScript |
| KeyService.ServersAreBisimilar | go/internal/extension/extension.go:66-156 | on ordinary calls both servers give the same status, result status and data and hold the same key throughout |
| KeyService.DeployedServersAreBisimilar | go/internal/config/config.go:13-16 | the names KEY, UPDATE and SIGN meet what that needs, so it holds of the servers as started |
| GoServer.EveryInterleavingIsLinearizable | go/internal/extension/extension.go:49-156 | every interleaving has a legal sequential order of the requests that respects real time and ends in the same key |
| GoServer.WritersExcludeEveryone | go/internal/extension/extension.go:124-136 | no request is in a critical section while another writes the key |
| GoServer.SignaturesUseTheLastKey | go/internal/extension/extension.go:133-155 | a signature is made with the key of the last successful update ordered before its read |
| GoServer.SignaturesUseTheDecryptedKey | go/internal/extension/extension.go:109-155 | in terms of the wire: the data a client gets holds its message and the signature under the number last decrypted, modulo N, before the read |
| GoServer.HasKeyIsMonotone | go/internal/extension/extension.go:49-57 | hasKey never goes back to false for a later request |
| GoServer.SomeoneCanMove | go/internal/extension/extension.go:109-156 | no deadlock while a request is unanswered |
| GoServer.MovesMakeProgress | go/internal/extension/extension.go:109-156 | each request answers within five of its own steps and no step touches another request |
| GoServer.EveryoneCanBeAnswered | go/internal/extension/extension.go:109-156 | from every reachable state the requests already there can all be answered by steps of their own |
| PromiseQueue.Server.enqueue | typescript/src/base/server.ts:150-157 | the request chains on the old end of the queue and becomes the new end |
| PromiseQueue.Server.runCallback | typescript/src/base/server.ts:152-154 | the handler runs to its first await, a state report runs to its end |
| PromiseQueue.Server.settle | typescript/src/base/server.ts:153-159 | the request is resolved with the result of its own handler |
| PromiseQueue.QueueRefinesFold | typescript/src/base/server.ts:150-194 | for every arrival order and decrypt timing the answers and the key are those of the sequential fold over a prefix of the requests as enqueued, and no one else is answered |
| PromiseQueue.QueueRefinesHandle | typescript/src/base/server.ts:150-194 | on ordinary requests the answers given and the key are those of the same sequential object the Go server is linearized to |
| PromiseQueue.ReportsReflectTheirPrefix | typescript/src/base/server.ts:186-194 | a state report reflects exactly the requests enqueued before it |
| PromiseQueue.OneHandlerInFlight | typescript/src/base/server.ts:26-27 | at most one handler is in flight, and it is the oldest unserved request |
| PromiseQueue.AnswersAreFinal | typescript/src/base/server.ts:150-159 | an answer never changes |
| PromiseQueue.AnswersEveryoneUnlessBroken | typescript/src/base/server.ts:150-157 | everything queued can be answered exactly when no handler has rejected |
| PromiseQueue.FrontMoves | typescript/src/base/server.ts:150-157 | the front of an unbroken queue can always move, and each move reduces what remains |
| PromiseQueue.BrokenExactlyByRejection | typescript/src/base/server.ts:150-157 | the queue is unbroken exactly when no handler has rejected in its history |
| PromiseQueue.OneRejectionSilencesTheRest | typescript/src/base/server.ts:150-157 | after one rejected handler a report queued behind it is never answered |
| ExtensionDiscovery.InstructionSender.setExtensionId | contracts/InstructionSender.sol:54-65 | unset, it succeeds exactly when some public id has this contract as sender, and stores the least; otherwise it reverts unchanged |
| ExtensionDiscovery.InstructionSender.updateKey | contracts/InstructionSender.sol:67-87 | sends UPDATE with its own payload to the machines named for the stored id, and reverts if there is no id or if either registry call reverts |
| ExtensionDiscovery.InstructionSender.sign | contracts/InstructionSender.sol:89-108 | the same for SIGN |
| ExtensionDiscovery.SearchSucceedsExactlyWhen | contracts/InstructionSender.sol:54-65 | the same of the transaction, by quantifiers over the registry, the newest id included |
| ExtensionDiscovery.IdIsSetOnce | contracts/InstructionSender.sol:54-55 | once set the id never changes, whatever the registry does |
| ExtensionDiscovery.IdIsALeastMatch | contracts/InstructionSender.sol:57-63 | a stored id was the least match when it was stored, and is public |
| ExtensionDiscovery.InstructionsTargetTheFoundId | contracts/InstructionSender.sol:67-115 | an instruction is sent exactly if the id is set and both registry calls go through; then a search found that id before, and all instructions go to it |
| ExtensionDiscovery.checkUniqueSender | go/tools/pkg/validate/checks.go:470-500 | the ids R7 lists are exactly the matching readable ones in ascending order, and it warns when there are two |
| ExtensionDiscovery.SearchFindsConfiguredIdWhen | go/tools/pkg/validate/checks.go:371-403 | with R2 alone, setExtensionId stores the configured id exactly when no lower public id matches |
| ExtensionDiscovery.UniqueSenderCheckMeansSearchFindsId | go/tools/pkg/validate/checks.go:470-500 | with R2, R7 passes exactly when setExtensionId stores the configured id and there is no other id |
| ExtensionEnv.parseAll | go/tools/pkg/validate/checks.go:168-180 | the map holds the last assignment of every variable and nothing else |
| ExtensionEnv.parseExtensionEnv | go/tools/pkg/validate/checks.go:248-275 | the last assignment of each of the two variables, empty if there is none |
| ExtensionEnv.TrimSpaceTrims | go/tools/pkg/validate/checks.go:172-178 | trimming removes surrounding space and leaves none at the ends |
| ExtensionEnv.ReturnIsDropped | go/tools/pkg/validate/checks.go:168-171 | a carriage return before a line break does not belong to the line |
| ExtensionEnv.LastLine | go/tools/pkg/validate/checks.go:168-171 | a last line without a line break is read too |
| ExtensionEnv.AssignmentExactly | go/tools/pkg/validate/checks.go:171-180 | a line assigns exactly if it reads key = value, space aside, is no comment, and is split at its first equals sign |
| ExtensionEnv.LastAssignmentWins | go/tools/pkg/validate/checks.go:168-275 | the value of a variable is what the last line that assigns it says |
| ExtensionEnv.UnassignedHasNone | go/tools/pkg/validate/checks.go:168-275 | a variable that no line assigns has no value |
| ExtensionEnv.ParsersAgree | go/tools/pkg/validate/checks.go:168-275 | both parsers read the same value on every file |
| ExtensionEnv.VerdictsAgree | go/tools/pkg/validate/checks.go:185-243 | D7, S2 and V4 agree on the extension id, and D7 and E1 on the instruction sender; they pass exactly for 0x and 64, or 40, hex digits |
| ExtensionEnv.WrittenFileParses | scripts/pre-build.sh:159-163 | the written file parses to both values without surrounding space |
| ExtensionEnv.WrittenValuesComeBack | scripts/pre-build.sh:159-163 | a well-formed id and address come back unchanged |
| DeployReport.filterInPlace | go/tools/cmd/verify-deploy/main.go:80-94 | filtering into the array being read leaves exactly the results with an allowed id, from increasing places and as often as they were there, and the tail untouched |
| DeployReport.printed | go/tools/pkg/validate/report.go:123-160 | the nested loops print one group for each step |
| DeployReport.GroupingIsStable | go/tools/pkg/validate/report.go:136-158 | each step's results are printed once each and in their order |
| DeployReport.StepsByFirstAppearance | go/tools/pkg/validate/report.go:126-134 | groups come in the order of their first result |
| DeployReport.PrintoutIsComplete | go/tools/pkg/validate/report.go:123-160 | the printout is a permutation of the report |
| DeployReport.summary | go/tools/pkg/validate/report.go:68-84 | each counter is the number of places whose result has that status |
| DeployReport.CountsAddUp | go/tools/pkg/validate/report.go:68-84 | the counts add up to the number of results exactly when every status is a named one |
| DeployReport.hasFailures | go/tools/pkg/validate/report.go:58-65 | the exit code is 1 exactly when some result has status FAIL |
| DeployReport.FailuresAreCounted | go/tools/pkg/validate/report.go:58-84 | that is, exactly when the failed counter is positive |

## Left out

- Other parties acting on the machine between runs: pausing, banning or attesting it from elsewhere is not modelled.
- The policy gate's arithmetic: it is one outside answer, Refused on a confirmed mismatch and Done otherwise.
- Messages and logs: error texts are reduced to their kind, and log lines are not modelled.
- HTTP, JSON, sleeps and polling: they appear only as calls that succeed or fail.
- ECDSA, keccak, ECIES and the contract bindings: library code, used through the assumptions above.
- Names longer than 32 bytes: the languages cut a multi-byte character differently, so the round trip keeps the 32-byte precondition.
- Scheduling fairness of the readers-writer lock: no deadlock and bounded own steps are proved, not that a waiting writer gets its turn.
- Gas and the value sent along: the contract model has no gas limit, no payment, and the machines are whatever the registry answers.
- bufio.Scanner's line-length limit: both parsers read the same lines, and the lines pre-build writes are far below it.
- The comma-separated filter of verify-deploy: the set of allowed ids is given.
- The Python server: one lock around each whole handler is the simple case of the queue.
- KeyService.ImplementationsAgreeExactlyWhen: messages with the prefix 0X are not covered, because Go reads their bytes and TypeScript reads none, so the two send different decrypt calls whose answers are not related.
