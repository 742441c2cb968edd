# Flowgent, modelled and proved in Dafny

These modules model the parts of Flowgent where a small mistake would be hard to see, and prove what each
is for: the seccomp filter compiler of the script sandbox, the lease locks, the controller's garbage
collector, topic routing and shared dispatch, and four smaller cores. `dafny verify dfyconfig.toml` checks
everything.

## How the pieces fit

**Sandbox filter** (`Bpf`, `PolicyCompiler`, `FilterWire`, `NotifierDecision`). `Bpf` is a classic BPF machine
with explicit widths. Its central law is relocation: a fragment placed anywhere returns its own verdict or
resumes right after itself, so putting fragments one after another is sequential composition. From that the
compiled program of every mode is shown to return exactly what `Policy` says about the call record, and to be
what the kernel admits. `FilterWire` takes the program through its byte form to the child, for programs of any
length, and `NotifierDecision` joins filter and notifier into one condition on the policy and the address bytes.

**Lease locks** (`LeaseRuns`, `LeaseTimes`, `LeaseLocks`, `MemoryLocks`). `LeaseRuns` is an interleaved step machine of any
number of processes over one store: clock readings, statements and accesses to the private token map are
separate steps; a statement may fail before or after it takes effect; processes may crash. It stands for
PostgresLock and RedisLock at once, with the differences of the two written out. `LeaseTimes` says in plain
arithmetic on clock readings how long a lease keeps others out. `LeaseLocks` holds the lock
object whose methods make those statements, `MemoryLocks` the in-process lock, proved to be a plain map from
keys to expiry instants.

**Garbage collector** (`ControllerGc`, `GcRuns`). A tick carries everything the controller is told: peers,
definitions, run queries, listings, lookups, clock readings and the fate of each delete. A run of ticks yields a
log of evaluations and deletes, and the class is proved to produce exactly that log. `GcRuns` shows that the log
leaves nothing out and keeps the order of the ticks, and from that states the claims about deletions as claims
about what the ticks answered.

**Messaging** (`Topics`, `Dispatch`). Topics are split, joined and matched; matching by levels is compared with a
character-by-character reading of filters that knows no levels. `Dispatch` proves which handlers a publish
calls, and that each handler is called its fair share of times.

**Smaller cores** (`Cache`, `Schema`, `StructColumns`, `Paging`).

## Conventions

* Randomness, clocks, network answers and the order in which Go walks a map are parameters or actions, so
  every claim holds whatever they are. Random tokens are drawn fresh.
* SQL statements and Redis scripts are atomic. All processes and the store read one clock.
* Or-ing shifted bytes that occupy disjoint bits is written as adding them.
* Strings are sequences of runes. Where the code works on bytes it only looks for `/`, `+` and `$share/`,
  which are single bytes in UTF-8.
* Both collectors of the controller share one map of observation windows, keyed by namespace and name. Their
  listings select by different labels (`pkg/controller/pkg/controller.go:533-539`,
  `pkg/core/pkg/engine/resourcemanager/kubernetes.go:760-781`), so a key is listed as one kind only; nothing in the
  controller relies on that, and the claims say what holds with and without it.
* `RemoteLock` is PostgresLock or RedisLock, by its `backend` field. In Redis a zero time to live means a key
  without expiry, a negative one is refused, and extending to a non-positive time removes the key.

* Where a definition is shared between the code's model and a claim about it, another statement fixes what it means
  in numbers, bytes, characters or paths (`DecisionInNumbers`, `BytesPermitted`, `ExpiryInNumbers`,
  `SnapshotInAnswers`, `StripInCharacters`, `ListsColumns` and others).

## Where code and documentation part

The model follows the code.

* `docs/01-L1-Engine-Architecture.md:1604-1605` has the filter allow DNS by itself and defer sendto, sendmsg and
  sendmmsg to the notifier. The code defers only connect, allows the three send calls in the list modes, and
  lets port 53 through in the notifier.
* The comment on `Set` in the cache speaks of evicting the least recently used entry. The code evicts whichever
  entry the map yields first, so the claims hold for any victim.

## Properties that do not hold everywhere

Each is proved with the exact condition under which it does.

* The 16-bit length field of `sock_fprog` keeps a program whole exactly when it has fewer than 65536
  instructions (`TripKeepsProgram`). `buildBPF` never makes more than 41.
* Re-encoding a decoded buffer gives it back exactly when its length is a multiple of eight.
* Splitting what was joined gives back the levels, except for the single empty level.
* A scoped worker is reached exactly when its ids are the trigger's, unless one of its own ids is a plus. A run
  id with a slash reaches no worker at all.
* `Get` in the cache removes by key under a second lock, so a Set made in between can be lost
  (`RemovalOfALiveEntry` says by the history exactly when, `LostSet` shows it). What `Get` returns is sound all the same.
  At the very instant of expiry `Get` still returns the entry while `Exists` denies it.
* The validator rejects integral floats that an int64 cannot hold, and integral float32 values, where draft-07
  accepts them; on schemas that stay within the six type names it otherwise is draft-07
  (`AcceptsExactlyWhatFits`).
* The window of a JM deployment was opened while its flow was idle, and that of an orphan by a missing parent,
  unless the same key was listed as the other kind before. `SharedKeyOpensTheWindow` shows a JM deployment deleted
  the first time it is found idle, because it was listed as an orphan while its flow was running.
* A page past the last is empty unless its offset wraps: `LaterPages` has the condition, and
  `FarPageShowsFirstRows` a request that shows the first rows again.

## Model

| member | source | states |
|---|---|---|
| `Bpf.Relocation` | pkg/sandbox/pkg/seccomp/bpf.go:78-157 | A fragment between any prefix and suffix returns its own verdict or resumes at the instruction just after it. |
| `Bpf.SequentialComposition` | pkg/sandbox/pkg/seccomp/bpf.go:78-120 | Appending fragments runs one after the other, and gives a fragment again. |
| `Bpf.FragmentNeverFaults` | pkg/sandbox/pkg/seccomp/bpf.go:78-157 | Code whose jumps stay within its own end never loads, jumps or decodes illegally. |
| `Bpf.ClosedFragmentIsAdmissible` | pkg/sandbox/pkg/seccomp/bpf.go:39-70 | A fragment closed by a return passes the kernel's admission test: every jump lands on an instruction, the last one returns. |
| `Bpf.AdmissibleHalts` | pkg/sandbox/pkg/seccomp/bpf.go:39-70 | Step-by-step execution of an admissible filter halts within len - pc steps, with the verdict of the big-step reading. |
| `Bpf.MachineInNumbers` | pkg/sandbox/pkg/seccomp/notifier.go:25-30 | What each opcode does, in numbers, on which word of the call record; anything else sticks. |
| `Bpf.AdmissionInNumbers` | pkg/sandbox/pkg/seccomp/bpf.go:133-157 | What an admitted program looks like, in numbers. |
| `PolicyCompiler.GuardMeans` | pkg/sandbox/pkg/seccomp/bpf.go:88-101 | The three instructions of a guard return the verdict on a match and otherwise fall through with the accumulator kept. |
| `PolicyCompiler.GuardCallMeans` | pkg/sandbox/pkg/seccomp/bpf.go:80-101 | Loading the call number and guarding on it decides exactly that call. |
| `PolicyCompiler.BlockCallsMeans` | pkg/sandbox/pkg/seccomp/bpf.go:43-47 | Blocking a list of calls of any length returns EPERM exactly on its members. |
| `PolicyCompiler.SocketBlockMeans` | pkg/sandbox/pkg/seccomp/bpf.go:49-56 | The hand-computed jumps of the socket block: EPERM on raw sockets, ALLOW on other sockets, every other call passes on. |
| `PolicyCompiler.EgressBlockMeans` | pkg/sandbox/pkg/seccomp/bpf.go:58-66 | With a notifier only connect is deferred; without one all four egress calls get EPERM. |
| `PolicyCompiler.ProgramAdmissible` | pkg/sandbox/pkg/seccomp/bpf.go:39-70 | In every mode the kernel admits the program: jumps forward and in range, loads legal, last instruction a return, at most 41 instructions. |
| `PolicyCompiler.ProgramMeansPolicy` | pkg/sandbox/pkg/seccomp/bpf.go:24-70 | Compiler correctness: for every mode and call record the program returns what the policy says. |
| `PolicyCompiler.PolicyInNumbers` | pkg/sandbox/pkg/seccomp/bpf.go:11-38 | The policy by call numbers, socket type and verdicts written as numbers. |
| `PolicyCompiler.ProgramInNumbers` | pkg/sandbox/pkg/seccomp/bpf.go:39-70 | For every mode and call record, executed step by step, the program halts with the verdict written as a number. |
| `PolicyCompiler.ProgramHaltsWithPolicy` | pkg/sandbox/pkg/seccomp/bpf.go:24-70 | Executed step by step it halts with the policy's verdict within as many steps as it has instructions. |
| `PolicyCompiler.Builder.constructor` | pkg/sandbox/pkg/seccomp/bpf.go:78-78 | The builder starts empty. |
| `PolicyCompiler.Builder.LoadNr` | pkg/sandbox/pkg/seccomp/bpf.go:80-82 | Appends the load of the call number. |
| `PolicyCompiler.Builder.LdArg` | pkg/sandbox/pkg/seccomp/bpf.go:84-86 | Appends the load at an offset. |
| `PolicyCompiler.Builder.JeqKill` | pkg/sandbox/pkg/seccomp/bpf.go:88-94 | Appends a guard that returns EPERM, and nothing else. |
| `PolicyCompiler.Builder.JeqNotif` | pkg/sandbox/pkg/seccomp/bpf.go:96-101 | Appends a guard that defers to the notifier. |
| `PolicyCompiler.Builder.Jeq2` | pkg/sandbox/pkg/seccomp/bpf.go:108-112 | Appends the comparison that enters a handler. |
| `PolicyCompiler.Builder.JumpAhead` | pkg/sandbox/pkg/seccomp/bpf.go:114-117 | Appends an unconditional forward jump. |
| `PolicyCompiler.Builder.RetAllow` | pkg/sandbox/pkg/seccomp/bpf.go:119-119 | Appends the allowing return. |
| `PolicyCompiler.Builder.BlockAll` | pkg/sandbox/pkg/seccomp/bpf.go:43-47 | The loop over a call list appends the block whose meaning BlockCallsMeans states. |
| `PolicyCompiler.BuildBPF` | pkg/sandbox/pkg/seccomp/bpf.go:39-70 | What the compiler emits is admissible and returns the policy's verdict on every call record: by number, raw sockets and the four privileged calls 0x50001, other sockets 0x7fff0000, connect 0x7fc00000 or 0x50001 by mode, and so on. |
| `FilterWire.DecodeEncodedInsn` | pkg/sandbox/pkg/seccomp/exec.go:127-135 | Decoding the eight bytes of an instruction gives back the instruction. |
| `FilterWire.EncodeDecodedInsn` | pkg/sandbox/pkg/seccomp/seccomp.go:101-112 | Encoding a decoded instruction gives back its eight bytes. |
| `FilterWire.DecodeAfterEncode` | pkg/sandbox/pkg/seccomp/seccomp.go:95-114 | Round trip for programs of any length. |
| `FilterWire.EncodeAfterDecode` | pkg/sandbox/pkg/seccomp/exec.go:117-135 | Re-encoding a decoded buffer gives back its whole instructions, and all of it exactly when its length is a multiple of eight. |
| `FilterWire.ProgramLayout` | pkg/sandbox/pkg/seccomp/seccomp.go:101-112 | Both ways, the i-th instruction is the i-th eight bytes by their weights, code and k least significant byte first. |
| `FilterWire.WriteInsn` | pkg/sandbox/pkg/seccomp/seccomp.go:102-111 | Stores one instruction in the buffer and leaves the bytes before it alone. |
| `FilterWire.BuildSockFprog` | pkg/sandbox/pkg/seccomp/seccomp.go:132-138 | The sock_fprog carries the whole program, which is admissible and means the mode's policy. |
| `FilterWire.Filter.constructor` | pkg/sandbox/pkg/seccomp/seccomp.go:26-46 | A new filter has a mode and neither program nor lists. |
| `FilterWire.Filter.MarshalFilter` | pkg/sandbox/pkg/seccomp/seccomp.go:95-114 | The buffer holds the encoding of exactly the first len instructions, or nothing without a program. |
| `FilterWire.BuildFilter` | pkg/sandbox/pkg/seccomp/seccomp.go:38-66 | Fails exactly on an unknown mode or a list that could not be resolved, with that error; otherwise the filter has the mode, "none" for the empty one, carries its policy and only that mode's list. |
| `FilterWire.DecodeFilter` | pkg/sandbox/pkg/seccomp/exec.go:117-148 | Fails exactly on fewer than eight bytes; otherwise rebuilds the instructions and ignores a trailing rest. |
| `FilterWire.TripKeepsProgram` | pkg/sandbox/pkg/seccomp/exec.go:117-148 | What the 16-bit length lets through arrives unchanged; it is the whole program exactly below 65536 instructions. |
| `FilterWire.ChildRunsThePolicy` | pkg/sandbox/pkg/seccomp/exec.go:107-152 | The program the child installs is admissible and has the parent's meaning. |
| `NotifierDecision.Notifier.constructor` | pkg/sandbox/pkg/seccomp/notifier.go:59-66 | A new notifier has empty lists. |
| `NotifierDecision.Notifier.SetAllowlist` | pkg/sandbox/pkg/seccomp/notifier.go:191-192 | Sets the allowlist only. |
| `NotifierDecision.Notifier.SetDenylist` | pkg/sandbox/pkg/seccomp/notifier.go:194-195 | Sets the denylist only. |
| `NotifierDecision.PermitsByBytes` | pkg/sandbox/pkg/seccomp/notifier.go:158-189 | What the lists permit, said of the sixteen bytes alone: family 2, port most significant byte first, four address bytes. |
| `NotifierDecision.Notifier.CheckTarget` | pkg/sandbox/pkg/seccomp/notifier.go:121-189 | On the raw bytes: allows exactly when the pointer is not null, sixteen bytes are readable with family 2, and the big-endian port is 53, or the pair is listed when there is an allowlist, or not listed when there is only a denylist. |
| `NotifierDecision.Notifier.Respond` | pkg/sandbox/pkg/seccomp/notifier.go:88-95 | On the raw bytes: flag 1 and error 0 exactly when the target is permitted, otherwise flag 0 and error -1. |
| `NotifierDecision.NotifierFor` | pkg/sandbox/pkg/seccomp/exec.go:71-78 | The notifier gets both lists of the filter. |
| `NotifierDecision.ChildVerdict` | pkg/sandbox/pkg/seccomp/exec.go:107-152 | After the trip through bytes the kernel's verdict is still the policy's. |
| `NotifierDecision.Connect` | pkg/sandbox/pkg/seccomp/notifier.go:70-189 | Filter and notifier together, on the raw bytes: which connects each mode lets through. |
| `LeaseRuns.StepKeepsInv` | pkg/core/pkg/lock/pg.go:48-123 | Every step of every process keeps the invariant: tokens have one owner, rows match the log, every lease in force is its key's row. |
| `LeaseRuns.ReachableInv` | pkg/core/pkg/lock/pg.go:48-123 | The invariant holds after every interleaving, with failing statements and crashes. |
| `LeaseRuns.AtMostOneHolder` | pkg/core/pkg/lock/lock.go:13-19 | In every reachable state at most one lease per key is in force, over all processes; OneHolderInNumbers says it by the clock. |
| `LeaseRuns.GrantFindsNoneInForce` | pkg/core/pkg/lock/pg.go:48-72 | Whenever a TryLock is granted, no earlier grant on that key is in force. |
| `LeaseRuns.FreedOrExpired` | pkg/core/pkg/lock/pg.go:74-117 | A lease not in force was freed after its grant, or its current expiry has passed. |
| `LeaseRuns.LeaseExclusion` | pkg/core/pkg/lock/pg.go:48-123 | Between two grants of one key the first owner freed it, or its lease was out of force, over every interleaving; the two rows below say in numbers when that is. |
| `LeaseTimes.PostgresKeepsOut` | pkg/core/pkg/lock/pg.go:48-72 | After a grant or an extension begun at stamp with ttl, and nothing releasing or extending it since, the next grant on the key comes later than stamp + ttl. |
| `LeaseTimes.RedisKeepsOut` | pkg/core/pkg/lock/redis.go:32-46 | In Redis it comes no earlier than the statement's moment plus ttl, and never after a grant with ttl 0. |
| `LeaseTimes.EveryExpiryInNumbers` | pkg/core/pkg/lock/pg.go:49-58 | Over every run, each expiry is stamp + ttl (PostgreSQL) or the statement's moment + ttl (Redis), and each stamp is the clock at the action that began the call. |
| `LeaseTimes.OneHolderInNumbers` | pkg/core/pkg/lock/lock.go:13-19 | At any moment at most one token holds a key whose last grant or extension still runs by the clock. |
| `LeaseTimes.OwnerInNumbers` | pkg/core/pkg/lock/pg.go:74-123 | A row not expired by the clock changes only by a release or extension with its token, of a process granted that token. |
| `LeaseTimes.GrantedOnce` | pkg/core/pkg/lock/pg.go:48-50 | No token is granted twice. |
| `LeaseRuns.OnlyTheOwnerTouchesALiveRow` | pkg/core/pkg/lock/pg.go:74-123 | An unexpired row changes only by a release or extension with its token, by a process that was granted that token. |
| `LeaseRuns.TakenOver` | pkg/core/pkg/lock/redis.go:48-102 | A process whose lease was taken over leaves the new row alone on Release and on Extend, where it is told the lock is lost unless the statement itself reports an error. |
| `LeaseRuns.LoneTryLock` | pkg/core/pkg/lock/pg.go:48-72 | A TryLock nothing but time interrupts, with any fault: it writes the row exactly when its statement takes effect and no row blocks; the private map gets the token exactly when the caller learns of it. |
| `LeaseRuns.LoneRelease` | pkg/core/pkg/lock/pg.go:74-95 | A Release nothing interrupts, with any fault: it deletes the row exactly when its statement takes effect on its own row, and forgets the token exactly when it learns of that. |
| `LeaseRuns.LoneExtend` | pkg/core/pkg/lock/redis.go:77-102 | An Extend nothing but time interrupts, with any fault: it moves the expiry exactly when its statement takes effect on its own row, and otherwise changes nothing. |
| `LeaseLocks.TryLockIsItsRun` | pkg/core/pkg/lock/pg.go:48-72 | What the TryLock method does to table and tokens is what its steps do in any state of the step machine. |
| `LeaseLocks.ReleaseIsItsRun` | pkg/core/pkg/lock/redis.go:48-75 | The same for Release. |
| `LeaseLocks.ExtendIsItsRun` | pkg/core/pkg/lock/redis.go:77-102 | The same for Extend. |
| `LeaseLocks.Store.constructor` | pkg/core/pkg/lock/pg.go:31-40 | The shared table starts empty. |
| `LeaseLocks.RemoteLock.constructor` | pkg/core/pkg/lock/redis.go:21-30 | A lock object starts with no tokens. |
| `LeaseLocks.RemoteLock.TryLock` | pkg/core/pkg/lock/pg.go:48-72 | Result, row and private map for every outcome; refused exactly when a row expires at or after now (PostgreSQL) or after now (Redis), and the new row's expiry in numbers. |
| `LeaseLocks.RemoteLock.Release` | pkg/core/pkg/lock/redis.go:48-75 | Deletes the row only under the caller's own token, and forgets the token only when the store confirms. |
| `LeaseLocks.RemoteLock.Extend` | pkg/core/pkg/lock/pg.go:97-117 | Not held, lost or extended, with the table for each; when the row is still the caller's, and its new expiry, in numbers. |
| `LeaseLocks.RemoteLock.CleanupExpired` | pkg/core/pkg/lock/pg.go:119-123 | Removes exactly the rows that expire before now and alters no other. |
| `MemoryLocks.StepRefines` | pkg/core/pkg/lock/lock.go:41-83 | Each call keeps the two maps in agreement and does and answers what the lease map does. |
| `MemoryLocks.MemoryLockIsALeaseMap` | pkg/core/pkg/lock/lock.go:41-83 | Over every run of calls the lock is a map from keys to expiries, its two maps agree, and the lost-lock answer never comes. |
| `MemoryLocks.MemoryExclusion` | pkg/core/pkg/lock/lock.go:41-53 | Between two grants of one key it was released, or its expiry as last set had been reached. |
| `MemoryLocks.MemoryKeepsOut` | pkg/core/pkg/lock/lock.go:41-83 | After a grant or an extension at s for ttl, and nothing granting, extending or releasing it since, a TryLock succeeds exactly from s + ttl on. |
| `MemoryLocks.MemoryLock.constructor` | pkg/core/pkg/lock/lock.go:34-39 | Both maps start empty. |
| `MemoryLocks.MemoryLock.TryLock` | pkg/core/pkg/lock/lock.go:41-53 | The object takes the step proved to refine the lease map, and keeps its two maps in agreement. |
| `MemoryLocks.MemoryLock.Release` | pkg/core/pkg/lock/lock.go:54-67 | Always frees the key in both maps. |
| `MemoryLocks.MemoryLock.Extend` | pkg/core/pkg/lock/lock.go:69-83 | Extends exactly when the key is held; the lost-lock branch is not reached. |
| `ControllerGc.EffectiveTimeout` | pkg/controller/pkg/controller.go:835-840 | The configured window when that is positive, otherwise three minutes. |
| `ControllerGc.KeyIsInjective` | pkg/controller/pkg/controller.go:814-833 | For namespaces without a slash the window key names one deployment. |
| `ControllerGc.OwnershipPartitions` | pkg/controller/pkg/controller.go:104-116 | A controller owns a flow exactly when there are no peers or it is the peer at the flow's index, so controllers that see the same distinct peers split the flows. |
| `ControllerGc.QueryMeans` | pkg/controller/pkg/controller.go:240-250 | The three queries about a flow come out idle exactly when all were answered with nothing. |
| `ControllerGc.SnapshotMeans` | pkg/controller/pkg/controller.go:229-253 | In a complete snapshot an owned flow is inactive exactly when all its queries came back empty, whatever the walking order. |
| `ControllerGc.SnapshotInAnswers` | pkg/controller/pkg/controller.go:229-253 | In the answers alone: the snapshot is complete exactly when, for every owned flow, no query failed before its first non-empty page; then the active flows are the owned ones not all of whose answers were empty. |
| `ControllerGc.WindowMeans` | pkg/controller/pkg/controller.go:814-833 | An open window began at an evaluation that marked the deployment, and none since found a reason to keep it or removed it. |
| `ControllerGc.WindowIsFirstMark` | pkg/controller/pkg/controller.go:814-833 | Exactly when a window is open and since when: from the first evaluation that marked the deployment after the last one, or the last delete, that ended its window. |
| `ControllerGc.HistorySound` | pkg/controller/pkg/controller.go:648-833 | After any run of ticks the map of first-seen instants is the set of open windows, and every delete in the log is justified. |
| `ControllerGc.HistoryTruthful` | pkg/controller/pkg/controller.go:648-773 | Every evaluation in the log is about a deployment listed at its tick, with what that tick answered. |
| `GcRuns.EveryListedIsEvaluated` | pkg/controller/pkg/controller.go:670-677 | Every owned deployment a tick lists, JM or runtime, has its evaluation in the history, with that tick's answers. |
| `GcRuns.EvaluationsInOrder` | pkg/controller/pkg/controller.go:151-223 | Evaluations appear in the order of the ticks, and within a tick JM deployments before runtime deployments. |
| `GcRuns.EvaluatedOnce` | pkg/controller/pkg/controller.go:670-773 | The evaluations of a run are, tick by tick, one for each owned listed JM deployment and then one for each owned listed runtime deployment, in listing order. |
| `GcRuns.JmSawsMean` | pkg/controller/pkg/controller.go:670-677 | Those of a listing are for exactly its owned items, one each, in order. |
| `GcRuns.RtSawsMean` | pkg/controller/pkg/controller.go:735-739 | The same for runtime deployments. |
| `GcRuns.WindowOverTicks` | pkg/controller/pkg/controller.go:814-833 | A window that has lasted was opened by a pass over a listing, and no pass between that one and the evaluation gave a reason to keep the deployment. |
| `GcRuns.JmDeletionIsJustified` | pkg/controller/pkg/controller.go:648-709 | A JM deployment of a defined flow is deleted only at a tick with a complete snapshot showing the flow idle, when some earlier pass opened a window that has lasted for the timeout and no tick since listed it with an active run or a failed snapshot; never listed as a runtime deployment, it was idle at that earlier tick too. |
| `GcRuns.WhatKeepsAJm` | pkg/controller/pkg/controller.go:678-690 | At every tick, a listed JM deployment of a defined flow is marked exactly when its flow is idle for sure; a failed snapshot or an active run leaves no window open. |
| `GcRuns.WhatKeepsAnOrphan` | pkg/controller/pkg/controller.go:740-752 | At every tick, a listed runtime deployment with a live parent is left without a window; a failed lookup changes nothing. |
| `GcRuns.RuntimeDeletionIsJustified` | pkg/controller/pkg/controller.go:715-773 | An orphan is deleted only at a tick that found its parent missing or none named, never on a failed lookup; with its flow defined and not idle for sure, only when a window has lasted since a pass and no tick since found the parent alive; never listed as a JM, that pass found the parent missing. |
| `GcRuns.DeletesExactlyWhenDue` | pkg/controller/pkg/controller.go:670-772 | Over any run, in both directions: an evaluation is followed by a delete exactly when its answers and the window open before it call for one. |
| `GcRuns.SharedKeyOpensTheWindow` | pkg/controller/pkg/controller.go:814-833 | A run in which the orphan collector opens the window of a JM deployment whose flow is running. |
| `ControllerGc.OrphanWindowStartsWithMissingParent` | pkg/controller/pkg/controller.go:740-771 | When no JM evaluation has marked the key before, that window began at an evaluation that found the parent missing, and no evaluation since found it alive. |
| `ControllerGc.ChildDeletesMean` | pkg/controller/pkg/controller.go:785-796 | The children deleted along with a JM are, in order, exactly those of the listing that carry its namespace id, name and namespace. |
| `GcRuns.ChildrenGoWithTheirJm` | pkg/controller/pkg/controller.go:699-709 | Over any run, each JM delete is followed by exactly the deletes of its listed children, and by none when it failed or they could not be listed. |
| `GcRuns.ChildDeletionFollowsItsJm` | pkg/controller/pkg/controller.go:699-709 | Over any run, a runtime deployment taken along goes right after the successful delete of a JM that is its parent by name, namespace and namespace id. |
| `ControllerGc.JmDeleteSentExactlyWhen` | pkg/controller/pkg/controller.go:670-709 | Both directions: when the evaluation of a JM deployment sends a delete. |
| `ControllerGc.RtDeleteSentExactlyWhen` | pkg/controller/pkg/controller.go:735-772 | Both directions: when orphan collection sends a delete. |
| `ControllerGc.Controller.constructor` | pkg/controller/pkg/controller.go:54-70 | A controller starts with no windows and the effective timeout. |
| `ControllerGc.Controller.OwnsFlow` | pkg/controller/pkg/controller.go:104-116 | The loop decides ownership as the partition lemma reads it. |
| `ControllerGc.Controller.CollectActiveRunFlows` | pkg/controller/pkg/controller.go:229-253 | On the answers alone, when the snapshot is complete and which flows are active; and that it is the snapshot of the history. |
| `ControllerGc.Controller.QueryFlow` | pkg/controller/pkg/controller.go:240-250 | The loop over the statuses stops at the first failure or non-empty page. |
| `ControllerGc.Controller.MarkRuntimeCleanup` | pkg/controller/pkg/controller.go:814-827 | Keeps an instant that is there, and returns the age since it. |
| `ControllerGc.Controller.ClearRuntimeCleanup` | pkg/controller/pkg/controller.go:829-833 | Closes the window of that deployment only. |
| `ControllerGc.Controller.GcOrphanedJms` | pkg/controller/pkg/controller.go:670-709 | The loop over the listing extends the proved history. |
| `ControllerGc.Controller.CollectJm` | pkg/controller/pkg/controller.go:678-707 | One JM deployment: its evaluation and deletes, as the history has them. |
| `ControllerGc.Controller.DeleteRuntimeDeploymentsForFlow` | pkg/controller/pkg/controller.go:785-812 | Sends the deletes ChildDeletesMean characterises and no others, and closes the windows of those gone. |
| `ControllerGc.Controller.GcOrphanedRuntimes` | pkg/controller/pkg/controller.go:735-773 | The loop over the listing extends the proved history. |
| `ControllerGc.Controller.CollectRuntime` | pkg/controller/pkg/controller.go:740-812 | One runtime deployment: its evaluation and delete, as the history has them. |
| `ControllerGc.Controller.ReconcileTick` | pkg/controller/pkg/controller.go:151-223 | One tick; nothing happens when definitions cannot be listed. |
| `ControllerGc.Controller.RunTicks` | pkg/controller/pkg/controller.go:120-149 | After any run of ticks the controller's state is the history all claims are about. |
| `Topics.JoinOfSplit` | pkg/messager/pkg/standalone.go:84-98 | Joining the levels of any topic gives back the topic. |
| `Topics.SplitOfJoin` | pkg/messager/pkg/standalone.go:84-98 | Splitting joined levels gives them back, exactly except for the single empty level. |
| `Topics.SplitTopic` | pkg/messager/pkg/standalone.go:84-98 | The loop yields the recursive split those round trips are about. |
| `Topics.TopicMatch` | pkg/messager/pkg/standalone.go:100-114 | The loop decides level-by-level matching. |
| `Topics.LevelsMatchIsMatching` | pkg/messager/pkg/standalone.go:100-114 | Matching by levels is the character-by-character reading of a filter with single-level wildcards (section 4.7.1.3 of MQTT 5.0). |
| `Topics.TopicMatchIsMatching` | pkg/messager/pkg/standalone.go:84-114 | For every filter and topic, what is decided; it departs from that reading on the empty topic only. |
| `Topics.StripRemovesShareName` | pkg/messager/pkg/standalone.go:66-82 | Stripping removes exactly the share prefix and its group (section 4.8.2 of MQTT 5.0). |
| `Topics.StripInCharacters` | pkg/messager/pkg/standalone.go:66-82 | For every filter, character by character: which are shared, what is stripped, and that any other stays as it is. |
| `Topics.SanitizeShareGroup` | pkg/sandbox/pkg/sandboxmanager.go:159-174 | A group name is never empty and never holds a slash, whatever the id. |
| `Topics.SanitizeInCharacters` | pkg/sandbox/pkg/sandboxmanager.go:159-174 | Character by character: white space around the id goes, letters, digits, dashes and underscores stay, anything else becomes a dash, and nothing at all becomes "default". |
| `Topics.TriggerLevels` | pkg/messager/pkg/messager.go:65-69 | The levels of a trigger topic, for ids of any shape. |
| `Topics.SubscriptionFilter` | pkg/sandbox/pkg/sandboxmanager.go:146-157 | In both modes the subscription stands for the same filter, and is shared exactly when distributed. |
| `Topics.PlusRunLevels` | pkg/sandbox/pkg/sandboxmanager.go:146-157 | The levels of a scoped worker's filter. |
| `Topics.ScopedSubscriptionLevels` | pkg/sandbox/pkg/sandboxmanager.go:146-157 | The subscription of a scoped worker, level by level, with the name of its group. |
| `Topics.UnscopedSubscriptionLevels` | pkg/sandbox/pkg/sandboxmanager.go:146-157 | The same without both ids. |
| `Topics.ScopedRouting` | pkg/sandbox/pkg/sandboxmanager.go:146-174 | A trigger reaches a scoped worker exactly when namespace and flow agree, or the worker's id is a plus, and the run id has no slash. |
| `Topics.UnscopedRouting` | pkg/sandbox/pkg/sandboxmanager.go:146-157 | A worker without both ids takes every trigger whose run id has no slash. |
| `Dispatch.LocalMessager.constructor` | pkg/messager/pkg/standalone.go:17-23 | No subscriptions and no cursors. |
| `Dispatch.LocalMessager.Subscribe` | pkg/messager/pkg/standalone.go:35-43 | Appends the handler to that filter's list and touches no other. |
| `Dispatch.LocalMessager.MatchHandlers` | pkg/messager/pkg/standalone.go:48-64 | The handlers are those of the matching subscriptions in some order of the map, one in turn for shared ones; only those cursors move. |
| `Dispatch.LocalMessager.TakeTurn` | pkg/messager/pkg/standalone.go:54-60 | One matching subscription: all its handlers, or the one in turn with the cursor moved past it. |
| `Dispatch.PublishReaches` | pkg/messager/pkg/standalone.go:48-64 | How often a publish calls a handler: never without a match, as registered when plain, once when shared and its turn. |
| `Dispatch.MqttHandlers.constructor` | pkg/messager/pkg/mqtt.go:14-22 | No handlers and no cursors. |
| `Dispatch.MqttHandlers.Subscribe` | pkg/messager/pkg/mqtt.go:145-155 | Appends the handler, and says whether the broker must be told. |
| `Dispatch.MqttHandlers.DispatchHandlers` | pkg/messager/pkg/mqtt.go:215-230 | All handlers of a plain filter, the one in turn of a shared one; only that cursor moves. |
| `Dispatch.CursorsStayInRange` | pkg/messager/pkg/standalone.go:52-62 | Over every run, with handlers added at any point, each cursor points into its list or just past its end. |
| `Dispatch.CursorStep` | pkg/messager/pkg/mqtt.go:222-226 | A call that reaches a shared subscription moves its cursor one further round the list; any other leaves it. |
| `Dispatch.TurnsGoRound` | pkg/messager/pkg/standalone.go:54-57 | The turns taken go round the handlers from where the cursor stood. |
| `Dispatch.FairTurns` | pkg/messager/pkg/standalone.go:48-64 | Of n positions each has its turn m / n or m / n + 1 times in m calls that reach the subscription. |
| `Dispatch.CalledInTurn` | pkg/messager/pkg/standalone.go:54-57 | The handlers called are those at the positions whose turn it was, one by one. |
| `Dispatch.RoundRobin` | pkg/messager/pkg/standalone.go:54-57 | From a shared subscription's first message on, the k-th goes to handler k modulo n. |
| `Dispatch.FairCalls` | pkg/messager/pkg/standalone.go:48-64 | Of m calls that reach a subscription with n handlers, each handler is called m / n or m / n + 1 times for every time it is registered, whatever else goes on. |
| `CacheRuns.MaxCapacity` | pkg/cache/pkg/memory.go:29-32 | The configured capacity when positive, otherwise 65535. |
| `CacheRuns.StepKeepsInv` | pkg/cache/pkg/memory.go:44-121 | Every lock section and every step between sections keeps: the store is exactly what the log leaves, lookups read it, answers go by it, capacity holds. |
| `CacheRuns.ReachableInv` | pkg/cache/pkg/memory.go:44-121 | The invariant holds after every interleaving of calls and sweeps. |
| `CacheRuns.HitsAreSound` | pkg/cache/pkg/memory.go:44-58 | A returned value is the last one Set, not deleted or cleared, at an instant during the call, and unexpired when checked. |
| `CacheRuns.MissesAreExplained` | pkg/cache/pkg/memory.go:44-58 | When Get finds nothing, the key was not last Set by its lookup, or what was Set had been evicted, removed by a Get, or swept after its expiry. |
| `CacheRuns.ContentsMean` | pkg/cache/pkg/memory.go:44-121 | Since its last Set a key is empty exactly when an eviction, a removal or a sweep past its expiry took the entry. |
| `CacheRuns.LiveEntryIsLostExactlyWhen` | pkg/cache/pkg/memory.go:51-72 | In any reachable state, an unexpired last Set is missing exactly when it was evicted or removed by a Get since. |
| `CacheRuns.CapacityHolds` | pkg/cache/pkg/memory.go:60-72 | The store never exceeds its capacity, whichever victims evictions pick. |
| `CacheRuns.RemovalOfALiveEntry` | pkg/cache/pkg/memory.go:51-56 | The second section of Get drops an unexpired entry exactly when, by the history, the key was Set since its lookup and nothing has taken that entry away. |
| `CacheRuns.LostSet` | pkg/cache/pkg/memory.go:44-58 | From any state with room: a Set between the two sections of a Get is lost. |
| `CacheRuns.LoneGet` | pkg/cache/pkg/memory.go:44-58 | An uninterrupted Get hits exactly an entry that is there and not past expiry; otherwise only that key is gone. |
| `CacheRuns.MemoryCache.constructor` | pkg/cache/pkg/memory.go:24-42 | An empty store with the effective capacity. |
| `CacheRuns.MemoryCache.Get` | pkg/cache/pkg/memory.go:44-58 | An uninterrupted Get returns an entry exactly when it is there and not past expiry, and removes one that is past it. |
| `CacheRuns.MemoryCache.Set` | pkg/cache/pkg/memory.go:60-72 | Stores the entry; a full store first loses some one entry, and no other. |
| `CacheRuns.MemoryCache.Delete` | pkg/cache/pkg/memory.go:74-79 | Removes that key only. |
| `CacheRuns.MemoryCache.Exists` | pkg/cache/pkg/memory.go:81-89 | True exactly strictly before expiry. |
| `CacheRuns.MemoryCache.Clear` | pkg/cache/pkg/memory.go:91-96 | Empties the store. |
| `CacheRuns.MemoryCache.SweepExpired` | pkg/cache/pkg/memory.go:111-118 | Removes exactly the entries past expiry, in whatever order the map is walked. |
| `Schema.CheckTypeMeans` | pkg/common/pkg/utils/schema.go:51-89 | The type check passes exactly the values each type name lets through, with the int64 conversion of floats. |
| `Schema.FloatAsInteger` | pkg/common/pkg/utils/schema.go:78-87 | A float passes as an integer exactly when it is integral and within 64 bits, in numbers. |
| `Schema.CheckRequiredMeans` | pkg/common/pkg/utils/schema.go:111-121 | The loop finds nothing missing exactly when every named field is there. |
| `Schema.NoViolationIsAcceptance` | pkg/common/pkg/utils/schema.go:17-139 | The validator accepts exactly the values of a declarative recursive relation, whatever order map keys come up in. |
| `Schema.ValidatesExactlyAccepted` | pkg/common/pkg/utils/schema.go:10-15 | Without a schema everything passes, and with one exactly the accepted values. |
| `Schema.ReportedViolationIsReal` | pkg/common/pkg/utils/schema.go:17-139 | The path of a reported violation leads through schema and value to a place where it really is one. |
| `Schema.ReportedViolationIsFirst` | pkg/common/pkg/utils/schema.go:17-139 | A violation is reported only after everything looked at before it passed: types on the way, earlier properties and items, all properties before a missing field, earlier names. |
| `Schema.AcceptsExactlyWhatFits` | pkg/common/pkg/utils/schema.go:78-87 | On schemas with the six type names at every level: acceptance is draft-07 conformance (JSON Schema Validation, sections 6.1.1, 6.4.1, 6.5.3, 6.5.4) together with every integral float fitting an int64. |
| `Schema.AgreesWithDraft07` | pkg/common/pkg/utils/schema.go:5-15 | On those schemas and decoded values in range the two agree. |
| `Schema.LargeIntegerIsRejected` | pkg/common/pkg/utils/schema.go:79-82 | Two to the 63rd conforms and is rejected. |
| `StructColumns.FirstOccurrencesMean` | pkg/common/pkg/utils/reflect.go:31-41 | What is kept are the fields at exactly those positions that are first with their column, in order. |
| `StructColumns.ColumnsOnce` | pkg/common/pkg/utils/reflect.go:38-42 | No column comes up twice. |
| `StructColumns.FieldCollector.constructor` | pkg/common/pkg/utils/reflect.go:23-24 | Nothing collected and nothing seen. |
| `StructColumns.FieldCollector.CollectFields` | pkg/common/pkg/utils/reflect.go:28-69 | After the walk, columns and values are those of the first occurrences among everything come by, direct fields before embedded ones. |
| `StructColumns.FieldCollector.CollectDirect` | pkg/common/pkg/utils/reflect.go:30-60 | The first pass comes by the struct's own fields in order. |
| `StructColumns.FieldCollector.Visit` | pkg/common/pkg/utils/reflect.go:31-59 | One field: skipped, shadowed or kept with the encoding its type asks for. |
| `StructColumns.FieldCollector.CollectNested` | pkg/common/pkg/utils/reflect.go:61-68 | The second pass comes by the embedded structs in order, to any depth. |
| `StructColumns.FieldCollector.VisitEmbedded` | pkg/common/pkg/utils/reflect.go:62-67 | Descends exactly into exported embedded structs. |
| `StructColumns.ScanCollector.constructor` | pkg/common/pkg/utils/reflect.go:138-140 | Nothing collected and nothing seen. |
| `StructColumns.ScanCollector.CollectScanFields` | pkg/common/pkg/utils/reflect.go:171-201 | The scan targets are those of the same first occurrences, in the same order. |
| `StructColumns.ScanCollector.CollectDirect` | pkg/common/pkg/utils/reflect.go:173-192 | The first pass comes by the struct's own fields in order. |
| `StructColumns.ScanCollector.Visit` | pkg/common/pkg/utils/reflect.go:174-191 | One field: skipped, shadowed or kept with the decoding its type asks for. |
| `StructColumns.ScanCollector.CollectNested` | pkg/common/pkg/utils/reflect.go:193-200 | The second pass comes by the embedded structs in order, to any depth. |
| `StructColumns.ScanCollector.VisitEmbedded` | pkg/common/pkg/utils/reflect.go:194-199 | Descends exactly into exported embedded structs. |
| `StructColumns.StructFields` | pkg/common/pkg/utils/reflect.go:15-27 | With flags and types spelled out: a column is listed exactly when some path through exported embedded structs leads to an exported field with it; each is bound to the first such field, in order, with the encoding of its type. |
| `StructColumns.ScanTargets` | pkg/common/pkg/utils/reflect.go:138-160 | The same paths in the same order, with the JSON and time flags of their types. |
| `StructColumns.AllSlotsMean` | pkg/common/pkg/utils/reflect.go:28-69 | Everything come by sits at a path through exported embedded structs to a field with a column, says what that field is, and comes in order: direct fields before nested ones, otherwise by position. |
| `StructColumns.EverySlotPathComesUp` | pkg/common/pkg/utils/reflect.go:28-69 | Every path to a field with a column is come by, at any depth. |
| `StructColumns.KeptAreFirst` | pkg/common/pkg/utils/reflect.go:28-69 | The fields kept are exactly those that come before every other field with their column, in order. |
| `StructColumns.AllPaths` | pkg/common/pkg/utils/reflect.go:28-69 | In arbitrarily nested structs no field is come by twice. |
| `StructColumns.SavedFieldsComeBack` | pkg/common/pkg/utils/reflect.go:129-201 | For every struct shape: with the columns, values and targets the walks give, reading a saved row back fills exactly the saved fields, each from its own cell, decoded as it was encoded. |
| `StructColumns.SaveThenScan` | pkg/common/pkg/utils/reflect.go:15-201 | Exactly the fields that come first with their column are filled, each with its own value, stored as its type asks for and decoded the same way. |
| `Paging.NewPage` | pkg/model/pkg/entities/base.go:59-69 | The page count is the least that holds all rows. |
| `Paging.Select` | pkg/store/pkg/sqlite.go:54-88 | Which error comes when; otherwise the scanned rows of the page, in order, with the total and the normalised request. |
| `Paging.RequestInNumbers` | pkg/store/pkg/sqlite.go:59-74 | Page and size as requested from 1 up, otherwise page 1 and size 20, and exactly the rows from (page - 1) * size up to page * size. |
| `Paging.PageIsStretch` | pkg/store/pkg/sqlite.go:59-74 | A page whose offset fits 64 bits is the stretch of rows it stands for. |
| `Paging.PagesCoverRows` | pkg/store/pkg/sqlite.go:54-88 | Pages 1 to TotalPages are all rows exactly once and in order, for any requested size. |
| `Paging.OnlyTheLastIsShort` | pkg/model/pkg/entities/base.go:59-69 | Every page before the last is full, and the last is not empty. |
| `Paging.LaterPages` | pkg/store/pkg/sqlite.go:71-74 | When exactly a page past the last is empty, with the offset's wrap-around. |
| `Paging.FarPageShowsFirstRows` | pkg/store/pkg/sqlite.go:71-74 | A request far past the end that shows the first rows. |

## Left out

- System calls (prctl, ioctl, descriptor passing, exec), opening process memory, and base64: bytes read and sent are given.
- Host name resolution (`resolveEntries`): a list is given as resolved or failed.
- The choice in `ScriptCmd` between a filtered child and a direct command, which mode "none" takes: claims are about compiled programs.
- The notifier loop's channels, and answers the kernel refuses.
- Clocks that differ between processes and the store, and token collisions.
- Ownership between goroutines: tokens belong to a process, so a Release that overlaps another call of the same process on the same key may forget the newer token, in the model as in the code.
- The Redis client's handling of times to live below a millisecond and of its keep-TTL value, and drivers that cannot tell how many rows a statement affected.
- Kubernetes, HTTP and SQL clients beyond success, absence and failure; an installation outside a cluster reads as a failed listing.
- The hash inside `ShardIndex`: only its range is used, and only where ownership is shown to split the flows.
- Whether the run queries list every run: they are an oracle, and a flow is idle when all came back empty.
- Deployments that another controller owns: a window stays open when ownership moves away, as in the code.
- Creation of infrastructure, cron triggers and flow dispatch, which share the tick but not its windows.
- Filters with a hash sign, which the local matcher does not know, and MQTT connection, publication and acknowledgement.
- LocalMessager.Close, and the values handlers receive.
- The wording of the validator's messages; boolean schemas, lists under "items", and floats that are not finite. Out-of-range conversion of floats is that of amd64.
- The texts of JSON and time encodings, nulls and unmarshalling failures: a cell is a value with its encoding.
- Column names derived from tags (`ColName`, `ToSnakeCase`): each field carries its column. Exported embedded structs that have unexported fields only contribute nothing, as in the code.
- Paging.Select: models SQLite, which reads a negative offset as none; PostgreSQL refuses one. Rows changing between calls, ties in the ordering column, identifier checks and errors met while fetching rows are not modelled.
- The REST handlers, console, notification senders, model and tool clients, wallet, tracing, and the job and task managers.
