# A verified model of the equation server

The repository is a server that receives EQU files over the network and solves the equations in them on a
thread pool; a Python script generates such files and recomputes the solutions. This project models its four
components that have state, arithmetic or formats worth a proof:

- **The thread pool** (`JobQueue`, `WorkQueues`, `Tally`, `PoolModel`, `PoolInvariant`, `PoolSafety`,
  `PoolShutdown`, `PoolSignals`, `PoolDispatch`, `PoolWait`, `PoolFairness`, `PoolWitness`). `PoolModel` is a
  labelled transition system: N workers (1 to 255), any number of enqueuing calls, one client of
  `thpool_wait` and one caller of `thpool_destroy`. Each atomic load or read-modify-write, each mutex
  operation and each condition variable operation is one step; `cnd_wait` may return unasked, and
  `cnd_signal` may wake any blocked worker. The counters have their C widths and wrap in the model; that they
  never do is proved. The system starts where the last `thrd_create` of a successful `thpool_init` leaves the
  pool. `WorkQueues` is the linked list itself, in heap nodes: its methods take the branches of the C code,
  and are proved to do to the list what the steps of the transition system do to a sequence.
- **The equation solver** (`Int64`, `Bits`, `Words`, `Rotation`, `Calculation`, `Opcodes`). `Evaluate` says, in
  integers, what each opcode means; `Opcodes` shows that it says the right thing and that nothing else is
  right. The methods of class `Solution` are the C callbacks with their guards, proved to arrive there.
  Bitwise operators and shifts are functions on natural numbers.
- **The codecs** (`ByteOrder`, `Streams`, `Memory`, `Sequences`, `NetHeaders`, `EquFormat`, `EquParser`,
  `EquSolver`):
  the 48-byte network header and the EQU file, as byte layouts, and the C code that reads and writes them, with
  its linked list and with a record of every `malloc` and `free`.
- **The Python script** (`Grader`, `EquWriter`): its evaluator on unbounded integers and its file generator.

`dafny verify dfyconfig.toml` checks everything.

## What the proofs found

- `thpool_wait` reads `workers_working` before `job_count` (`src/thread_pool/thread_pool.c:231`). In that
  order the test is not sound. `WaitReturnsExactly` says when it is, from the moment the first load reads 0,
  with no enqueue in flight: every way on from there ends with all counted jobs finished if and only if
  `job_count` is 0 already. Otherwise a single worker can take every job between the two loads, and the wait
  is over with the last job in its hands (`WaitCanBeFooled`; `WrittenOrderFails` is the run of one worker and
  one job). In the opposite order the test is sound as long as no job is counted in between
  (`CountFirstIsSound`), and so is a call that finds `job_count` at 0 (`EmptyListWaitIsSound`) and reading both
  counters in one state (`Quiescence`).
- `thpool_enqueue_job` signals `run_cond` without holding `run_mutex` (line 355), so a signal can be lost:
  `SignalIsLost` reaches a state with a job listed, no enqueue in flight and every worker blocked.
  `StalledExactly` names the only step that strands a job like this, and `SomeoneMovesExactly` shows that
  being asleep is the only way the pool stops before `thpool_destroy`. Shutdown is immune, since lines
  261-268 broadcast again and again: it ends in every fair behaviour (`FairShutdownEnds`).
- The signals of `wait_cond` at 432 and 467 are sent without `wait_mutex`, so `thpool_wait` can miss the last
  one and stay blocked with every counted job finished (`WaiterIsStranded`). `StrandedExactly` names the only
  step that does it.
- Multiplication refuses every product with a negative right operand: one of the comparisons of
  `src/calculation/calculation.c:186` and `192` holds of every left operand then. It never reports a wrapped
  product. For the operands `-(2^63-1)` and `-1`, line 192 evaluates `INT64_MIN / -1`, which C does not
  define; `UndefinedExactly` shows it is the only such pair, and `Multiply` returns false for it.
- Division and modulo refuse `-1` by `INT64_MIN`, whose quotient 0 and remainder -1 would fit. It is the only
  pair refused needlessly (`DivisionRefusals`).
- The comment at lines 289-290 says that a right shift by 64 or more wipes the value to 0. The code shifts by
  63 and leaves the top bit. The model follows the code (`LongRightShift`).
- The Python script sets its error flag inside an operation and overwrites it when the operation returns
  (`tests/EquGrader.py:206-207`), so it flags every equation as solved. `FlagsAgreeExactly` says for which
  operands that is the solver's flag too; a division by zero is one where it is not. An equation passes by its
  value alone (`Grade`), and for the values `AgreementExactly` says when the two agree, including the 0 both
  give for a division by zero.
- For an opcode outside its table the Python script raises an error that nothing catches
  (`tests/EquGrader.py:133`), where the solver reports a failure (`ScriptGivesUpExactly`).
- The parser ignores the `offset` field of the EQU header, which the Python script follows. They read the same
  records of all files with a given offset if and only if it is 27, as the writer stores
  (`ReadersAgreeExactly`); `OffsetIsIgnored` gives a file they read differently.
- The parser counts records in an `int`. It overflows exactly if the file has the magic, announces more than
  2^31-1 equations and holds 2^31 of them; `ParseStream` returns whether its evaluation is defined.

## Assumptions of the pool model

- The client's side of the contract of `thpool_destroy`: calls of `thpool_enqueue_job` and `thpool_wait` may
  overlap with the broadcasting loop, but none is still in flight when line 271 reads `job_head`, and none
  starts after that.
- Live job objects have distinct non-NULL addresses, so fewer than 2^64 of them exist at a time. That
  `job_count` does not wrap follows from it.
- `thpool_destroy` is called once. The job callback is one terminating step.

## Model

| member | source | states |
|---|---|---|
| PoolInvariant.InitInv | src/thread_pool/thread_pool.c:159-217 | a pool whose threads have all been created, none of which has run yet, satisfies the invariant |
| PoolInvariant.StepInv | src/thread_pool/thread_pool.c:226-477 | every step of every thread keeps the invariant: counter meanings, mutex holders, the count against the list, queue order, job accounts and teardown stages |
| PoolInvariant.ReachableInv | src/thread_pool/thread_pool.c:226-477 | every state of every interleaving satisfies the invariant |
| PoolSafety.JobsConserved | src/thread_pool/thread_pool.c:316-477 | in every reachable state the jobs ever linked are the finished ones, those held by workers, those still listed and those drained, as multisets |
| PoolSafety.JobInOnePlace | src/thread_pool/thread_pool.c:316-477 | every linked job is listed, held, finished but unfreed, freed by its worker, or drained: in exactly one of these and once |
| PoolSafety.NothingHappensTwice | src/thread_pool/thread_pool.c:448-453 | no job is dequeued, started or finished twice, and none is freed twice, whether by a worker or by the drain |
| PoolSafety.HandsAreDisjoint | src/thread_pool/thread_pool.c:448-453 | two workers never hold the same job |
| PoolSafety.FirstComeFirstServed | src/thread_pool/thread_pool.c:333-388 | jobs leave the list in the order they were linked: what was taken and then drained is a prefix, and the list is the rest |
| PoolSafety.CountIsLength | src/thread_pool/thread_pool.c:333-388 | outside the queue's critical sections `job_count` is the length of the list, and it is 0 exactly when `job_head` is NULL |
| PoolSafety.MutualExclusion | src/thread_pool/thread_pool.c:333-388 | at most one thread, worker or enqueuer, is inside a critical section of the queue |
| PoolSafety.ListMovesUnderLock | src/thread_pool/thread_pool.c:271-388 | every step that changes the list or the count is taken by that thread, or is the drain with no worker, enqueuer or waiter left |
| PoolSafety.CounterBounds | src/thread_pool/thread_pool.c:405-475 | `workers_working` is the number of workers between 438 and 456, `workers_alive` of those between 405 and 475, and working <= alive <= `thread_count` <= 255 |
| PoolSafety.AtomicsWrap | src/thread_pool/thread_pool.c:33-44 | the model's atomics have 8 and 64 bits and wrap in both directions |
| PoolSafety.CountersNeverWrap | src/thread_pool/thread_pool.c:42-44 | each step changes each wrapping counter by exactly the unbounded +1, -1 or 0, so no 8-bit or 64-bit atomic wraps in either direction |
| PoolSafety.Quiescence | src/thread_pool/thread_pool.c:230-243 | in one state, even inside a critical section, both counters at 0 mean that every counted job has finished |
| PoolSafety.ZeroCountExactly | src/thread_pool/thread_pool.c:230-243 | with `job_count` at 0, every counted job has finished if and only if no worker holds one |
| PoolSafety.CountFirstIsSound | src/thread_pool/thread_pool.c:230-243 | reading `job_count` as 0 and `workers_working` as 0 at any later time is sound when nothing is counted in between |
| PoolWait.WaitReturnsExactly | src/thread_pool/thread_pool.c:230-243 | with no enqueue in flight and destroy not called, once the first load of line 231 reads 0: every run from there to the end of the wait that counts no job ends with all counted jobs finished, if and only if `job_count` is 0 at that first load |
| PoolWait.WaitCanBeFooled | src/thread_pool/thread_pool.c:231 | if it is not 0, there is such a run that ends with a counted job unfinished, for any number of workers and jobs |
| PoolWait.EmptyListWaitIsSound | src/thread_pool/thread_pool.c:230-243 | for any `workers_working`: a call that finds `job_count` 0 at its first load comes to line 242, by whatever way and after however many wakeups, only when every counted job has finished, as long as no job is counted meanwhile |
| PoolWait.IdlePoolLetsReturn | src/thread_pool/thread_pool.c:230-243 | with both counters at 0 the client needs at most six steps of its own and one wakeup to return, from every line of `thpool_wait`, and changes nothing |
| PoolWitness.WrittenOrderFails | src/thread_pool/thread_pool.c:231 | a reachable run, beginning and ending with the two loads of line 231, in which the wait is over although its job has not started |
| PoolSafety.NoUseAfterFree | src/thread_pool/thread_pool.c:249-477 | no step of any thread touches NULL or a freed job, worker, queue or pool object, including the write through `job_tail` at 343 |
| PoolSafety.NothingFreedIsUsed | src/thread_pool/thread_pool.c:249-477 | the same line by line: the job whose `next_job` is read at 384, the job called at 451 and freed at 452, the new job and the tail at 336-344, the drained job, the worker object and the pool's parts at 273-302 have not been freed before |
| PoolSafety.EnqueuerTouchesLive | src/thread_pool/thread_pool.c:336-345 | the new job and, unless the count is 0, the tail it is linked behind are live objects |
| PoolSafety.WorkersAreGone | src/thread_pool/thread_pool.c:261-303 | once `workers_alive` is 0 no worker takes another step |
| PoolSafety.NoJobIsLost | src/thread_pool/thread_pool.c:316-357 | in every reachable state the job objects ever allocated are those linked and those whose call has yet to link them, and no job is both |
| PoolSafety.ShutdownAccounting | src/thread_pool/thread_pool.c:257-303 | when `thpool_destroy` is done, every job object ever allocated was linked, and in link order they are first the executed ones and then the drained ones, all distinct, each executed one started, finished and freed once; after them all `thread_count` worker objects, the queue, the array and the pool were freed, in this order and once each |
| PoolShutdown.MeasureDecreases | src/thread_pool/thread_pool.c:257-268 | with `thpool_active` at 0, every step of a worker decreases the total of steps left, and no other step raises it |
| PoolShutdown.ShutdownIsBounded | src/thread_pool/thread_pool.c:257-268 | after line 257 the workers together take at most 15 steps per thread, in every interleaving and with any spurious wakeups |
| PoolShutdown.ShutdownNeverStalls | src/thread_pool/thread_pool.c:261-268 | after line 257, while a worker is alive, a worker can step, or the enqueuer holding the queue mutex can, or the next turn of the broadcast loop enables a worker |
| PoolShutdown.BroadcastRescues | src/thread_pool/thread_pool.c:261-268 | when every worker left is blocked on `run_cond`, one turn of the destroyer's loop lets each of them step |
| PoolShutdown.ShutdownCanFinish | src/thread_pool/thread_pool.c:261-268 | from every state after line 257 a run leads to `workers_alive` 0 |
| PoolFairness.FairShutdownEnds | src/thread_pool/thread_pool.c:257-268 | every infinite behaviour after line 257 that is weakly fair to each worker, each enqueuing call and the destroyer, and strongly fair in granting `queue_access_mutex`, leaves the loop, with no worker alive |
| PoolFairness.AllAreGone | src/thread_pool/thread_pool.c:401-477 | in such a behaviour, when no worker is blocked on `run_cond` and none ever steps again, all have exited |
| PoolFairness.MutexComesFree | src/thread_pool/thread_pool.c:333-354 | in such a behaviour an enqueuing call that holds the queue mutex gives it up |
| PoolShutdown.OneLateJobEach | src/thread_pool/thread_pool.c:408-451 | after line 257 each worker starts at most one job, and none if it has yet to pass line 426 |
| PoolShutdown.LateJobsAreFew | src/thread_pool/thread_pool.c:257-451 | at most `thread_count` jobs start after line 257 |
| PoolDispatch.NobodyLeavesEarly | src/thread_pool/thread_pool.c:408-435 | before `thpool_destroy` is called no worker is on its way out |
| PoolSignals.SignalWakesOne | src/thread_pool/thread_pool.c:355-391 | the signal of an enqueue or of a dequeuing worker wakes exactly one worker blocked on `run_cond` if there is one, and moves no other; with none blocked it moves nobody |
| PoolSignals.SignalCounts | src/thread_pool/thread_pool.c:355-391 | the number of blocked workers falls by exactly one, or is 0 and stays 0 |
| PoolSignals.BroadcastWakesAll | src/thread_pool/thread_pool.c:266 | the broadcast wakes every blocked worker and moves no other |
| PoolSignals.WaiterIsSignalled | src/thread_pool/thread_pool.c:432-467 | the signals of `wait_cond` wake the waiter if it is blocked |
| PoolSignals.SignalsExactlyWhenEmpty | src/thread_pool/thread_pool.c:430-468 | a worker comes to one of them exactly when its load at 430 or 465 reads 0 |
| PoolSignals.WorkersMoveThemselves | src/thread_pool/thread_pool.c:316-477 | apart from signals, broadcasts and spurious wakeups no step moves a worker but the one that takes it |
| PoolSignals.WaiterMovesItself | src/thread_pool/thread_pool.c:226-243 | nor the waiter |
| PoolDispatch.SomeoneMovesExactly | src/thread_pool/thread_pool.c:333-456 | before `thpool_destroy`, a worker or an enqueue in flight can take a step if and only if not all workers are blocked on `run_cond` with no enqueue in flight: there is no other deadlock |
| PoolDispatch.StalledExactly | src/thread_pool/thread_pool.c:355-417 | a step strands a job if and only if it is the last awake worker blocking at 417 although the count has risen since 413 |
| PoolWitness.SignalIsLost | src/thread_pool/thread_pool.c:355 | such a stranded state is reachable |
| PoolWait.StrandedExactly | src/thread_pool/thread_pool.c:231-238 | before line 257 and after it, a step leaves the waiter blocked with no signal left to come if and only if it is its own blocking at 238 after the last signal has been sent |
| PoolWait.StrandedStays | src/thread_pool/thread_pool.c:238 | and it stays so until a spurious wakeup, a new enqueue, or a call of `thpool_destroy` that finds a worker not at line 408, and no longer |
| PoolWait.StrandedInVain | src/thread_pool/thread_pool.c:230-243 | although all counted jobs have finished and no worker works |
| PoolWitness.WaiterIsStranded | src/thread_pool/thread_pool.c:465-468 | such a state is reachable |
| WorkQueues.WorkQueue.LinkJob | src/thread_pool/thread_pool.c:336-345 | the pointer code turns the list into the one the abstract step says, on either branch, tail and termination included |
| WorkQueues.WorkQueue.Enqueue | src/thread_pool/thread_pool.c:333-354 | the list gains the job at its end and the count stays its length |
| WorkQueues.WorkQueue.UnlinkJob | src/thread_pool/thread_pool.c:370-386 | the head is returned and the list becomes the one the abstract step says |
| WorkQueues.WorkQueue.Dequeue | src/thread_pool/thread_pool.c:365-393 | the oldest job is returned and removed, NULL and no change if there is none, and the count stays the length |
| WorkQueues.WorkQueue.Drain | src/thread_pool/thread_pool.c:271-279 | exactly the listed jobs are freed, each once, in list order, and the loop ends |
| Calculation.Solution.Add | src/calculation/calculation.c:120-142 | solved with the mathematical sum exactly when it is an int64_t, otherwise a failure with value 0; a message exactly on failure |
| Calculation.Solution.Subtract | src/calculation/calculation.c:144-167 | the same for the difference |
| Calculation.Solution.Multiply | src/calculation/calculation.c:169-203 | the evaluation is defined for every pair but one; then it is solved exactly when the right operand is not negative and the product is an int64_t, with that product, and otherwise a failure |
| Calculation.Solution.Divide | src/calculation/calculation.c:205-235 | the truncated quotient, or a failure on exactly the three refused kinds of pair |
| Calculation.Solution.Modulo | src/calculation/calculation.c:237-267 | the remainder of the truncated quotient, on the same pairs |
| Calculation.Solution.LeftShift | src/calculation/calculation.c:269-282 | the product with 2 to the amount modulo 64, itself modulo 2^64 |
| Calculation.Solution.RightShift | src/calculation/calculation.c:284-298 | below 64 the quotient by the power of two; from 64 on the top bit |
| Calculation.Solution.LogicalOp | src/calculation/calculation.c:300-319 | every bit of the result is the operator, AND, OR or XOR, applied to the two bits in its place |
| Calculation.Solution.LeftRotate | src/calculation/calculation.c:321-342 | bit i of the operand is bit (i + r) mod 64 of the result, for every 64-bit r |
| Calculation.Solution.RightRotate | src/calculation/calculation.c:344-364 | bit i of the operand is bit (i - r) mod 64 of the result, for every 64-bit r |
| Calculation.Solution.Resolve | src/calculation/calculation.c:74-118 | every opcode, known or not, leaves the verdict `Evaluate` defines, unless it is the one undefined multiplication; for exclusive or the solution plus twice the common bits is the sum of the operands |
| Opcodes.EvaluateIsRight | src/calculation/calculation.c:74-364 | `Evaluate` is right by the meaning of each opcode, in terms of sums, products, truncated division, powers of two, single bits and bounds in figures |
| Opcodes.RightIsUnique | src/calculation/calculation.c:74-364 | and no other verdict is right, for every opcode and all operands |
| Opcodes.XorIsSumWithoutCarries | src/calculation/calculation.c:300-319 | xor + 2 and = l + r, and or = xor + and |
| Calculation.GetEquation | src/calculation/calculation.c:35-59 | a new object with the operands given and that verdict |
| Calculation.NegativeRejectsAll | src/calculation/calculation.c:186-197 | for every negative right operand one of the two comparisons holds, whatever the left operand |
| Calculation.UndefinedExactly | src/calculation/calculation.c:174-192 | control reaches line 192 with the operands of `INT64_MIN / -1` for one operand pair and no other |
| Calculation.MultiplicationExactly | src/calculation/calculation.c:186-197 | the two comparisons by truncated quotients let a pair through exactly when the right operand is not negative and the product fits, for all int64_t pairs |
| Calculation.MultiplicationRefusals | src/calculation/calculation.c:169-203 | "solved exactly when the product fits" holds if and only if the right operand is not negative or the product does not fit; -1 * -1 is a counterexample |
| Int64.BoundsByDivision | src/calculation/calculation.c:186-197 | for a positive right operand the two comparisons by division say exactly that the product is out of range |
| Calculation.DivisionLaw | src/calculation/calculation.c:205-267 | division and modulo are solved for the same pairs, and there l = q*r + m, abs(m) < abs(r), and m is 0 or has the sign of l |
| Calculation.DivisionRefusals | src/calculation/calculation.c:210-229 | "solved exactly when the quotient exists and fits" holds if and only if the pair is not -1 by `INT64_MIN` |
| Int64.TruncationUnique | src/calculation/calculation.c:231-263 | that law has one solution, so it determines quotient and remainder |
| Words.ShiftsArePowers | src/calculation/calculation.c:269-298 | the shifts, defined place by place, are the product modulo 2^64 and the quotient by a power of two |
| Calculation.LongRightShift | src/calculation/calculation.c:289-295 | a right shift by 64 or more leaves the top bit, where the true quotient is 0 |
| Bits.BitOfBitwise | src/calculation/calculation.c:300-319 | bit i of a bitwise result is the operator applied to bits i of the operands |
| Bits.BitIsDigit | src/calculation/calculation.c:300-319 | bit i is the digit of 2^i |
| Rotation.BitsMove | src/calculation/calculation.c:321-364 | bit i moves to (i + r) mod 64 under left and (i - r) mod 64 under right rotation, for every word and every 64-bit r |
| Rotation.RotationsInvert | src/calculation/calculation.c:321-364 | right rotation undoes left rotation and left undoes right |
| Rotation.RotationsCompose | src/calculation/calculation.c:321-342 | left by a and then by b is left by the wrapped 64-bit sum |
| Rotation.LeftIsRight | src/calculation/calculation.c:321-364 | left by r is right by 64 - r mod 64, and left by 0 is the identity |
| Grader.Solution.Solve | tests/EquGrader.py:203-209 | for every equation object, the value the script expects of it and the flag of a solved equation |
| Grader.ExpectedIsRight | tests/EquGrader.py:232-326 | for every equation the script builds, its value is right by Python's sums, products, floored division, shifts and bits, where an error gives 0 |
| Grader.AgreementExactly | tests/EquGrader.py:126-326 | for every opcode, all 64-bit operands and any limit on Python's left shifts, the Python script has a value and it is the solver's if and only if the condition `Agreeable` on opcode and operands holds |
| Grader.FlagsAgreeExactly | tests/EquGrader.py:126-209 | for every opcode and all 64-bit operands, the Python script has a flag and it is the solver's if and only if sum or difference fit (1, 2), the right operand is not negative and the product fits (3), the division is not refused (4, 5), always for 6 to 12, and never for other opcodes |
| Grader.ScriptGivesUpExactly | tests/EquGrader.py:126-149 | the Python script builds no equation, and so has no value and no flag, exactly for the opcodes outside its table, for which the solver reports a failure |
| Grader.Grade | tests/EquGrader.py:412-421 | an equation is graded exactly if its opcode is in the table, and then passes exactly when `Agreeable` holds, whatever the flags |
| Grader.GeneratedEquationsAgree | tests/EquGrader.py:71-91 | on every equation the generator can write they agree |
| Grader.FlagsDifferOnDivisionByZero | tests/EquGrader.py:251-269 | on division by zero the values agree, both 0, and the flags do not |
| ByteOrder.SwapReverses64 | src/header_parser/header_parser.c:62-68 | swapping reverses the eight bytes and is an involution |
| ByteOrder.SwapReverses32 | src/header_parser/header_parser.c:32-39 | so does the 32-bit swap between host and network order |
| ByteOrder.LowByteFirst64 | src/header_parser/header_parser.c:93-171 | integers lie in memory low byte first: the first byte is the value modulo 256, and a shift by 8 drops it |
| ByteOrder.LowByteFirst32 | src/header_parser/header_parser.c:79-147 | the same for 32 bits |
| NetHeaders.DecodeEncode | src/server/server_backend.c:189-207 | every header is read back from its wire format unchanged |
| NetHeaders.EncodeDecode | src/header_parser/header_parser.c:19-55 | every 48 bytes are the wire format of the header read from them |
| NetHeaders.SerializeHeader | src/server/server_backend.c:189-207 | the buffer ends up as the wire format of the header |
| NetHeaders.HeaderLayout | src/server/server_backend.c:189-207 | the 48 bytes: size at 0, name length at 4, payload size at 8, each high byte first, name from 16 |
| NetHeaders.ErrorReplyBytes | src/server/server_backend.c:164-187 | of the 48 bytes of an error reply 4 to 7 and 16 to 39 are zero, and all others are the header's |
| NetHeaders.ReadHeader | src/header_parser/header_parser.c:19-55 | with 48 bytes to read, a new header decoded from them; with fewer, NULL and the one allocation freed |
| NetHeaders.ErrorReply | src/server/server_backend.c:164-187 | what is sent is the header without its name, and the header is freed once |
| NetHeaders.ErrorReplyReadBack | src/server/server_backend.c:164-187 | read back, the reply has name length 0, 24 zero name bytes and everything else as it was |
| Streams.ReadStream | src/header_parser/header_parser.c:220-278 | all the bytes asked for, in order, or a failure exactly when fewer are left |
| EquWriter.EquFile.GenEquations | tests/EquGrader.py:71-91 | the drawn equations are appended as 32-byte records, in order |
| EquWriter.EquFile.WriteFile | tests/EquGrader.py:94-104 | the file is the printed header and then every stored record |
| EquWriter.GenerateFile | tests/EquGrader.py:71-104 | a generated file parses to exactly its header and the equations drawn, in order |
| EquFormat.ParsePrinted | src/header_parser/header_parser.c:77-182 | every printed header and list of equations parses back to itself |
| EquFormat.MagicBytes | src/header_parser/header_parser.c:79-84 | the magic is the bytes 55 BB 77 DD |
| EquFormat.HeaderBytes | tests/EquGrader.py:94-101 | where each field lies in the 27 bytes of a header |
| EquFormat.RecordBytes | tests/EquGrader.py:71-91 | where each field lies in the 32 bytes of a record |
| EquFormat.CounterOverflows | src/header_parser/header_parser.c:123-179 | the loop counter is too small exactly for files that announce more than 2147483647 equations and hold 2147483648 |
| EquFormat.TruncationExactly | src/header_parser/header_parser.c:77-182 | cutting any file that parses to a shorter length leaves its parse unchanged if 27 bytes remain for n = 0, or 27 + 32 n - 10 for n > 0, and makes it fail below that |
| EquFormat.PrefixesThatParse | src/header_parser/header_parser.c:123-179 | of the prefixes of a printed file, exactly those missing at most the last padding parse |
| EquFormat.ReadersAgreeExactly | tests/EquGrader.py:359-367 | for every offset o and record i: script and parser read the same record i of every long enough file with that offset if and only if o = 27 |
| EquFormat.OffsetIsIgnored | tests/EquGrader.py:359-367 | a file with offset 59 that the parser accepts and of which the two read record 0 differently |
| EquParser.Equations.Attach | src/header_parser/header_parser.c:134-143 | the acyclic list from `eqs` to `tail` gains the node at its end |
| EquParser.FreeSolution | src/calculation/calculation.c:65-72 | the message, if there is one, and then the solution are freed, and nothing else |
| EquParser.FreeNode | src/header_parser/header_parser.c:193-199 | a node's message and solution, as far as there are any, and then the node are freed, and nothing else |
| EquParser.FreeEquation | src/header_parser/header_parser.c:184-203 | each node of the list, its solution if it has one, that solution's message if it has one, and the owner are freed, each exactly once, and nothing else is |
| EquParser.ReadMagic | src/header_parser/header_parser.c:79-81 | the magic is recognised exactly when its four bytes are there, even after a short read |
| EquParser.ReadHead | src/header_parser/header_parser.c:79-121 | an empty list with the header's fields exactly when magic and 27 bytes are there; otherwise NULL, with what was allocated freed |
| EquParser.ReadRecord | src/header_parser/header_parser.c:146-178 | the node holds the record at the cursor, which moves on by 32; a failure exactly if fewer than 22 bytes are left |
| EquParser.AddRecord | src/header_parser/header_parser.c:125-178 | one turn of the loop: list, cursor and heap move on together, or the whole list is freed |
| EquParser.ReadRecords | src/header_parser/header_parser.c:123-179 | the int counter overflows exactly if more than 2^31-1 records are announced and 2^31 are there; otherwise the loop loads n records from an acyclic list with the cursor 32 bytes on per turn, or fails exactly when the file is too short, with everything freed |
| EquParser.ParseStream | src/header_parser/header_parser.c:77-182 | defined for exactly the files without the magic and those for which the int counter suffices; then a result exactly for the files that parse, equal to their parse, in an acyclic list of fresh, live, unsolved nodes with the cursor at 27 + 32 n, and otherwise NULL, with the list's allocations freed once each |
| EquParser.ParseAndFree | src/header_parser/header_parser.c:77-203 | parsing and then freeing the result undoes every allocation of the list, wherever parsing is defined |
| EquSolver.SolveAll | tests/gtest_header_parser.cpp:52-72 | every node gets a new solution with the solver's verdict on it, unless a multiplication is undefined; what that obtains is recorded |
| EquSolver.ParseSolveAndFree | tests/gtest_header_parser.cpp:43-77 | parsing a file, solving each equation and freeing the list undoes every allocation, solutions and messages included, wherever that is defined: exactly for the files whose parse is defined and holds no undefined multiplication |

## Left out

- Sockets, `accept`, signals and the server's main loop, `src/server/arg_parser.c`, the client, the builder
  and CMake files: plumbing without an invariant worth a proof.
- `docs/3_DataStructures1` holds headers and tests only.
- Failure paths of `thpool_init`, and `mtx_destroy` and `cnd_destroy` (the code never destroys `wait_mutex`
  and `wait_cond`): the model starts from a pool that initialised.
- Allocation failure, `errno`, timeouts, `usleep`, debug printing and message text. An I/O error or timeout is
  the end of the data.
- Weak memory: the atomics are the default sequentially consistent ones, so the model interleaves steps.
- Several clients inside `thpool_wait` at once, and a second call of `thpool_destroy`.
- Liveness of dispatch and of `thpool_wait` under fairness: the signals are sent without the matching mutex.
  The safety side of it is `SomeoneMovesExactly`, `StalledExactly`, `StrandedExactly` and `StrandedStays`.
- PoolShutdown.ShutdownCanFinish: shows a run that ends; that every fair behaviour does is `FairShutdownEnds`.
- Calculation.Solution.Resolve: models the error message as an object without text; the three bitwise
  callbacks are one method, `LogicalOp`, with the operator as its argument.
- Calculation.Solution.Multiply: says nothing of the state after the one undefined division.
- Grader.Solution.Solve: the shift amount from which Python's left shift raises is a parameter, at least 64.
- EquWriter.EquFile.GenEquations: what Python draws at random is a parameter.
- Streams.ReadStream: does not track its own two buffers, which the C code does not free on a failed read.
- EquParser.ReadRecord: the freeing that `read_stream` does on failure is done by its caller, right after the
  failed read.
- NetHeaders.ErrorReply: the write to the socket is its result; the socket and its buffer are left out.
- Storing solutions back into an EQU file and sending it: no property beyond the record layout.
