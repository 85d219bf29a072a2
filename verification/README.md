# Verified models of the algorithms and state machines in this repository

The repository collects student projects. This Dafny project models the ones with
a hard core and proves what they are for. Code that updates state in place is
modelled as classes, arrays and loops, and each method is tied to a specification
function or a state machine; the properties are then proved about those, for every
input, every run or every interleaving.

| component | files | model |
|---|---|---|
| Priority round-robin scheduler (`Operating Systems/Task2`) | SchedulerModel, SchedulerSafety, SchedulerOrder, RoundRobin, SchedulerLimits, SchedulerRuns; PriorityTable, Scheduler | The API calls as a state machine, its invariants over every run, its queue order, its exact time slicing, and exactly where it falls short. The linked queues, thread records and pointers on the heap refine it. |
| Turing machine and word comparator (`Turing Machine`) | TuringMachine, Comparator | The table interpreter on a tape rewritten in place, and total correctness of the 15-row program of `matrice.in`. |
| Palindrome exchanges (`p1.py`) | Palindrome | The greedy loop and its optimality. |
| Trie (`Trie`) | TrieModel, Trie | An index from keys to counts and representatives, compared with the history of calls; linked nodes with 68 children refine it; listings are exact and sorted. |
| Shell grammar and evaluator (`Operating Systems/Task1`) | ShellGrammar, ShellTree, ShellEval | A shift-reduce parser ruled by the binding strengths, the tree it links on the heap, and evaluation as a left-to-right scan. |
| Hamming codec and lossy link (`TCP server`) | Hamming, LinkQueue, LinkModel, Link | The (12,8) code on bytes, the linked queue, the two-thread protocol with its clock, and the link's own variables refining it. |
| Adjustments and wiring (`p2.py`, `p3.py`) | Adjustments, Wiring | An edit-distance table against sequences of edits; stack matching against all perfect matchings. |
| Lines and circles (`gfx.c`) | Graphics, Circles | Bresenham and midpoint drawing, with the exact set of pixels. |

Wrappers holds the few definitions that all of them share.

Places where the code does not do what its documentation or a reader would expect
are modelled as the code has them, and each comes with a failing input and the exact
condition:

- `so_wait` marks a thread WAITING and nothing marks it RUNNING again, while only
  RUNNING threads are preempted (so_scheduler.c:115, 323). `SchedulerRuns.PriorityInversion`
  is a run that leaves a better thread waiting; `SchedulerLimits.BestRunsAfterCall` says
  for every call exactly when a best thread runs afterwards. The priority invariant
  carries the same guard.
- `quantum_left` is unsigned and wraps at the next exec or fork when a thread used it up
  and was not replaced: because only worse threads were ready, or, for a thread still in
  state WAITING, whoever was ready. `SchedulerLimits.HandsOverExactlyWhen` and
  `SchedulerLimits.QuantumAfterCall` are the exact conditions, for every call, and
  `SchedulerRuns.QuantumCanWrap` is a run of three calls that reaches it.
- `so_init` accepts 0 devices, and `io > io_dev - 1` then accepts every number
  (so_scheduler.c:317, 343). Threads block on devices that do not exist, and the number
  2^32 - 1, which also marks threads that wait for nothing, loses or doubles a thread:
  `SchedulerLimits.DevicesAreChecked`, `SchedulerLimits.KeptExactlyWhen` and
  `SchedulerRuns.TwoPlaces`. The theorems over runs therefore speak of sound calls, which
  all calls are as soon as there is a device (`SchedulerSafety.DevicesMakeSound`).
- The link takes any speed and delay from its command line. The count of messages on the
  wire keeps its bound for every serialization S and delay D as soon as there are two;
  for a single message exactly when S + D > 0 (`LinkModel.WireBoundedExactly`).
- The trie's root starts with the text "" (TrieFunctions.java:26), which wins every
  comparison: `TrieModel.RootTextIsLeast` says exactly when the empty key's text is right,
  and `TrieModel.RootTextCanBeWrong` is a run in which it is not.
- Sums over 12 in the decoder come round to bits of the second byte; this repairs
  three double errors by accident (`Hamming.TwoErrorsInSecond`); `Hamming.TwoErrorsExactly`
  says which double errors are repaired at all.

Run `dafny verify dfyconfig.toml` to check the whole project.

## Model

| member | source | states |
|---|---|---|
| LinkedCells.LastCell | Operating Systems/Task2/priority_table.c:49-51 | walking the `urm` links from a chain's head ends at its last cell |
| PriorityTable.Table.Insert | Operating Systems/Task2/priority_table.c:38-68 | the new cell goes behind the last one of its own queue; no other queue changes; a priority above the top changes nothing |
| PriorityTable.Table.Remove | Operating Systems/Task2/priority_table.c:71-82 | exactly the first cell of one queue is dropped; an empty queue stays |
| PriorityTable.Table.GetHead | Operating Systems/Task2/priority_table.c:89-108 | the first element of the highest non-empty queue, or null exactly when every queue is empty |
| ThreadList.List.Add | Operating Systems/Task2/t_list.c:17-45 | append at the end of the list of all threads (creation order) |
| Scheduler.Scheduler.SoInit | Operating Systems/Task2/so_scheduler.c:38-64 | -1 exactly for too many devices, a zero quantum or a scheduler that exists; otherwise an empty scheduler |
| Scheduler.Scheduler.SoFork | Operating Systems/Task2/so_scheduler.c:182-309 | the linked heap (thread records, queues, list, current pointer) moves exactly as the state machine's fork: first thread runs at once, later ones are queued and the running thread is checked |
| Scheduler.Scheduler.SoWait | Operating Systems/Task2/so_scheduler.c:311-333 | same refinement for so_wait, for every number of devices; -1 and no change exactly for a device that is not accepted |
| Scheduler.Scheduler.SoSignal | Operating Systems/Task2/so_scheduler.c:335-370 | same refinement for so_signal, for every number of devices; the answer is the number of threads that were waiting for the device, -1 exactly for one that is not accepted |
| Scheduler.Scheduler.SoExec | Operating Systems/Task2/so_scheduler.c:372-376 | same refinement for so_exec |
| Scheduler.Scheduler.HandlerReturns | Operating Systems/Task2/so_scheduler.c:230-234 | same refinement for the end of a thread's function |
| Scheduler.Scheduler.GetThreadFromQueue | Operating Systems/Task2/so_scheduler.c:67-88 | the best queue's head is unlinked and runs; with all queues empty nobody runs |
| Scheduler.Scheduler.ComparePriorities | Operating Systems/Task2/so_scheduler.c:94-148 | the switch decision on the heap agrees with the state machine in every case |
| Scheduler.Scheduler.CheckScheduler | Operating Systems/Task2/so_scheduler.c:154-179 | consuming quantum (with unsigned wrap-around) and then deciding, on the heap |
| SchedulerSafety.StepOk | Operating Systems/Task2/so_scheduler.c:94-376 | every sound call keeps the ownership, quantum and priority invariant |
| SchedulerSafety.ExactlyOnePlace | Operating Systems/Task2/so_scheduler.c:67-88 | in every reachable state a live thread is exactly one of running, ready (once, in the queue of its own priority only) and blocked on a device; a finished one is none of these |
| SchedulerSafety.PriorityAndQuanta | Operating Systems/Task2/so_scheduler.c:113-129 | in every reachable state: no ready thread beats a running thread in state RUNNING, somebody runs while anybody is ready, and every ready or blocked thread holds a full initial quantum |
| SchedulerSafety.QuantumIsFixed | Operating Systems/Task2/so_scheduler.c:55-56 | no call changes the quantum or the number of devices |
| SchedulerSafety.GetThreadOk | Operating Systems/Task2/so_scheduler.c:73-84 | dispatching the best queue's head restores the whole invariant, and touches no thread that was not ready |
| SchedulerOrder.WakeAppendsWaiters | Operating Systems/Task2/so_scheduler.c:346-361 | a signal appends to each queue exactly the waiters of that priority, and clears exactly their device |
| SchedulerOrder.WaitersAreExact | Operating Systems/Task2/so_scheduler.c:352-356 | the waiters of a device and priority are exactly the threads waiting on it, each once, in creation order |
| SchedulerOrder.CountIsAllWaiters | Operating Systems/Task2/so_scheduler.c:357-369 | so_signal's answer is the number of threads moved over all six queues |
| SchedulerOrder.StepLaw | Operating Systems/Task2/so_scheduler.c:94-376 | the queue law of one call: what gained the processor left the front of its queue, what joined is at the back |
| SchedulerOrder.DispatchOrder | Operating Systems/Task2/so_scheduler.c:117-129 | over every run, the threads of one priority are dispatched in the order they were enqueued (dispatched ++ still queued == initially queued ++ enqueued) |
| RoundRobin.DispatchedExactly | Operating Systems/Task2/so_scheduler.c:94-179 | with r of the running quantum left, the i-th ready thread of the ring is dispatched after exactly r + i*q execs, never before, with a full quantum and the ring rotated |
| RoundRobin.Recurs | Operating Systems/Task2/so_scheduler.c:94-179 | from a fresh dispatch the whole state recurs after (ring size)*q execs, but for the ring's threads being marked RUNNING |
| RoundRobin.WithinTurn | Operating Systems/Task2/so_scheduler.c:164-178 | within its turn a thread keeps the processor |
| SchedulerSafety.DevicesMakeSound | Operating Systems/Task2/so_scheduler.c:42-55 | with 1 to 2^32 - 1 devices every call is sound, so the theorems over runs speak of every run |
| SchedulerLimits.DevicesAreChecked | Operating Systems/Task2/so_scheduler.c:316-318 | so_wait and so_signal refuse exactly the missing devices if and only if there is at least one device; with none they accept every unsigned number |
| SchedulerLimits.BlocksWithoutDevices | Operating Systems/Task2/so_scheduler.c:316-330 | with no device a thread still blocks, on a device that does not exist |
| SchedulerLimits.KeptExactlyWhen | Operating Systems/Task2/so_scheduler.c:311-370 | a call keeps the whole invariant if and only if it is sound: with no device at all, nobody waits on 2^32 - 1 (the mark for waiting on nothing), nor is it signalled while a thread in state WAITING carries that mark |
| SchedulerRuns.TwoPlaces | Operating Systems/Task2/so_scheduler.c:349-358 | with no device, four calls and a signal on 2^32 - 1 leave a thread running and ready at once |
| SchedulerLimits.WaitedIsNeverPreempted | Operating Systems/Task2/so_scheduler.c:113-115 | a thread that ever waited stays WAITING and keeps the processor under any number of execs |
| SchedulerLimits.BestRunsAfterCall | Operating Systems/Task2/so_scheduler.c:94-376 | exactly when each call (fork, wait, signal, exec, return) leaves a best thread running, if anybody runs: for exec, fork and signal, the running thread was in state RUNNING or neither the queues, the new thread nor the waiters hold anything better; always after an accepted wait and after a return |
| SchedulerRuns.PriorityInversion | Operating Systems/Task2/so_scheduler.c:323-330 | a run of five calls after which a ready thread of priority 5 is passed over for a running one of priority 1 |
| SchedulerLimits.HandsOverExactlyWhen | Operating Systems/Task2/so_scheduler.c:113-115 | exactly when each call takes the processor from the running thread; for exec, a RUNNING thread whose last unit is used up is replaced by an equal or better one, any other RUNNING thread only by a better one, and a WAITING thread never |
| SchedulerLimits.CallerChanges | Operating Systems/Task2/so_scheduler.c:94-376 | exactly what each call leaves of the record of the thread that makes it: one unit of quantum less (unsigned) for an exec or fork when anybody is ready, a full quantum when it is replaced, device, state and quantum for a wait, TERMINATED for a return, nothing else |
| SchedulerLimits.OthersStay | Operating Systems/Task2/so_scheduler.c:94-376 | exactly what each call does to every other thread: a signal clears the device of those it wakes, a thread dispatched for the first time becomes RUNNING, and nothing else changes |
| SchedulerLimits.NewThreadIs | Operating Systems/Task2/so_scheduler.c:262-282 | a fork adds exactly one thread, of the given priority with a full quantum and no device, READY or dispatched at once; no other call adds any |
| SchedulerLimits.RefusedCalls | Operating Systems/Task2/so_scheduler.c:255-259 | a refused call, or an exec with nobody ready, changes nothing at all |
| SchedulerLimits.QuantumAfterCall | Operating Systems/Task2/so_scheduler.c:164-178 | with a thread within its quantum, a call leaves the running thread with more than a quantum exactly when an exec or a fork finds its quantum already at 0, somebody ready, and does not hand over |
| SchedulerLimits.RunsWithinQuantum | Operating Systems/Task2/so_scheduler.c:154-179 | every state of a run has the running thread within its quantum if and only if no call of the run wraps |
| SchedulerLimits.ExpiredWraps | Operating Systems/Task2/so_scheduler.c:164-178 | an exec that uses up the quantum without handing over, whatever the rivals' priorities, is followed by one that starts a quantum of 2^32 - 1 |
| SchedulerRuns.QuantumCanWrap | Operating Systems/Task2/so_scheduler.c:164-178 | three calls from the initial state that wrap a quantum |
| Palindrome.MinNumberOfSwitches | Algorithms Programming/p1.py:1-18 | -1 exactly when no sequence of neighbour exchanges reaches a palindrome; otherwise the least number of exchanges that does |
| Palindrome.OneSwap | Algorithms Programming/p1.py:6-14 | one neighbour exchange changes the greedy count by at most 1 |
| Palindrome.NoFewer | Algorithms Programming/p1.py:1-18 | no sequence of exchanges to a palindrome is shorter than the greedy count |
| Palindrome.Attained | Algorithms Programming/p1.py:6-14 | some sequence of exactly that many exchanges reaches a palindrome |
| Palindrome.PalindromeIsFree | Algorithms Programming/p1.py:6-14 | a palindrome costs nothing and has at most one letter without a partner |
| Palindrome.CostIsFewest | Algorithms Programming/p1.py:1-18 | lower and upper bound together: the greedy count is the minimum |
| Palindrome.LoneCountsOddLetters | Algorithms Programming/p1.py:10-16 | the letters counted as having no partner are exactly the letters of odd number |
| Palindrome.PalindromeExists | Algorithms Programming/p1.py:15-18 | a palindrome is reachable if and only if at most one letter occurs an odd number of times |
| TuringMachine.Turing | Turing Machine/turing.c:14-74 | the in-place interpreter answers the error exactly when some turn of the run looks up an entry that is -1, and otherwise exactly when some turn enters one of the final states, with the tape that turn has written; it never leaves the tape or the matrix on a run that ends so |
| TuringMachine.RunEnds | Turing Machine/turing.c:53-64 | a run of k turns ends in the error, or with a tape t, exactly when one of its turns looks up -1, or writes t and enters a final state |
| TuringMachine.RunSplit | Turing Machine/turing.c:31-72 | runs compose |
| Comparator.Compares | Turing Machine/matrice.in:3-47 | on #u#v## with u, v binary words of one positive length the table's machine halts, on the tape and without an undefined entry, with all cells # but one: 0 if u > v as numbers, else 1 |
| Comparator.CompareWords | Turing Machine/turing.c:31-72 | the interpreter run on that table and tape answers without error and leaves that tape |
| Comparator.OtherTurns | Turing Machine/matrice.in:3-47 | the undefined entries are exactly those of state 0 on # and of state 14 on a bit; state 11 passes over bits to the left |
| Comparator.CompareEmptyWords | Turing Machine/matrice.in:3-5 | on two empty words (####) the interpreter answers the error |
| Comparator.MovesAreQuadratic | Turing Machine/matrice.in:3-47 | the exact number of moves is at most 2n^2 + 5n |
| Comparator.EqualRound | Turing Machine/matrice.in:3-47 | a round on equal bits erases both and takes exactly 2n + 5 moves |
| Comparator.DecidedEnd | Turing Machine/matrice.in:3-47 | unequal bits erase everything but the deciding bit of v |
| Comparator.EqualEnd | Turing Machine/matrice.in:3-47 | equal last bits leave a 1 |
| Comparator.FirstDifferenceDecides | Turing Machine/matrice.in:3-47 | u > v as numbers exactly when the first differing bit of u is 1 |
| Alphabet.EncodeKeepsOrder | Trie/src/implementation/Codifications.java:28-169 | on the alphabet the code is injective, at most 68 and keeps the order of characters |
| Alphabet.EncodeIsPlace | Trie/src/implementation/Codifications.java:28-169 | a character's code is its place in the alphabet, written out as a string, and 0 outside it |
| Alphabet.EncodeReachesAll | Trie/src/implementation/Codifications.java:28-169 | every number from 1 to 68 is the code of a character |
| TrieModel.NormalFormExactly | Trie/src/implementation/Trie2.java:38-41 | toCharArray of a Trie2 word reads it, in order, at exactly the places that hold none of - _ ( ); of a Trie1 word it is the word with A to Z made small |
| TrieModel.SameKeyExactly | Trie/src/implementation/TrieFunctions.java:73-83 | two words share a node if and only if these readings agree |
| TrieModel.LexicographicalOrderIsLeast | Trie/src/implementation/TrieFunctions.java:37-44 | the smaller of the two strings, whichever was stored first |
| TrieModel.KeyOrderIsWordOrder | Trie/src/implementation/Codifications.java:28-169 | paths compare as the normalised words do under String.compareTo |
| TrieModel.CountsAreExact | Trie/src/implementation/TrieFunctions.java:105-107 | after every run of add and remove, count is additions minus effective removals of the key, and fullWord holds exactly when it is positive |
| TrieModel.TextIsLeast | Trie/src/implementation/TrieFunctions.java:89-99 | for every non-empty key the stored string is the least original added since the count was last 0 |
| TrieModel.RootTextIsLeast | Trie/src/implementation/TrieFunctions.java:25-27 | for the empty key that holds if and only if the root was reset by a removal, or "" itself was added |
| TrieModel.RootTextCanBeWrong | Trie/src/implementation/TrieFunctions.java:25-27 | the run that adds "-" leaves the root's text "" |
| TrieModel.ListingIsUnique | Trie/src/implementation/TrieFunctions.java:119-147 | the sorted listing below a prefix is determined |
| TrieModel.ListingOfRun | Trie/src/implementation/TrieFunctions.java:236-280 | read against the history, a listing is exactly the keys below the prefix added more often than removed, in increasing order, each with the least word added since its count was last 0 |
| TrieModel.NextChild | Trie/src/implementation/TrieFunctions.java:142-144 | listing one more child keeps the listing complete and in order |
| Trie.TrieFunctions.constructor | Trie/src/implementation/TrieFunctions.java:25-27 | an empty trie: one root with text "" |
| Trie.TrieFunctions.Add | Trie/src/implementation/TrieFunctions.java:47-107 | on the linked nodes: the path of the normalised word is created as needed, its last node counts one more and keeps the smaller text; every other node keeps its content |
| Trie.TrieFunctions.Search | Trie/src/implementation/TrieFunctions.java:155-202 | the node at the end of the word's path, null exactly when there is none |
| Trie.TrieFunctions.Count | Trie/src/implementation/TrieFunctions.java:205-212 | the count stored for the word's key, 0 without a node |
| Trie.TrieFunctions.Remove | Trie/src/implementation/TrieFunctions.java:215-233 | one less, down to 0, where the text becomes "~" and the mark is cleared; no change without a node |
| Trie.TrieFunctions.WordsWithSamePrefix | Trie/src/implementation/TrieFunctions.java:119-147 | pre-order appends one text for each live key below the node, none twice, in increasing key order, and nrElements grows by that many |
| Trie.TrieFunctions.GetSortedElements | Trie/src/implementation/TrieFunctions.java:236-280 | the array holds exactly those texts for the prefix's key, and nrElements is 0 again |
| ShellGrammar.ParseIsCorrect | Operating Systems/Task1/parser.y:239-242 | the operator tree prints back to the line, left children bind at least as tightly as their parent and right children more tightly |
| ShellGrammar.GroupedIsUnique | Operating Systems/Task1/parser.y:239-242 | two such trees with the same line are equal |
| ShellGrammar.ParseIsTheOnlyTree | Operating Systems/Task1/parser.y:289-313 | the parse is the only tree of the ambiguous grammar with these properties |
| ShellGrammar.ParseByOperators | Operating Systems/Task1/parser.y:239-242 | the parse is the only tree of the line in which `|` has pipelines on the left and one command on the right, `&&` and `||` have no `;` or `&` on the left and a pipeline on the right, `&` has no `;` below and no `&` on the right, and `;` has no `;` on the right |
| ShellGrammar.ParseCutsAt | Operating Systems/Task1/parser.y:239-242 | a line is cut at its last `;`, without one at its last `&`, then at its last `&&` or `||`, else at its last `|` |
| ShellGrammar.GroupedExactly | Operating Systems/Task1/parser.y:239-242 | the binding strengths group exactly so |
| ShellGrammar.ParseOfPrinted | Operating Systems/Task1/parser.y:289-313 | parsing a printed tree gives it back exactly when it is grouped so |
| ShellTree.Command.Simple | Operating Systems/Task1/parser.y:112-125 | a leaf node whose simple command points up to it |
| ShellTree.Command.Bind | Operating Systems/Task1/parser.y:128-150 | the new node owns both trees, each child's up link points to it and everything below is as before |
| ShellTree.ReduceStack | Operating Systems/Task1/parser.y:295-313 | the reductions on linked nodes follow the reductions of the grammar, sharing no node |
| ShellTree.ParseLine | Operating Systems/Task1/parser.y:289-313 | the heap tree of a line is its parse, and every child's up link points to its one parent |
| ShellEval.EvalIsPieces | Operating Systems/Task1/cmd.c:552-613 | on every properly grouped tree parse_command runs the pieces between the `;` in order: a piece with `&` as one unit exactly once, any other as a left-to-right scan; with no `;` the final status is the same |
| ShellEval.ParsedLineMeansPieces | Operating Systems/Task1/cmd.c:552-613 | hence for every line: parsing then evaluating is scanning its pieces |
| ShellEval.EvalIsScan | Operating Systems/Task1/cmd.c:552-613 | on a properly grouped tree parse_command runs the same units in the same order as one left-to-right scan carrying the last status; with no `;` it has the same final status |
| ShellEval.ParsedLineMeansScan | Operating Systems/Task1/cmd.c:571-596 | hence for every line without `&`: parsing then evaluating is scanning (section 2.9.3 of the POSIX.1-2017 Shell Command Language) |
| Hamming.EncodedMessage | TCP server/server.c:310-324 | the filled buffer is the code of the text and its terminator: each two bytes carry the data at positions 3, 5, 6, 7 and 9 to 12 of the twelve, even parities over the positions with 1, 2, 4 and 8, and zeros in the four unused bits |
| Hamming.CodeExactly | TCP server/server.c:286-308 | a pair of bytes is the code of b if and only if its unused bits are 0, b stands at the data positions and all four parities are even |
| Hamming.AccusedExactly | TCP server/server.c:482-500 | the accused position is the number written in binary by the four parities |
| Hamming.DecodedMessage | TCP server/server.c:451-531 | the in-place correction and extraction give the decoded text for every payload |
| Hamming.ErrorDecides | TCP server/server.c:286-308 | what a flipped pair decodes to is the byte wrong by what the flips themselves decode to: an error pattern harms all bytes or none |
| Hamming.DecodesExactlyWhen | TCP server/server.c:451-531 | a received payload decodes to the text sent if and only if every block's error pattern is harmless |
| Hamming.OneErrorPerBlock | TCP server/server.c:451-531 | at most one wrong bit of the sixteen in every block is always repaired, unused bits included |
| Hamming.OneErrorIsHarmless | TCP server/server.c:502-513 | any single flip is harmless |
| Hamming.TwoErrorsInSecond | TCP server/server.c:502-513 | of two flips in the second byte exactly three patterns are repaired: those whose sum exceeds 12 and comes round to a parity bit |
| Hamming.TwoErrorsInFirst | TCP server/server.c:502-513 | two used flips in the first byte never are |
| Hamming.UnusedBitsDoNotMatter | TCP server/server.c:468-513 | the four unused bits have no influence on the decoded byte |
| Hamming.TwoErrorsExactly | TCP server/server.c:502-513 | of all patterns with two of the sixteen bits flipped, exactly those are repaired that flip an unused bit or are one of the three of the second byte |
| Hamming.OneErrorInEach | TCP server/server.c:502-513 | one used flip in each byte never is |
| Hamming.LinkFlipIsUndone | TCP server/link_emulator/link.c:305-308 | the one bit the link may flip never changes the decoded text |
| Hamming.Transmit | TCP server/server.c:310-531 | encode, flip at most one bit, decode: the message and its terminator come back |
| LinkQueue.Queue.Enqueue | TCP server/link_emulator/queue.c:7-24 | the linked queue holds its old contents and the new entry at the end |
| LinkQueue.Queue.Dequeue | TCP server/link_emulator/queue.c:26-49 | the oldest entry leaves; NULL and no change when empty |
| LinkQueue.Queue.Oldest | TCP server/link_emulator/link.c:195-196 | `last` carries the oldest entry |
| LinkModel.StepOk | TCP server/link_emulator/link.c:178-316 | every step of either thread keeps conservation, bound, spacing, window and punctuality, whatever the serialization, the delay and the clock |
| LinkModel.LinkIsFifo | TCP server/link_emulator/link.c:186-316 | in every interleaving, whatever the serialization, the delay and the clock: accepted == delivered ++ on the wire ++ buffered, in order; the buffer never exceeds its size; the message asserted at the dequeue is there |
| LinkModel.LinkIsPaced | TCP server/link_emulator/link.c:194-247 | in every interleaving, whatever the serialization S, the delay D and the clock: all finish times ever given are S apart, nothing leaves before start + S + D, and n > 1 messages on the wire satisfy (n-1)*S < S + D, as does a single one when S + D > 0 |
| LinkModel.TurnStarts | TCP server/link_emulator/link.c:186-187 | a turn of link_scheduler starts by reading the clock |
| LinkModel.SendsAllDue | TCP server/link_emulator/link.c:194-216 | it then sends exactly the messages that are due at the front of the wire, in order |
| LinkModel.WholeTurn | TCP server/link_emulator/link.c:219-252 | whatever the other thread does in between, the turn goes on to sample the buffer and decide, and takes its first message, onto the end of the wire with its start and finish time, if and only if one was there and crt_time >= idle_time; otherwise the wire stays |
| LinkModel.WholeForwarding | TCP server/link_emulator/link.c:288-316 | whatever the other thread does in between, a received message joins the end of the buffer, with its flip if there is one, if and only if there was space and it was not lost |
| LinkModel.WireBoundedExactly | TCP server/link_emulator/link.c:194-247 | with room in the buffer, (n-1)*S < S + D holds whenever the wire is not empty, in every run, if and only if S + D > 0 |
| LinkModel.SendsInOrder | TCP server/link_emulator/link.c:187-203 | while the clock is not set back, messages are sent at times that never decrease |
| LinkModel.DeliveredTexts | TCP server/link_emulator/link.c:305-308 | in every interleaving of the link and for the codec together, each message delivered decodes to the text sent in its place, in order |
| Link.Link.Receive | TCP server/link_emulator/link.c:288-292 | a received message is held by the forwarding thread |
| Link.Link.ReadClock | TCP server/link_emulator/link.c:187 | the scheduler's variables on the heap do what the protocol step says |
| Link.Link.SendTurn | TCP server/link_emulator/link.c:194-216 | one turn of the sending loop: the oldest message leaves exactly when it is due |
| Link.Link.SampleBuffer | TCP server/link_emulator/link.c:219-221 | sampling the buffer |
| Link.Link.Decide | TCP server/link_emulator/link.c:232-233 | the wire is booked exactly when something was sampled and it is idle |
| Link.Link.Take | TCP server/link_emulator/link.c:235-247 | from the linked buffer to the linked wire; the dequeued message is never NULL |
| Link.Link.CheckSpace | TCP server/link_emulator/link.c:294-308 | full or unlucky messages are dropped, others may have one bit flipped |
| Link.Link.Accept | TCP server/link_emulator/link.c:311 | the message enters the linked buffer |
| Adjustments.MinimumAdjustments | Algorithms Programming/p2.py:6-25 | the table's last cell is the least Levenshtein distance from the message to any sequence allowed by the versions |
| Adjustments.DistanceIsLeast | Algorithms Programming/p2.py:6-25 | the recursive distance is a lower bound on every sequence of insertions, deletions and replacements |
| Adjustments.DistanceIsReached | Algorithms Programming/p2.py:6-25 | and some sequence of that length exists |
| Adjustments.Neighbours | Algorithms Programming/p2.py:21-24 | neighbouring cells differ by at most 1, which is why a match may take the diagonal without a minimum |
| Adjustments.CellIsLowerBound | Algorithms Programming/p2.py:9-24 | no allowed sequence is closer than the cell says |
| Adjustments.CellIsAttained | Algorithms Programming/p2.py:9-24 | some allowed sequence is that close |
| Adjustments.FindSimilar | Algorithms Programming/p2.py:16-20 | the search answers whether some version has the symbol at the position |
| Wiring.MinimumLength | Algorithms Programming/p3.py:4-50 | the pins join unlike symbols, never twice and without crossing; they are a perfect matching exactly when the row is balanced, and then of the least total horizontal length, the sum of the prefixes' imbalances; on every row no matching has more links; each height is one above the highest link so far when the new link goes round it, else one above the previous link when nothing was opened since, else 1 |
| Wiring.NoShorterMatching | Algorithms Programming/p3.py:12-50 | no perfect matching, crossing or not, is shorter than the sum of the imbalances |
| Wiring.NoLargerMatching | Algorithms Programming/p3.py:12-50 | no matching has more links than the row has of the rarer symbol |
| Wiring.Largest | Algorithms Programming/p3.py:12-50 | the stack matching has exactly that many |
| Wiring.EnoughOver | Algorithms Programming/p3.py:12-50 | over every gap there are at least as many links as the imbalance there |
| Wiring.Pop | Algorithms Programming/p3.py:18-31 | linking with the last open symbol keeps the matching planar, accounted for and as long as the area |
| Wiring.Push | Algorithms Programming/p3.py:15-17 | opening a symbol keeps it too |
| Graphics.DrawLine | ATMEGA 324 Ultimate Tic Tac Toe/gfx.c:119-159 | the pixels drawn, in order, are one for each step along the longer side, at the rounded height |
| Graphics.EndpointsDrawn | ATMEGA 324 Ultimate Tic Tac Toe/gfx.c:125-158 | both endpoints are drawn, the one that is smaller along the longer side first, with one pixel for each step along it |
| Graphics.CloseToLine | ATMEGA 324 Ultimate Tic Tac Toe/gfx.c:144-158 | in the caller's coordinates every pixel is within half a pixel of the ideal line |
| Graphics.SidewaysExactly | ATMEGA 324 Ultimate Tic Tac Toe/gfx.c:144-158 | after k steps along, s sideways steps are drawn if and only if -dx <= 2*(s*dx - k*dy) < dx |
| Graphics.WithinHalf | ATMEGA 324 Ultimate Tic Tac Toe/gfx.c:144-158 | after k steps with s sideways steps 2*|s*dx - k*dy| <= dx |
| Graphics.Connected | ATMEGA 324 Ultimate Tic Tac Toe/gfx.c:144-158 | neighbouring pixels touch: none or one sideways step |
| Graphics.InsideTheBox | ATMEGA 324 Ultimate Tic Tac Toe/gfx.c:144-158 | no pixel leaves the box of the endpoints |
| Graphics.LineFits | ATMEGA 324 Ultimate Tic Tac Toe/gfx.c:119-158 | with 15-bit coordinates dx, dy and err stay within 16 bits |
| Circles.DrawCircle | ATMEGA 324 Ultimate Tic Tac Toe/gfx.c:28-62 | the pixels drawn, in order: four on the axes, then eight images of each visited point |
| Circles.NextKeeps | ATMEGA 324 Ultimate Tic Tac Toe/gfx.c:41-51 | a round keeps f == (x+1)^2 + y^2 - y - r^2 and nearness, moves one column and down at most one row; a point past the diagonal mirrors the one before |
| Circles.ArcIsNearest | ATMEGA 324 Ultimate Tic Tac Toe/gfx.c:41-60 | the i-th visited point (x, y) has x == i + 1 and y^2 - y <= r^2 - x^2 <= y^2 + y |
| Circles.ArcMissesNone | ATMEGA 324 Ultimate Tic Tac Toe/gfx.c:41-60 | no nearest point up to the diagonal is missed |
| Circles.OutlineIsExact | ATMEGA 324 Ultimate Tic Tac Toe/gfx.c:28-62 | a pixel is drawn if and only if its larger offset is the whole number nearest to the circle at its smaller one, for every r >= 1; for any other r if and only if it is one of the four on the axes |
| Circles.DecisionFits | ATMEGA 324 Ultimate Tic Tac Toe/gfx.c:32-51 | for r < 2^13 every value the loop computes stays within 16 bits |
| Circles.FillCircle | ATMEGA 324 Ultimate Tic Tac Toe/gfx.c:161-171 | the columns drawn, in order: the middle one, then four for each visited point |
| Circles.DrawFastVLine | ATMEGA 324 Ultimate Tic Tac Toe/gfx.c:18-26 | a column is filled from the top, one pixel a row |
| Circles.DiscFillsOutline | ATMEGA 324 Ultimate Tic Tac Toe/gfx.c:64-103 | for every r >= 0 a pixel is filled if and only if the outline has a pixel in its column at least as far from the middle row |

## Left out

- `Operating Systems/Task1/WINDOWS` and `Operating Systems/Task2/WINDOWS`: near copies over Win32 calls.
- Scheduler: semaphores, mutexes and their failures, malloc failures and so_end. A call is one atomic step and sem_post / sem_wait hand over the running role; races inside a call (for instance between the first thread and its creator in so_fork) are not modelled.
- Scheduler.Scheduler.SoWait: called by the running thread, as its first access to current_thread demands (so_scheduler.c:321); the same holds for so_signal and for a handler that returns.
- Scheduler.Scheduler.SoSignal: after a call that is not sound the heap still refines the step, but nothing is claimed about the calls that follow.
- RoundRobin.DispatchedExactly: for rings whose threads never waited and with nothing better ready; other cases have no fixed slicing, as the findings above show.
- TuringMachine.Turing: the loop has no bound of its own, so a ghost number of turns within which the run ends is assumed; symbols outside 0, 1 and # (for which the C code reuses a stale column), the 100-character buffer and reading the input file are not modelled.
- Trie.TrieFunctions.Add: every character is assumed to be in the 68-letter alphabet (others index outside the array); counts are unbounded where Java's int overflows; lower-casing is that of ASCII.
- Trie: file reading, commands and output (TrieMain, TestReader, TestWriter).
- Shell: the generated lexer and LALR tables (a stack parser with the %left strengths stands for them), redirections and their lists, word expansion, and all process work of cmd.c. The status of a simple command, a pipeline or a parallel group is a parameter.
- ShellEval.EvalIsPieces: the operands of `&` start in parallel, so a piece with `&` is one unit whose status is a parameter; no status is claimed for `;`, because `ret` is never assigned there (cmd.c:553-562).
- ShellEval: parse_command is a function over the tree; its NULL checks cannot fire on trees the parser builds.
- Link: sockets, usleep, parameter parsing, the reverse direction, and the condition wait; the assertion of link.c:272 is not claimed, since a message may arrive after the sample. Losses, flips and the clock are parameters.
- Hamming.EncodedMessage: for strings that hold no terminator inside, as in C.
- server.c: tokenising and the number-guessing games.
- Wiring.MinimumLength: the heights follow the code, but no purpose is claimed for them beyond what they are and their part in the returned number.
- Graphics.DrawLine: on unbounded integers; LineFits gives coordinates for which 16 bits are enough, as DecisionFits gives radii for circles.
- Circles.FillCircle: for radius at least 0 and both halves with no stretch, the only way it is called; colours and the display controller are not modelled.
- The rest of gfx.c, lcd.c and the tic-tac-toe game; the TCP chat, the kprobe tracer and Task Clusters: drawing text, I/O and simple counting.
