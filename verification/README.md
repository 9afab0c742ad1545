# CPU schedulers and the slice protocol, modelled and proved in Dafny

The repository's first project runs a workload of (ready time, execution time) processes under one
of four policies. A scheduler process keeps a logical clock, forks each process at its ready time,
and hands the CPU out in *slices*: it writes a length to a child's pipe, raises the child to
priority 99, and the child counts the slice off and either exits or drops to 97. A slice ends at
the next arrival, at the end of a quantum, or when the process is finished. The second project
copies a file over a socket, page by page.

This project models both and proves what they are for.

* `Sorting.dfy`, `Jobs.dfy`: the contract of `qsort` (any sorted permutation), workloads, and the
  finishing clock B_k = max(B_(k-1), r_k) + e_k, with its closed form and its independence of ties.
* `Traces.dfy`, `Schedules.dfy`: schedules as one process per time unit, logs of slices, and the
  invariant *clock + outstanding work = B_k* which makes all four schedulers end at the same clock.
* `Optimality.dfy`: shortest remaining time first completes, at every clock value, at least as many
  processes as any other preemptive schedule, and has the least sum of completion times.
* `Psjf.dfy`: the preemptive scheduler over its three-segment pointer array, in 32-bit arithmetic.
* `RoundRobin.dfy`, `ReadyRing.dfy`, `Rr.dfy`: round robin one unit at a time; the circular
  doubly-linked list on the heap as a queue; and the event-driven loop, which refines the former
  using the latter.
* `NonPreemptive.dfy`, `Fifo.dfy`, `Sjf.dfy`: the procedures FIFO and SJF share, and the two loops.
* `Protocol.dfy`, `Execution.dfy`: parent and children as a step machine under SCHED_FIFO
  (section 2.8.4 of the System Interfaces volume of POSIX.1-2017), and the proof that every
  scheduler's log, with its forks, is carried out by it: to the last wait, or into the deadlock.
* `Transfer.dfy`, `Streaming.dfy`: the send and receive loops of the second project, and sender,
  stream and receiver as a step machine in which they interleave.

A trace entry t names the process that runs during [t, t + 1), so slices and idle gaps tile the time
up to the final clock by construction. Processes are named by their position in ready order; since
the initial sort is not stable, that order is any sorted permutation, and `FinalClock` is shown not
to depend on which. Execution times may be 0 for FIFO, SJF and PSJF. In round robin a process of
execution time 0 is handed no slice and then waited for; `Rr.Rr` returns `hung` and the process
there, `hung` is shown to happen exactly when the workload has such a process, and
`Execution.HangIsCarriedOut` shows that the processes, having carried out everything before, end in
a state in which nobody can step. Where zero-length slices are dispatched (PSJF with several
arrivals at once) they are in the log, and they are dispatched by the protocol machine too. Each
slice of a log also says how many processes have been forked when it is handed out. Besides
what a whole log achieves, each scheduler's theorem says what every single entry is, given the log
before it (`Psjf.AllDecided`, `Fifo.InTurn`, `Sjf.AllChosen`, `Rr.Eventful`), so that zero-length
slices and the number of forks in between are determined too.

The mapped receiver of the second project does not always rebuild the file: a receipt after a short
one cannot be mapped. `Transfer.MappedExactly` and `Streaming.MappedOutcome` say exactly when the
result is right, and `Streaming.MappedCanFail` gives runs in which it is not.

Every lemma is marked `{:induction false}`: each proof shows its own induction.

## Model

| member | source | states |
|---|---|---|
| Jobs.BusyUntilClosedForm | prj1/fifo.c:125-135 | B_k is the maximum over j < k of r_j + e_j + ... + e_(k-1), attained |
| Jobs.TiesDoNotMatter | prj1/psjf.c:143 | two ready orders of the same workload, however ties are broken, have the same finishing clock |
| Jobs.FinalClockBound | prj1/psjf.c:203-208 | the finishing clock is at most the latest ready time plus all the work |
| Jobs.InReadyOrder | prj1/rr.c:130 | the initial sort gives a ready-ordered permutation of the input whose B_n is the input's `FinalClock` |
| Sorting.SortSegment | prj1/psjf.c:197-198 | sorting part of an array permutes that part, sorts it, and leaves the rest alone |
| Traces.ExtendShortest | prj1/psjf.c:197-208 | running the process with the least left while nobody arrives keeps every unit a shortest-first unit |
| Traces.Backlog | prj1/psjf.c:157-227 | for any feasible, work-conserving trace: clock + outstanding admitted work = B_k, or nothing is outstanding and B_k is past |
| Traces.Makespan | prj1/fifo.c:125-135 | a work-conserving schedule that finishes everything no later than B_n finishes exactly at B_n |
| Schedules.WithinBacklog | prj1/psjf.c:203-208 | the clock plus the remaining time of any admitted process never exceeds B_n |
| Schedules.RunSlice | prj1/rr.c:156-160 | a slice for a forked process within its remaining time, with nobody becoming ready inside it, keeps the log a schedule, reduces that process alone, and retires it exactly when the slice is all it has left |
| Schedules.IdleSlice | prj1/rr.c:143-149 | idling to the next ready time with every admitted process finished keeps the schedule work-conserving and within B_n |
| Schedules.ForkedWhenReady | prj1/psjf.c:160-175 | in every log, whoever is forked between two slices is forked at a clock value equal to its ready time |
| Optimality.KeepSmallest | prj1/psjf.c:63-72 | among best choices of dropped positions there is one that keeps the smallest positive entry |
| Optimality.ServiceKeeps | prj1/psjf.c:197-225 | one unit at the smallest positive entry of one vector and at most one unit anywhere in the other keeps the first dominating |
| Optimality.ArrivalKeeps | prj1/psjf.c:160-186 | the same arrivals added to both vectors keep the domination |
| Optimality.ShortestFirstCompletesMost | prj1/psjf.c:157-227 | at every clock value a shortest-first schedule has completed at least as many processes as any other feasible schedule |
| Optimality.ShortestFirstMinimizesTotal | prj1/psjf.c:157-227 | its sum of completion times is the least of all complete feasible schedules |
| Optimality.CountedBothWays | prj1/psjf.c:157-227 | the time processes spend unfinished, summed by process and summed by time unit, is the same |
| Psjf.SortStep | prj1/psjf.c:197-199 | any permutation of the ready segment sorted by remaining time keeps the loop invariant and puts a least one at its head |
| Psjf.AdmitStep | prj1/psjf.c:162-175 | moving the boundary of the ready segment past the next process, due now, keeps the invariant |
| Psjf.IdleStep | prj1/psjf.c:188-194 | idling to the next arrival keeps the invariant |
| Psjf.Exact | prj1/psjf.c:123-124 | unsigned addition and subtraction of 32-bit values: exact if they do not wrap, off by 2^32 if they do |
| Psjf.SliceIsShortest | prj1/psjf.c:203-209 | the head of the sorted segment has the least left of all arrived processes for the whole slice, and when a positive slice starts the next process still to be admitted is not ready yet |
| Psjf.SliceStep | prj1/psjf.c:203-226 | after the slice the three segments, the remaining times and the schedule are right again; clock + remaining time stays within B_n |
| Psjf.IdleExact | prj1/psjf.c:190-192 | the unsigned wait time and the advance of the clock do not wrap |
| Psjf.SendToChild | prj1/psjf.c:108-125 | the record loses exactly the slice and the clock gains exactly the slice, because neither operation wraps; the pipe write and the priority change are `Protocol.Hand` |
| Psjf.SliceTime | prj1/psjf.c:203-210 | the slice reaches exactly to the next arrival or to the end of the process, with no wrap in the comparison |
| Psjf.HeadIsChosen | prj1/psjf.c:197-210 | the head of the sorted segment has the least left of everybody forked and not retired, also when its slice has length zero |
| Psjf.Choose | prj1/psjf.c:197-210 | the sort and the slice decision lead to a slice after which the invariant holds again, with no wrap in what follows; the slice, of whatever length, goes to a process with the least left of all forked and not retired, and ends with it or with the next arrival |
| Psjf.ServeHead | prj1/psjf.c:197-226 | sort, dispatch and retirement take a state satisfying the invariant to the one after that slice, and make progress |
| Psjf.Iterate | prj1/psjf.c:157-227 | the loop body keeps the invariant and makes progress; it admits exactly one process if one is due and none otherwise, and has exactly one slice, of length zero if another one is due, or one gap if everybody forked is retired |
| Psjf.Psjf | prj1/psjf.c:127-231 | for every workload whose finishing clock is below 2^32: a complete schedule ending at `FinalClock` in which every process is handed its last slice, shortest first in every unit, optimal against every other schedule, in at most 2N iterations; every entry of the log, zero-length slices included, is the one decided by the log before it, with at most one process forked per entry |
| RoundRobin.RunJump | prj1/rr.c:150-184 | k undisturbed units of the front process and one jump of k units lead to the same state and trace |
| RoundRobin.IdleJump | prj1/rr.c:143-149 | the same for an empty queue |
| RoundRobin.BoundedWaiting | prj1/rr.c:150-184 | the process at position i >= 1 is at the front with a whole turn of 500 units within remain + (i - 1) * 500 units, remain being at most 500, whatever arrives later |
| RoundRobin.ArrivalsJoinLast | prj1/rr.c:135-171 | at every clock value those who join are behind everybody else, a process whose turn ended at that moment included, and in ready order among themselves |
| RoundRobin.FrontRuns | prj1/rr.c:156-175 | the process at the front is the one run in the next unit |
| RoundRobin.WorkersAlways | prj1/rr.c:163-184 | with execution times of at least 1 everybody in the queue has work left, at all times, and nobody is queued twice |
| RoundRobin.TurnAccounting | prj1/rr.c:132-181 | at all times: ended turns of a process with work left total 500 units each, the current one has used 500 - remain of its 500, and a finished process took t turns with 500 * (t - 1) < e <= 500 * t |
| RoundRobin.TurnsCover | prj1/rr.c:9 | the number of turns needed is the least whose 500 units each cover the execution time |
| RoundRobin.RunAccounted | prj1/rr.c:158-181 | a slice of any length up to the turn and the work keeps those accounts |
| RoundRobin.TurnsBounded | prj1/rr.c:135-185 | the turns taken never total more than the turns needed, `TurnsFor(e)` each |
| ReadyRing.AddList | prj1/rr.c:86-99 | a fresh node joins as the last of the circle, which stays linked both ways without repetitions |
| ReadyRing.RemoveList | prj1/rr.c:100-111 | the entry node leaves; the rest stays one circle, entered at its successor |
| ReadyRing.Rotated | prj1/rr.c:171 | the same links, entered one node later, are the circle of the rotated list |
| ReadyRing.Ring.constructor | prj1/rr.c:133 | no ring is the empty queue |
| ReadyRing.Ring.Add | prj1/rr.c:140 | adding appends to the queue |
| ReadyRing.Ring.Remove | prj1/rr.c:182 | removing drops the front of the queue |
| ReadyRing.Ring.Advance | prj1/rr.c:171 | advancing moves the front of the queue to its end |
| Rr.JoinStep | prj1/rr.c:137-142 | admitting one due process keeps the invariant, including agreement with the unit-by-unit policy |
| Rr.IdleStep | prj1/rr.c:143-149 | so does idling to the next arrival |
| Rr.RunStep | prj1/rr.c:150-184 | so does a positive slice, whichever of its three ends it has |
| Rr.IterationInv | prj1/rr.c:135-185 | a whole iteration keeps the invariant and makes progress within N + the sum of the turns needed, and keeps the log eventful, or comes to wait for a forked process that has no work and has been handed nothing |
| Rr.RunCurrent | prj1/rr.c:150-184 | the four-way decision on ring, counters and remaining times computes exactly the slice and the state after it, and blocks exactly when nothing is left to run |
| Rr.SliceEndsAtEvent | prj1/rr.c:69-72 | a slice that is handed out is not empty, has at most 500 units, and ends at an arrival, at the end of the turn or at the end of the process |
| Rr.JoinIfDue | prj1/rr.c:137-142 | at most one process joins per iteration, at the end of the ring |
| Rr.Iterate | prj1/rr.c:135-185 | the loop body on the heap computes the iteration function |
| Rr.Rr | prj1/rr.c:113-188 | the slices, unit by unit, are those of the one-unit round robin; none is empty and each ends at an arrival, after 500 units of the turn or with its process; it hangs if and only if some execution time in the workload is 0, at a process that was handed nothing; otherwise it is a complete schedule ending at `FinalClock`; at most N + the sum of the turns needed iterations |
| NonPreemptive.WaitLoop | prj1/fifo.c:79-85 | the counting loop stops at the next ready time, or at once if somebody is ready |
| NonPreemptive.ExecuteFork | prj1/fifo.c:45-68 | exactly the processes due now are admitted |
| NonPreemptive.WaitInv | prj1/sjf.c:90-96 | waiting keeps the invariant |
| NonPreemptive.ForkInv | prj1/sjf.c:56-79 | admitting due processes keeps the invariant |
| NonPreemptive.AssignInv | prj1/sjf.c:98-119 | a slice keeps the split of the array into finished, ready and not-arrived, the remaining times and the schedule |
| NonPreemptive.SliceIsCut | prj1/fifo.c:70-77 | with everybody due forked, the slice ends with its process or at the next arrival |
| NonPreemptive.SortInv | prj1/sjf.c:138-144 | rearranging the ready segment, or the part of it behind a started job, keeps the array a permutation of the processes and the invariant |
| NonPreemptive.Arrivals | prj1/fifo.c:126-127 | after waiting and forking somebody is ready and the next arrival is in the future |
| NonPreemptive.Assign | prj1/fifo.c:87-108 | the slice goes to the entry at `index`, which moves on exactly when nothing is left |
| NonPreemptive.Serve | prj1/fifo.c:129-134 | starting and serving the entry leads to the state after the slice, keeps the invariant and makes progress |
| Fifo.SliceOrder | prj1/fifo.c:87-108 | a slice keeps the order of service, the recorded ends and the B the current process is heading for |
| Fifo.EndsNow | prj1/fifo.c:102-107 | the slice that uses a process up ends it at the new clock value and no earlier |
| Fifo.SliceInTurn | prj1/fifo.c:87-108 | each slice, of whatever length, goes to the first process in ready order that has not been retired |
| Fifo.Fifo | prj1/fifo.c:111-142 | a complete schedule ending at `FinalClock`, every process handed its last slice; every entry of the log is decided by the log before it: the first unretired process, to its end or to the next arrival, or a gap when all forked are retired; the i-th recorded end is B_(i+1) and is when the process is done; at most 2N iterations |
| Sjf.RightChoice | prj1/sjf.c:138-144 | a process that starts is a shortest one among all arrived, unfinished ones |
| Sjf.SliceFollows | prj1/sjf.c:98-119 | serving the entry at `index` never interrupts a started job |
| Sjf.SliceIsChosen | prj1/sjf.c:134-147 | a slice, of whatever length, goes to the process in progress, or else to one with the least left of all forked and not retired |
| Sjf.SortReady | prj1/sjf.c:138-144 | the partial sort keeps a job in progress in place and otherwise brings a shortest one to `index` |
| Sjf.BatchIsShortestFirst | prj1/sjf.c:34-43 | for equal ready times a non-preemptive shortest-first schedule is shortest remaining time first |
| Sjf.Sjf | prj1/sjf.c:121-154 | a complete schedule ending at `FinalClock`, every process handed its last slice, every entry of the log decided by the log before it, never interrupting a started job, always starting a shortest one, in at most 2N iterations; if all ready times of the workload are equal it is optimal among all schedules, preemptive ones included |
| Protocol.RunsAreSafe | prj1/child.c:13-36 | in every run: a free parent agrees with every live child on its remaining time, at most one child is at 99, a pipe holds at most one slice, only the child being waited for has exited, only a child at 99 ever runs, and the parent never sleeps; for the priorities 97 and 98 see `Protocol.PriorityTellsHistory` |
| Protocol.PriorityTellsHistory | prj1/child.c:30-31 | in every run a child is at 97 only after it has counted, and at scanf, unless dispatched, it is at 97 if it has and at the inherited 98 if it has not |
| Protocol.ForkStep | prj1/rr.c:40-62 | a free parent may fork any child; it starts at scanf with the parent's record as its time, at 98, at the tail of the list behind the parent |
| Protocol.RaiseKeepsOrder | prj1/rr.c:79-84 | a raised child is alone at 99 and those it leaves keep their order |
| Protocol.YieldJoinsTail | prj1/child.c:30-32 | a child that yields goes to the tail of the list of 97 |
| Protocol.SliceWakesChild | prj1/psjf.c:119-121 | a slice written to a child asleep in scanf puts it at the tail of the list of its priority |
| Protocol.ExitWakesParent | prj1/rr.c:175-176 | a child that exits wakes a parent asleep in wait, which can then collect it |
| Protocol.WaitWithoutChildReturns | prj1/rr.c:175-176 | waiting without any child is over at once, and nothing else can happen there |
| Protocol.StepInv | prj1/psjf.c:108-125 | every step of parent or child keeps the invariant |
| Protocol.WriteInv | prj1/psjf.c:119-121 | writing a slice keeps it |
| Protocol.RaiseInv | prj1/rr.c:79-84 | raising the child's priority keeps it |
| Protocol.RunInv | prj1/child.c:13-36 | a step of the dispatched child keeps it |
| Protocol.WaitFinds | prj1/rr.c:175-176 | when the parent waits, exactly the child it dispatched last has exited: it neither sleeps nor finds itself without children |
| Protocol.ExitsOnLastSlice | prj1/child.c:25-28 | a child exits exactly on the slice after which the parent waits for it, and on every other drops to 97 with the time the parent has on record |
| Protocol.Hand | prj1/psjf.c:119-124 | writing a slice and raising the child to 99 leave that child alone at 99 and the parent's record reduced by the slice |
| Protocol.CountsDown | prj1/child.c:19-23 | each step of the dispatched child brings the parent's turn closer by exactly one |
| Protocol.SliceRuns | prj1/child.c:13-36 | a dispatched child gives control back after its slice, having changed nobody else |
| Protocol.DispatchRuns | prj1/fifo.c:87-108 | a whole dispatch leaves the parent free with its record reduced by the slice, the child gone exactly if nothing is left, and otherwise at 97 with that time |
| Protocol.WaitWithoutDispatchDeadlocks | prj1/rr.c:69-72 | waiting for a live child when nobody has been dispatched leads to a state in which the parent is asleep, no child has changed and nobody can step |
| Execution.LogIsCarriedOut | prj1/psjf.c:157-227 | every log of a scheduler is carried out by one run of the protocol; before each slice exactly the processes the log says have been forked, each at its ready time by `Schedules.ForkedWhenReady`; at the end each child's time is what the log leaves it and the retired ones have been waited for |
| Execution.CompleteIsCarriedOut | prj1/psjf.c:204-226 | a complete schedule of any of the schedulers is carried out to a state in which every child has exited and been waited for, with nothing left on record |
| Execution.HangIsCarriedOut | prj1/rr.c:173-176 | where round robin hangs, the log so far is carried out, and the wait then leads to a state in which the parent is asleep and nobody can step |
| Execution.SliceIsCarriedOut | prj1/rr.c:69-85 | one slice, or idle gap, leads between states that match the log before and after it |
| Transfer.SendCopied | prj2/src/sample/user_program/master.c:61-66 | the pieces sent are the file, all but the last of 4096 bytes and the last of 1 to 4096 |
| Transfer.ReceiveCopied | prj2/src/sample/user_program/slave.c:53-60 | the file written is the stream, however it was cut, and `file_size` its length |
| Transfer.SendMapped | prj2/src/sample/user_program/master.c:68-92 | the pieces sent are the file, all but the last of 4096 bytes and the last of 1 to 4096, the same as by copying (`Transfer.SplitsOneWay`); an empty file, and no other, fails |
| Transfer.SplitsOneWay | prj2/src/sample/user_program/master.c:61-91 | a file can be cut into full pages and a last piece in one way only, so both modes send the same pieces |
| Transfer.ReceiveMapped | prj2/src/sample/user_program/slave.c:61-92 | the loop computes the receiver function: every piece is mapped exactly when all but the last are full pages, otherwise it stops behind the first short piece, the file extended by as many bytes as the next one, all 0 but a final byte 48; the file is the stream if and only if the pieces are rebuildable |
| Transfer.MappedExactly | prj2/src/sample/user_program/slave.c:68-91 | the mapped file is the stream if and only if all pieces but the last are full pages, or only the last cannot be mapped and it is zeros followed by the byte 48 |
| Transfer.MappedIsStream | prj2/src/sample/user_program/slave.c:68-91 | while all pieces but the last are full pages the file is the stream, `offset` is its length, and it is a multiple of the page size exactly if the last is full too |
| Transfer.MappedStops | prj2/src/sample/user_program/slave.c:78-84 | at the first piece behind a short one the receiver stops for good, with the file extended by zeros and the byte 48 and `offset` left behind |
| Streaming.CopiedRunsAreSafe | prj2/src/sample/user_program/slave.c:53-60 | in every state of every interleaved run, however the stream is cut, the receiver's file is a prefix of the sender's, and at the end of the stream they are equal |
| Streaming.MappedRunsAreSafe | prj2/src/sample/user_program/slave.c:61-92 | in every state of every run by mmap: the receiver has stopped exactly if a receipt before the last was short; otherwise its file is a prefix of the sender's with `offset` its length, and equal at the end |
| Streaming.MappingsAreAligned | prj2/src/sample/user_program/slave.c:80-89 | at every receipt of every run the offset is a multiple of 4096, and so can be mapped, exactly if all earlier receipts had 4096 bytes |
| Streaming.MappedOutcome | prj2/src/sample/user_program/slave.c:61-92 | when the receiver's loop is over its file is the sender's if and only if the whole file was received, in rebuildable pieces |
| Streaming.MappedCanFail | prj2/src/sample/user_program/slave.c:78-84 | runs in which a file sent in one piece and received in two short ones comes out different |
| Streaming.StepInv | prj2/src/sample/user_program/master.c:61-92 | every step of sender or receiver keeps: received bytes followed by bytes in flight are exactly what has been read from the file |
| Streaming.StepsMoveByPages | prj2/src/sample/user_program/master.c:61-92 | one step of any run takes nothing from the sender's file, or 4096 bytes, or the rest if that is less, and gives the receiver nothing or a piece of 1 to 4096 bytes |
| Streaming.AnyCut | prj2/src/sample/user_program/slave.c:56 | in every run any number of bytes on their way, up to 4096, may be what the receiver gets next |
| Streaming.SenderIsFree | prj2/src/sample/user_program/master.c:61-98 | in every run the sender can take its next step whatever the receiver does |
| Streaming.RunsAreShort | prj2/src/sample/user_program/master.c:61-98 | every run ends, after at most twice as many steps as the file has bytes, and two |
| Streaming.SomebodyCanStep | prj2/src/sample/user_program/slave.c:53-98 | until the receiver's loop is over somebody can step, except that an empty file is never sent by mmap |

## Left out

- The calls to fork, exec, pipe, dup2, fcntl, waitpid and sched_setscheduler themselves and their error exits: only their effect on lists, pipes and child states is modelled, and they succeed.
- Busy-wait loops, wall-clock stamps (`gettime`, `print_result`) and everything printed: only the logical clock is kept, so the start stamps and the output at the end are not modelled.
- Reading the workload and choosing the policy (`prj1/main.c`, the `scanf` calls): the workload is given, with ready and execution times that are not negative.
- Signed overflow in rr.c, sjf.c and fifo.c: their clocks are unbounded integers here, and stay within `FinalClock`.
- Rr.Rr: after `hung` nothing is said about the processes still to come, because the wait never returns.
- Psjf.SendToChild: updates the record and the clock only, because the pipe write and the priority change are steps of the protocol machine (Protocol.Hand); the start stamp is not kept.
- The loop of child.c is a step function, not a method with a loop, because what matters is how its steps interleave with those of the parent.
- Pointers into the process array of psjf.c are indices into it, and removed list nodes of rr.c are unlinked but not freed.
- More than one CPU: the protocol relies on a single one, as the priorities do.
- Protocol.NoChild: a wait without any child returns and the parent carries on, as in rr.c, fifo.c and sjf.c; psjf.c exits there. Protocol.WaitFinds shows that it does not come to that.
- Transfer.ReceiveMapped: the mapping is the device page and mmap fails only for a zero length or an unaligned offset; disk errors are not modelled. A sender that fails on an empty file neither sends nor closes.
- The kernel modules of prj2, the address conversions in ksocket.c, and `prj1/child2.c`, `prj1/p.c`: thin wrappers, or not built.
