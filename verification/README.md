# Erasure codes, a concurrent transform and GF(2^n) arithmetic, in Dafny

This project models four parts of the gnetraid repository and proves what they are for.

1. **The online-code decoder** (`Net-OnlineCode/C`). `Peeling.dfy` gives the decoder as a state machine on values; the
   `Peeling*` modules prove its invariant, the order in which it works, and soundness and completeness over all runs.
   The class `OcGraphs.OcGraph` keeps the same state as the C code does, in arrays: bones carved out of one boneyard,
   rings of doubly linked cells in one arena, `v_count`, `top` and `solution` tables, and a pending queue. Every method
   of the class is proved to take the step of the state machine. `Expansion`, `Decoder`, `CodecValues`, `EmptyLists`,
   `Codec` and `CodecSession` add the lazy expansion of solutions, the values of blocks, and the encoder and decoder
   program on byte buffers.
2. **The PS3 pipeline** (`PS3-IDA/05-semaphore`). `Pipeline.dfy` has the state of reader, scheduler, SPEs, event thread
   and writer, and their atomic steps, for any number of slots, SPEs, mailbox places and event queue places.
   `PipelineInv` is the invariant, the other `Pipeline*` modules prove that every step keeps it and what follows for
   whole runs; `SchedulerRules` says which SPE gets which slot. `EventQueues` and `SchedulerThreads` have the circular
   queue and the scheduler's code on arrays, proved to do the scheduler's step. `PipelineFine`, `PipelineFineSteps` and
   `PipelineFineRuns` take this step apart into its accesses to shared memory, semaphores and mailboxes, let the other
   threads run between them, and prove that this makes no difference.
3. **Perpetual codes** (`Net-PerpetualCodes/C`). `Perpetual` has one turn of the pivot on values, over any field of
   characteristic 2; `Walks` and `PerpetualRuns` have calls and sequences of calls; `PerpetualBail` decides when the
   bound on turns loses packets. `PerpetualDecoder` is the pivot on the decoder's flat buffers, with the loops of
   `VecOps`. `SolverRows`, `SolverPivots`, `SolverEndings`, `BackSubstitution` and `SolverTheorems` are the solver on
   values, `PerpetualSolver` and `SolverRun` the same on buffers; `SolverFails` has messages that it does not find.
4. **GF(2^n)** (`old-gf2-experiments/fast_gf2.c`). A word is the set of positions of its 1 bits, so it is also a
   polynomial. `Gf2Poly` has the ring of polynomials, `Gf2Words` the bit-serial routines for any word size, `Gf2Field`
   the field, `LogExp` and `Gf2Tables` multiplication by logarithms, `Gf2Digits`, `Gf2Chunks` and `Gf2ChunkMul`
   multiplication by chunks. `ByteVectors`, `CharLoops` and `RabinIda` have the same arithmetic on vectors of bytes of
   any length (`old-gf2-experiments/rabin-ida.c`), `BitVec` the bit vectors of component 3, whose fields are given by
   their laws (`Fields`); `Gf2Field.WordsAreField` discharges these for words.

Where the code does not do what it is meant to do, the code is modelled as it is, and the exact condition under which it
does is proved:

- A perpetual decoder's call to the pivot gives up after `2 * gen - 1` turns and then drops what is left of the packet.
  With one or two coefficients nothing that could fill a row is ever lost; with three or more it can happen
  (`PerpetualBail.LossIff`, with the packets in `GivingUpLosesKnowledge`). The C function also falls off its end there,
  without a return value.
- The codec program treats an empty XOR list as an error. That happens exactly to an auxiliary block that was solved by
  its own rule and to which every message is mapped an even number of times (`EmptyLists.CancelsIff`, with a run in
  `EmptyListHappens`).
- Powers by logarithm table are wrong for 0 with an exponent that is a nonzero multiple of the group order, and in 16
  bits when the 32-bit product of logarithm and exponent overflows (`LogExp.Power`, with inputs in `PowerFails`).
- The table builder's check of the generator says nothing about the modulus: with a reducible one it may succeed and
  leave words without logarithms (`Gf2Tables.LoggedIff`, with an input for every word size in `CheckNeedsIrreducible`).
- The loop of the bit-serial inverse does not end unless the argument and the modulus have no factor in common
  (`Gf2Words.StopsIff`, with an input for every word size in `SharedFactor`).
- The inverse on vectors of bytes has no test for 1, for which it is wrong unless the modulus is one of two that have
  factors (`RabinIda.Gf2Invert`, `RabinIda.OneIsRight`, with 1 as the input for every other modulus with a constant term
  in `OneFails`).
- The shift of a vector of bytes counts bytes in a char, in two loops that are run when it shifts by 8 bits or more. It
  ends exactly if it shifts by fewer, or the vector has less than 256 bytes (`CharLoops.EndsIff`, with the smallest
  input in `ByteShiftGoesOn`). The inverse, which uses it, ends exactly if the argument and the modulus have no factor
  in common and, in vectors of 256 bytes or more, no shift on the way is by 8 bits or more (`RabinIda.InvertEndsIff`,
  with an input of either kind for every such length in `LongVectors`).
- In the solver for perpetual codes the loop over the diagonal is closed before the normalisation and the elimination
  that belong in it. As long as its counter suffices, the solver finds every message exactly if the rows of the reduced
  matrix can be put into an order in which they are unit upper triangular (`SolverPivots.SolverAlwaysRight`); for a
  single message `SolverEndings.SolverRightIff` has the condition. For two or more coefficients, whatever the field,
  there are packets that only one message satisfies and from which it is not found (`SolverFails.SolverLosesMessage`).
- The event numbers of the pipeline leave room for six SPEs; with more, a result is taken for an acknowledgement
  (`SchedulerThreads.SixSpesAtMost`).
- Back-substitution counts coefficients in a variable of the field's element type; it is right for all systems exactly
  when the counter has at least as many values as there are coefficients: in the 8-bit field, when alpha is at most 256
  (`SolverTheorems.CounterSuffices`).

How to read the parts that are less direct:

- `LogTraced`, `Caches`, `Inv`, `Sound` and the like are invariants; `Run(m, co, edges, es)` is the decoder after the
  events `es`, which are arrivals of check blocks, arrivals that found the boneyard full, and resolve calls.
- `Arrivals(es)` are the check lists that arrived; lists and the auxiliary map may repeat nodes, since the generator of
  check lists does not rule repetitions out.
- `Sound(h, n)` is the pipeline's invariant, with `n` the progress made in `h`; `RunSound` proves it for every reachable
  state, with the number of steps taken as `n`.
- `OcGraph.Valid` and `Inv` of the pipeline contain an impossible alternative, which keeps them one fact in proofs.
- In the lemmas about perpetual codes, `o` holds the operations of the field and `inv` its table of inverses; `step`
  names one turn of the pivot (`PerpetualRuns.TurnsExist` says that there is such a function), `ms` a message, column by
  column; `limit` is the number of values of the counter in back-substitution.

## Model

| member | source | states |
|---|---|---|
| OcGraphs.GraphInit | Net-OnlineCode/C/graph.c:141-342 | Initialisation fails exactly for sizes below 1 or a boneyard that is too small; otherwise the three passes over the auxiliary map leave the arrays in the state in which each auxiliary bone lists exactly the messages mapped to it, with multiplicity, then itself, and each count is the number of those messages |
| OcGraphs.OcGraph.CheckBlock | Net-OnlineCode/C/graph.c:346-396 | Installing a check block is refused exactly when nodes or boneyard run out; otherwise the arrays take the state machine's step, and the boneyard grows by the length of the list plus 2, so bones never overlap |
| OcGraphs.OcGraph.OcResolve | Net-OnlineCode/C/graph.c:555-715 | One resolve call on the arrays takes the state machine's resolve step, whatever is pending: same solved node, same done flag, and the representation of rings, bones and counts holds again |
| OcGraphs.OcGraph.NewBone | Net-OnlineCode/C/bones.c:9-24 | A bone is carved out of the boneyard or refused, exactly by the remaining room |
| OcGraphs.OcGraph.CreateNEdge | Net-OnlineCode/C/graph.c:78-108 | A new cell of the arena becomes the last of its node's circular list; nothing else changes |
| OcGraphs.OcGraph.DeleteLowerEnd | Net-OnlineCode/C/graph.c:111-139 | The cell leaves its circular list, and the count of its upper node goes down by one if asked, never below zero |
| OcGraphs.OcGraph.BubbleUnsolved | Net-OnlineCode/C/bones.c:153-178 | The chosen element changes places with the first one and the bone counts one unknown; the deletion loop after that does nothing |
| PeelingInvariant.ResolveKeeps | Net-OnlineCode/C/graph.c:555-715 | A resolve call keeps the invariant: counts of unsolved edges, rings of unsolved nodes, number of unsolved messages and pending queue agree with the graph; if it solves nothing, it is done or the queue is empty |
| PeelingInvariant.CascadeAssert | Net-OnlineCode/C/graph.c:435-467 | The assertion in the cascade never fails: every node reached from a newly solved one still counts an unsolved edge |
| PeelingOrder.CascadeOrder | Net-OnlineCode/C/graph.c:435-467 | A cascade lowers the count of each node by the number of times the ring has it, and appends to the queue, in the order of the ring, those that come down to one unsolved edge or none |
| PeelingOrder.ResolveServes | Net-OnlineCode/C/graph.c:555-715 | A call serves the first node of the queue where a rule fires and drops those before it: an unsolved auxiliary node without unsolved edges solves itself, a check block or solved auxiliary node with one unsolved edge solves that one; a newly solved auxiliary node is queued before what the cascade appends, and the last message empties the queue |
| PeelingInvariant.AuxRuleFound | Net-OnlineCode/C/graph.c:399-431 | When the auxiliary rule applies, the node is an unsolved element of its own bone and all others are solved, so the search for it succeeds |
| PeelingRuns.StepKeeps | Net-OnlineCode/C/graph.c:346-715 | Every event keeps the invariant of runs: each node is solved at most once, and each solution uses only check blocks and nodes solved before it, so solutions are acyclic |
| PeelingEquations.RunEquations | Net-OnlineCode/C/graph.c:346-396 | In every run, each bone still holds, in some order, exactly the equation it was made for |
| PeelingTheorems.PeelingSound | Net-OnlineCode/C/graph.c:399-467 | At every moment of every run, the solved nodes lie in every set closed under the propagation and auxiliary rules |
| PeelingTheorems.PeelingComplete | Net-OnlineCode/C/graph.c:555-691 | When a resolve call solves nothing and the decoder is not done, the solved nodes are exactly the least set closed under the two rules |
| PeelingTheorems.DoneMeansAllMessages | Net-OnlineCode/C/graph.c:637-676 | The done flag is set exactly when all messages are solved |
| PeelingTheorems.OrderIndependent | Net-OnlineCode/C/graph.c:555-691 | Two runs with the same check lists, in whatever order and with whatever resolve calls, have solved the same messages once each has settled |
| Expansion.ExpandValue | Net-OnlineCode/C/decoder.c:177-201 | Expanding solutions recursively keeps the XOR of a list, for every flag setting |
| Expansion.NodeRule | Net-OnlineCode/C/decoder.c:177-201 | A check block stays as it is, and so does a message or auxiliary block of a kind that the flags do not select; one that they select gives way to the expansion of the XOR list that solved it |
| Expansion.KeptList | Net-OnlineCode/C/decoder.c:177-201 | A list of nodes none of which the flags select is its own expansion |
| Decoder.Expander.Expandr | Net-OnlineCode/C/decoder.c:177-201 | The recursive walk over the bones ends, and calls back for exactly the nodes of the full expansion, in order |
| Decoder.OcExpansion | Net-OnlineCode/C/decoder.c:209-276 | Two walks, a sort and two scans give the ascending list of the nodes that occur an odd number of times, its length in front, for lists of every length |
| Decoder.ExpansionMeaning | Net-OnlineCode/C/decoder.c:177-276 | That list is ascending, holds exactly the nodes of odd multiplicity, only check blocks and blocks of kinds that the flags do not select, all solved earlier or received, and XORs to the value of the node |
| Decoder.UnexpandedList | Net-OnlineCode/C/decoder.c:209-276 | With no flags, which is the program's own setting, what is sorted is the list of the bone that solved the node, without the node itself |
| CodecValues.DecodingSound | Net-OnlineCode/C/graph.c:555-715 | For every message, auxiliary map, sequence of arrivals and resolve calls and flag setting, the XOR list of a solved node adds up to the true value of that block, from blocks available before it |
| EmptyLists.CancelsIff | Net-OnlineCode/C/codec.c:311-312 | The XOR list of a solved node is empty exactly if the node was solved by its own bone and every message is mapped to it an even number of times; then it is an auxiliary block with messages |
| EmptyLists.EmptyListHappens | Net-OnlineCode/C/codec.c:311-312 | A run of a code with two messages, the first mapped twice to an auxiliary block, in which that happens |
| Codec.EncodeAux | Net-OnlineCode/C/codec.c:191-206 | The encoder's cache holds for every auxiliary block the XOR of the messages mapped to it |
| Codec.EncodeCheck | Net-OnlineCode/C/codec.c:243-255 | The transmitted block is the XOR of the blocks in its list |
| CodecSession.Session.Accept | Net-OnlineCode/C/codec.c:275-283 | The copy of a check block runs past the cache exactly if the cache is full; otherwise caching and graphing it succeeds exactly if there is room, and keeps every cached block right |
| CodecSession.Session.DecodeNode | Net-OnlineCode/C/codec.c:301-379 | A solved block is computed from cached blocks only and stored at its place with the encoder's value; the only way to fail is an empty XOR list |
| CodecSession.Session.Drain | Net-OnlineCode/C/codec.c:287-383 | The inner loop ends; if it does not report that all is decoded, the solved nodes are the least closed set |
| CodecSession.RunCodec | Net-OnlineCode/C/codec.c:223-387 | The whole program: a text that it prints is the message, no graph is made exactly for bad sizes, and every other ending comes at its check block: the text after the first blocks from which peeling gives the message, the copy past the cache and the refusal by the graph at the first block that does not fit, all blocks before it being too few, an empty list after blocks from which some run gets to one, and more blocks are wanted only if all of them are too few |
| CodecSession.TextForced | Net-OnlineCode/C/codec.c:225-387 | If some first check blocks all fit and peeling them gives the message, and no XOR list comes out empty, the program prints the text |
| EventQueues.EventQueue.Push | PS3-IDA/05-semaphore/host.c:163-176 | The event joins the end of the queue; nothing in it is overwritten |
| EventQueues.EventQueue.Shift | PS3-IDA/05-semaphore/host.c:144-160 | The oldest event leaves the queue |
| SchedulerThreads.UnpackPack | PS3-IDA/05-semaphore/host.c:301-301 | Slot and value survive the packing into a 32-bit mailbox message |
| SchedulerThreads.DecodeCode | PS3-IDA/05-semaphore/host.c:645-649 | With at most six SPEs an event is recovered from its number and argument |
| SchedulerThreads.SixSpesAtMost | PS3-IDA/05-semaphore/host.c:371-391 | Events have different numbers exactly if there are at most six SPEs |
| SchedulerThreads.Scheduler.ScheduleTask | PS3-IDA/05-semaphore/host.c:273-313 | The scheduling code on arrays does the scheduling function of the model |
| SchedulerRules.TaskRule | PS3-IDA/05-semaphore/host.c:273-313 | A task is started exactly if its slot is ready, fewer tasks are at work than all mailboxes hold, and some mailbox has room; it goes to the SPE (next + i) % N for the least i with room there, the SPE after that one is next in turn, and else nothing changes |
| SchedulerRules.InTurn | PS3-IDA/05-semaphore/host.c:286-307 | Tasks scheduled one after the other, no more than there are SPEs and with room in all mailboxes, go to different SPEs: task j to the one j places after the next in turn, whose mailbox gets the slot and its value |
| SchedulerRules.ScanRule | PS3-IDA/05-semaphore/host.c:417-429 | After a result the slot scheduled is the first ready one after the slot of the result, going round the other slots; if none of them is ready, nothing changes |
| SchedulerThreads.Scheduler.HandleEvent | PS3-IDA/05-semaphore/host.c:350-521 | One turn of the scheduler's loop on arrays does the handling of one event in the model |
| PipelineTheorems.StepKeeps | PS3-IDA/05-semaphore/host.c:315-654 | Every step of every thread keeps the invariant, and counts as exactly one step of the run |
| PipelineTheorems.OutputInOrder | PS3-IDA/05-semaphore/host.c:560-592 | In every reachable state the output is the beginning of the input with the case of its letters changed, in input order, although SPEs finish out of order |
| Pipeline.SwappedIs | PS3-IDA/05-semaphore/spu-task.c:67-70 | A value whose low byte is a letter gets that letter in the other case; every other value, and the high byte, stay |
| Pipeline.SwappedLetters | PS3-IDA/05-semaphore/spu-task.c:67-70 | Upper-case letter k becomes lower-case letter k, and the other way round |
| PipelineTheorems.ReaderOverwritesNothing | PS3-IDA/05-semaphore/host.c:542-551 | When the reader stores an element, its slot is empty and no event about it is on its way |
| PipelineTheorems.ResultOverwritesNothing | PS3-IDA/05-semaphore/host.c:393-415 | When a result is filed, both its slots are reserved for it |
| PipelineTheorems.WorkIsConserved | PS3-IDA/05-semaphore/host.c:273-454 | The three counters count runnable, running and flushing slots, the work counter is the sum over mailboxes, no mailbox is asked to hold more than its depth, and a schedulable slot waits only when all mailboxes are full |
| PipelineTheorems.IdleMessages | PS3-IDA/05-semaphore/spu-task.c:28-77 | Each SPE has read or has waiting exactly one idle message for each round of the shutdown |
| PipelineTheorems.ShutdownInOrder | PS3-IDA/05-semaphore/host.c:433-521 | The first round starts exactly when input has ended and everything has been written; the error exits are not taken; when the acknowledgements are in, no SPE is running |
| PipelineTheorems.DeadlockFree | PS3-IDA/05-semaphore/host.c:315-654 | When no thread can take a step, all threads have returned |
| PipelineTheorems.RunLength | PS3-IDA/05-semaphore/host.c:315-654 | No run is longer than a complete one, and all complete runs are equally long |
| PipelineTheorems.EveryRun | PS3-IDA/05-semaphore/host.c:315-654 | For all parameters, inputs and interleavings: the output so far is the beginning of the input with the case of its letters changed, the event queue has not outgrown its room, the scheduler has not failed, and the run is no longer than 13 steps an element, 6 an SPE, and 4 |
| PipelineTheorems.EveryCompleteRun | PS3-IDA/05-semaphore/host.c:315-654 | A run that cannot go on has written the whole input with the case of its letters changed, all threads have returned, and its length is that number exactly |
| PipelineFine.PlanDoes | PS3-IDA/05-semaphore/host.c:350-521 | The accesses to shared memory, semaphores and mailboxes, in the order of the code, together do what the handling of the event does |
| PipelineFineRuns.FineRefines | PS3-IDA/05-semaphore/host.c:350-521 | When other threads run between these accesses, then with the rest of them done the state is the one that the same steps lead to when events are handled at once |
| PipelineFineRuns.EveryFineRun | PS3-IDA/05-semaphore/host.c:315-654 | In every such run the output so far is the beginning of the input with the case of its letters changed, and the scheduler has not failed |
| PipelineFineRuns.EveryCompleteFineRun | PS3-IDA/05-semaphore/host.c:315-654 | Such a run that cannot go on has written the whole input with the case of its letters changed, and all threads have returned |
| PipelineFineRuns.FineRunLength | PS3-IDA/05-semaphore/host.c:315-654 | There is a bound on the length of such runs |
| PipelineFineRuns.NeverBlocks | PS3-IDA/05-semaphore/host.c:296-308 | Whenever the scheduler is about to write to a mailbox, there is room in it |
| Perpetual.TurnKeeps | Net-PerpetualCodes/C/perpetual.c:177-281 | A turn of the pivot leaves the set of messages that satisfy all rows and the packet in hand unchanged; a packet is dropped only if the rows imply it; the failure needs rows and a packet that contradict each other |
| Perpetual.SwapNeverCancels | Net-PerpetualCodes/C/perpetual.c:208-254 | When the code cancels, no swap is needed, so a redundant packet leaves the rows as they were |
| PerpetualRuns.TurnRow | Net-PerpetualCodes/C/perpetual.c:190-254 | A turn that does not fail replaces the stored row that it meets, and its symbol, exactly if the packet has more zeros at the end, and no other row |
| PerpetualRuns.TrailingGrows | Net-PerpetualCodes/C/perpetual.c:190-231 | The number of zeros at the end of a stored row never falls |
| PerpetualRuns.PivotKeeps | Net-PerpetualCodes/C/perpetual.c:177-283 | What a whole call does to the set of possible messages and to the number of empty rows, for each way it can end |
| PerpetualRuns.ReceiveKeeps | Net-PerpetualCodes/C/perpetual.c:153-283 | For packets of one message the failure exit is never taken, the message stays possible, and if no packet was lost, the rows say exactly what the packets said |
| PerpetualRuns.EndsIfShort | Net-PerpetualCodes/C/perpetual.c:177-282 | If a row is empty and at most 2 * gen coefficients are left, not counting zeros at the ends of rows, the call does not give up |
| PerpetualRuns.NoGivingUp | Net-PerpetualCodes/C/perpetual.c:177-282 | No call gives up while few enough rows are in use, or ever while a row is empty if there are one or two coefficients |
| PerpetualBail.GivingUpLosesKnowledge | Net-PerpetualCodes/C/perpetual.c:177-283 | For every field, three or more coefficients and four or more elements: packets of one message, received by an empty decoder, after which a wrong message satisfies all rows though a row is still empty |
| PerpetualBail.LossIff | Net-PerpetualCodes/C/perpetual.c:177-283 | Packets can be lost while a row is empty exactly if three or more coefficients are combined |
| PerpetualDecoder.PerpDecoder.Pivot | Net-PerpetualCodes/C/perpetual.c:153-283 | The pivot on flat buffers does the model's walk: same end, same rows, same result, and the same packet in hand when it gives up |
| VecOps.FamWithSwap | Net-PerpetualCodes/C/gf8.c:62-82 | The fused loop leaves the scaled sum in the destination and, on a swap, the old destination in the source |
| SolverRows.UnfoldedMeans | Net-PerpetualCodes/C/perpetual.c:321-339 | A wrapped row unfolded to full width is the same equation |
| SolverRows.SweepMeans | Net-PerpetualCodes/C/perpetual.c:356-365 | Clearing a column with a row of the decoder leaves the equation of the swept row satisfied by the same messages among those that satisfy the decoder's row |
| SolverRows.SweptClears | Net-PerpetualCodes/C/perpetual.c:347-372 | Forward propagation leaves zeros in all columns that it has dealt with |
| SolverRows.ReducedMeans | Net-PerpetualCodes/C/perpetual.c:347-385 | What is left of a row is an equation in the last alpha elements, equivalent to the decoder's row given the rows above |
| PerpetualSolver.Unfold | Net-PerpetualCodes/C/perpetual.c:321-339 | The copying loops lay out every row of the matrix as the unfolded row |
| PerpetualSolver.Forward | Net-PerpetualCodes/C/perpetual.c:347-372 | The nested loops sweep every row, and its symbol, with all first rows; the symbols of those stay |
| PerpetualSolver.Compact | Net-PerpetualCodes/C/perpetual.c:380-385 | Copying the last alpha columns to the front of the same buffer never overwrites a cell that is still to be read |
| PerpetualSolver.Reduce | Net-PerpetualCodes/C/perpetual.c:321-385 | The three stages together leave the reduced matrix at the front of the buffer, with its symbols |
| PerpetualSolver.Restore | Net-PerpetualCodes/C/perpetual.c:459-466 | The part of the square matrix right of the diagonal is written back over the last rows, padded with zeros |
| PerpetualSolver.BackSubstitute | Net-PerpetualCodes/C/perpetual.c:468-494 | The nested loops on buffers do the model's back-substitution, with its counter |
| BackSubstitution.RestoredMeans | Net-PerpetualCodes/C/perpetual.c:459-466 | A row of a unit upper triangular matrix, written back, is the same equation |
| BackSubstitution.BackSolves | Net-PerpetualCodes/C/perpetual.c:468-494 | A complete system of which no row wraps round is satisfied by one message only, the one that back-substitution leaves in the symbols |
| SolverPivots.ArrangeIff | Net-PerpetualCodes/C/perpetual.c:389-457 | The exchanges of rows end with a unit upper triangular matrix exactly if the rows can be put into an order in which they are one |
| SolverEndings.Endings | Net-PerpetualCodes/C/perpetual.c:389-457 | Said of the matrices that the exchanges go through, with the first row that has a coefficient in the column as the pivot: step 2 goes on exactly if every column has a pivot and the last coefficient on the diagonal is 1, multiplies past the last symbol exactly if every column has one and that coefficient is not 1, and exits at column k exactly if the columns before have pivots and no row from k on has a coefficient there |
| SolverEndings.SolverRightIff | Net-PerpetualCodes/C/perpetual.c:321-494 | A message that satisfies all rows of a complete decoder is what the solver ends with exactly if such exchanges lead to a matrix with a pivot in every column and 1 as the last one, of which what is left on and below the diagonal, but for the ones on it, does not matter for this message |
| SolverPivots.SolverDecides | Net-PerpetualCodes/C/perpetual.c:321-494 | If the rows of the reduced matrix can be arranged to be unit upper triangular, a message satisfies all rows of the complete decoder exactly if the solver ends with it |
| SolverPivots.SolverAlwaysRight | Net-PerpetualCodes/C/perpetual.c:321-494 | With given coding vectors the solver finds every message exactly if the rows of the reduced matrix can be so arranged |
| SolverFails.Receivable | Net-PerpetualCodes/C/perpetual.c:177-186 | Every complete set of rows is what an empty decoder ends with when it receives them as packets |
| SolverFails.SolverLosesMessage | Net-PerpetualCodes/C/perpetual.c:321-494 | For every field and two or more coefficients, packets received by an empty decoder that one message only satisfies, and that the solver does not find |
| SolverRun.MakeDiagonal | Net-PerpetualCodes/C/perpetual.c:389-457 | The loop over the diagonal on buffers, with the scratch row and the exchange of symbols element by element, ends as `Endings` says: no pivot in column k, a multiplication past the last symbol, or the exchanged rows and symbols |
| SolverRun.Solve | Net-PerpetualCodes/C/perpetual.c:300-497 | The whole solver on its buffers comes to the end that `Endings` says of the reduced matrix, and leaves the model's symbols if it returns |
| SolverTheorems.CounterSuffices | Net-PerpetualCodes/C/perpetual.c:474-492 | Back-substitution recovers the message from all such systems exactly if its counter can count to alpha |
| Gf2Words.LongModMultiply | old-gf2-experiments/fast_gf2.c:33-50 | For every word size, modulus and operands, the bit-serial loop gives the word that is congruent to the product |
| Gf2Words.LongModInverse | old-gf2-experiments/fast_gf2.c:298-323 | For 0, 1 and every x without a factor in common with the modulus, the loop ends, no shift loses a bit but the implicit one, and the result times x is 1 |
| Gf2Words.StopsIff | old-gf2-experiments/fast_gf2.c:313-321 | The loop of the inverse ends exactly if x and the modulus have no factor in common |
| Gf2Words.SharedFactor | old-gf2-experiments/fast_gf2.c:313-321 | For every word size of at least 2, a modulus and a word for which the loop does not end |
| Gf2Field.WordsAreField | old-gf2-experiments/fast_gf2.c:33-50 | Words modulo an irreducible polynomial are a field with 2^n - 1 nonzero elements |
| Fields.GeneratorOrder | old-gf2-experiments/fast_gf2.c:659-676 | If no power of g below the last one is 1, then g generates all nonzero elements |
| Gf2Tables.InitM3 | old-gf2-experiments/fast_gf2.c:623-679 | The builder fills both tables; it accepts exactly the nonzero generators none of whose early powers is 1, and otherwise reports the first that is |
| Gf2Tables.Accepted | old-gf2-experiments/fast_gf2.c:623-679 | For an irreducible modulus, an accepted g has order exactly 2^n - 1, and the tables are those of the field |
| LogExp.LogExpInverse | old-gf2-experiments/fast_gf2.c:650-676 | The two tables are inverse to each other on nonzero elements |
| LogExp.Mul | old-gf2-experiments/fast_gf2.c:688-691 | Multiplication by table is multiplication, also by 0 with its negative logarithm |
| LogExp.Inv | old-gf2-experiments/fast_gf2.c:693-697 | Inversion by table is inversion, and maps 0 to 0 |
| LogExp.Div | old-gf2-experiments/fast_gf2.c:699-702 | Division by table times the divisor is the dividend |
| LogExp.Power | old-gf2-experiments/fast_gf2.c:1223-1226 | Powers by table are right exactly if the product of logarithm and exponent, in 32 bits, is one that the tables serve |
| LogExp.PowerFails | old-gf2-experiments/fast_gf2.c:704-707 | Inputs at which they are wrong: 0 to the power 255 in 8 bits, 1 to the power 40000 in 16 bits |
| Gf2Tables.MulM3 | old-gf2-experiments/fast_gf2.c:686-691 | Building the tables and multiplying with them gives the bit-serial product |
| Gf2Tables.LoggedIff | old-gf2-experiments/fast_gf2.c:659-676 | With an accepted generator, all nonzero words have logarithms exactly if the modulus is irreducible |
| Gf2Tables.CheckNeedsIrreducible | old-gf2-experiments/fast_gf2.c:659-676 | For every word size of at least 2, a reducible modulus and a generator that the builder accepts |
| Gf2Digits.ProductOfValues | old-gf2-experiments/fast_gf2.c:1978-2019 | The polynomial whose chunks are the sums of products along antidiagonals is the product |
| Gf2Chunks.StraightMultiply | old-gf2-experiments/fast_gf2.c:221-240 | The unreduced product of two words, in a word of twice the size |
| Gf2Chunks.ShiftedIs | old-gf2-experiments/fast_gf2.c:1555-1568 | Shifting by a byte and adding the table entry for the byte that leaves is multiplication by x^8 |
| Gf2ChunkMul.ProductTable | old-gf2-experiments/fast_gf2.c:1718-1757 | Every entry of a multiplication table is the straight product of its indices |
| Gf2ChunkMul.ShiftTable | old-gf2-experiments/fast_gf2.c:1718-1757 | Every entry of the shift table reduces the byte that has left the word |
| Gf2ChunkMul.U32MulM1 | old-gf2-experiments/fast_gf2.c:1766-1795 | 16-bit by 8-bit chunks: the result is the bit-serial product, for every modulus and operands |
| Gf2ChunkMul.U32MulM2 | old-gf2-experiments/fast_gf2.c:1859-1903 | 8-bit chunks: the same; the early shifts, which are not reduced, lose nothing |
| Gf2ChunkMul.U32MulM3 | old-gf2-experiments/fast_gf2.c:1978-2019 | 4-bit by 8-bit chunks: the same |
| Gf2ChunkMul.U16MulM7 | old-gf2-experiments/fast_gf2.c:1555-1568 | 16-bit words in 8-bit chunks: the same |
| Gf2ChunkMul.U16MulM8 | old-gf2-experiments/fast_gf2.c:1654-1677 | 16-bit words in 4-bit by 8-bit chunks: the same |
| ByteVectors.ShiftedValue | old-gf2-experiments/rabin-ida.c:382-398 | Moving the bits of a vector of bytes to the left with carries shifts the word that the bytes make, for any number of bytes |
| CharLoops.EndsIff | old-gf2-experiments/rabin-ida.c:400-429 | The two loops over bytes, through which one char counts, end exactly if the shift is by less than 8 bits or the vector has less than 256 bytes |
| CharLoops.ByteShiftGoesOn | old-gf2-experiments/rabin-ida.c:400-429 | A shift of 256 bytes by 8 bits does not end; one byte or one bit less, and it does |
| ByteVectors.VectorShiftLeftMany | old-gf2-experiments/rabin-ida.c:400-429 | Every shift that ends, by whole bytes with the char and then bit by bit, is the shift of the word |
| ByteVectors.VecShl | Net-PerpetualCodes/C/bit_vec.c:41-78 | The shift that puts each byte together from two, in place, is the shift of the word |
| RabinIda.VectorSizeInBits | old-gf2-experiments/rabin-ida.c:351-380 | The size of the word that the bytes make |
| RabinIda.Gf2Multiply | old-gf2-experiments/rabin-ida.c:473-511 | For every number of bytes, modulus and operands, the loops over bytes and bits give the product modulo x^(8 bytes) + poly |
| RabinIda.GoingOn | old-gf2-experiments/rabin-ida.c:550-562 | Every turn of the inversion loop keeps what it needs and makes the words smaller, so the loop ends, for 1 as well |
| RabinIda.OneIsRight | old-gf2-experiments/rabin-ida.c:541-562 | What the loop makes of 1 is 1 for two moduli only, x^n and x^n + x^(n - 1) |
| RabinIda.OneFails | old-gf2-experiments/rabin-ida.c:541-562 | For every modulus with a constant term, 1 has no factor in common with it, and the result for 1 is wrong |
| RabinIda.InvertEndsIff | old-gf2-experiments/rabin-ida.c:514-571 | The call ends exactly if x and the modulus have no factor in common and, in vectors of 256 bytes or more, no shift on the way is by 8 bits or more |
| RabinIda.LongVectors | old-gf2-experiments/rabin-ida.c:514-571 | Modulo x^n + 1 and for every length from 256 bytes on, the call for 1 does not end, and the call for x^(n - 1) does |
| RabinIda.Gf2Invert | old-gf2-experiments/rabin-ida.c:514-571 | Whenever the call ends, 0 is rejected and otherwise the result on buffers is the inverse exactly if x is not 1 or the modulus is one of those two |
| BitVec.VecClz | Net-PerpetualCodes/C/bit_vec.c:9-17 | The zeros before the first bit and the size of the word make up the length, for every vector that is not zero |
| BitVec.VecCtz | Net-PerpetualCodes/C/bit_vec.c:25-38 | The position of the lowest bit, for every vector that is not zero |
| BitVec.LosesNothing | Net-PerpetualCodes/C/bit_vec.c:41-78 | A shift to the left loses nothing exactly if it is by no more bits than there are zeros before the first bit |
| BitVec.SkipOne | Net-PerpetualCodes/tests/codec.pl:736-738 | Counting the zeros and shifting by one more drops the first bit and nothing else |

## Left out

- PipelineFineRuns.FineRefines: a push to the event queue and the taking of an event from it are single steps, and the
  scheduler's own variables, which no other thread looks at, change when it takes the event.
- BackSubstitution.BackSolves: the 16-bit signed indices of the solver are not modelled; they limit gen to 32768.
- SchedulerThreads.Scheduler.HandleEvent: read and write errors and failing mailbox writes are not modelled.
- CodecSession.RunCodec: the block lists, drawn at random by the program, are inputs. What happens after a copy past the
  end of the array of check blocks is not modelled.
- SolverRun.Solve: what happens after the multiplication past the last symbol is not modelled.
- OcGraphs.GraphInit: the sizes that the code computes in floating point are inputs; the auxiliary map is a list of
  pairs instead of a matrix with a fixed number of columns; the NULL and fudge checks are not modelled.
- Gf2ChunkMul.ProductTable: memory allocation and its failures are not modelled.
- Overflow of the decoder's `int` counters and of the signed shift of a byte to the top of a word is ignored.
- The link that an auxiliary bone stores for itself is treated as null; the code never follows it.
- The free lists of graph.c, its instrumentation, and the compilation without stepping.
- The reader's index starts at 0; the C variable is not initialised. The terminating NUL is sent like any other
  element.
- `event_queue_unshift` and `event_queue_pop`, which the program does not use.
- The library sort in `oc_expansion` is the function `Sort`.
- The random generators, the choice of code parameters, printing, and the Perl glue.
- The inverse tables and methods 1 and 2 for 8 bits, methods 1, 2 and 4 to 6 for 16 bits of fast_gf2.c.
- RabinIda.VectorSizeInBits: the 256 entries of the table of sizes are not listed; an entry is taken to be the size
  of its byte.
- CharLoops.EndsIff: chars are unsigned; with signed ones the table of sizes could not be read either.
- The matrices and streams of rabin-ida.c.
- gf16_32.c repeats `Gf2ChunkMul.U16MulM8`, `Gf2ChunkMul.U32MulM3` and `Gf2Words.LongModInverse` with two moduli and
  with its tables as constants, whose entries are not listed here.
