# Verification of iridium_acars

A model in Dafny 4.11 of the parts of iridium_acars whose correctness is not obvious from reading one function, and
proofs about it. `dafny verify dfyconfig.toml` checks everything.

The system receives Iridium satellite bursts. Samples go through a burst detector, demodulated frames through error
correction and checksums, bursts through two layers of reassembly, and worker threads pass all of it along blocking
queues. Output is JSON.

- **Blocking queue and fair lock** (`Ring`, `FairLock`, `LockValue`, `LockRefinement`, `QueueProtocol`, `QueueSafety`,
  `QueueSteps`, `QueueTheorems`, `QueueThreads`, `QueueProgress`, `QueueAsync`, `QueueCalls`). The ring buffer and the
  linked queue of lock requests are objects changed in place, and the linked lock refines the lock as a value. The
  protocol is a step relation over threads with program counters, in which a step is a critical section of a fair lock
  or a stretch between two of them, and inductive invariants carry the theorems: elements leave in the order they
  came, a single condition variable serves both sides without tests being repeated after a wake-up, statuses are
  honest, the locks are fair, add and poll never wait, and calls and closing end.
- **Error correction** (`Gf2`, `Gf2Division`, `Bch`, `BchSyndromes`, `BchDistance`, `LinkControl`, `Words`, `Chase`,
  `ChaseOrder`, `Payload`, `PayloadTheorem`, `PayloadPrefix`, `PayloadDecoder`). Polynomials over GF(2) with division,
  syndrome tables against searches by brute force, the distance of the two codes in use from the arithmetic of the
  field with 32 elements, soft decoding and which codeword it finds, and the payload codec from data words over
  interleaving and bit errors back to data words, and for any bits up to the first failure.
- **Checksums** (`Crc`, `Kermit`, `CrcCheck`). CRC-CCITT and CRC-16/Kermit as remainders of polynomials.
- **Burst detector** (`BurstSpec`, `BurstSelection`, `BurstLifetime`, `BurstDetection`, `BurstFloor`, `BurstRun`,
  `SampleRing`, `BurstLoops`, `BurstDetector`). A frame as a function of the detector's value, and as a law about the
  magnitudes, the rows of the history and the threshold alone; invariants over runs; independence of how the stream is
  cut into feeds and batches; and the object with its buffers, ring included, that computes it.
- **JSON** (`Json`, `JsonParse`, `JsonGrammar`, `JsonComplete`, `JsonRfc`, `JsonSound`, `JsonRoundTrip`,
  `JsonPrinter`, `JsonReader`, `ItemList`). A grammar apart from the parser: all of RFC 8259 is read, and exactly the
  larger grammar of `JsonGrammar.Reads`; what is printed is JSON, and is read back; the printer and the parser as
  objects with moving offsets; and the linked child list under edits.
- **Reassembly** (`Chains`, `IdaReassembly`, `IdaDelivery`, `SbdReassembly`, `SbdPackets`, `SbdDelivery`). Packets as
  bytes; slot tables over whole runs, with the events each message came from, and what is delivered when nothing
  disturbs a message.
- **Matrix inversion** (`GaussJordan`). Gauss-Jordan elimination over the reals, on rows changed in place.

Where operations change state, a function or relation on values specifies them and a class or method in the source's
own form is proved to compute it; the theorems are about the former. `Options` holds the usual optional value.

Points where the code decides against its description:

- The comment of the matrix inversion says "-1 if singular". The threshold on the pivot also refuses invertible
  matrices, such as `GaussJordan.SmallIsRefused` gives. `GaussJordan.CommentMetIff` says on which inputs the comment
  is met, in terms of the columns of the elimination, and `GaussJordan.Invert` that it never succeeds on a singular
  one.
- The table for the third part of the link control word is built for two errors in 26 bits, which its polynomial can
  tell apart in at most five (`LinkControl.SeparatesIff`, `LinkControl.TwoErrorsIff`). `LinkControl.NineIsMistaken` is
  an input, and `Bch.TakenBackIff` says for each error whether it is taken back.

## Model

| member | source | states |
|---|---|---|
| Ring.EnqueueAppends | iridium-sniffer/blocking_queue.h:351-356 | on a ring that is not full, `enqueue` gives a valid ring whose contents are the old ones followed by the element |
| Ring.DequeueTakesOldest | iridium-sniffer/blocking_queue.h:358-365 | `dequeue` hands out the first of the contents and keeps the others in order, also when front and rear wrap |
| Ring.GrowKeepsContents | iridium-sniffer/blocking_queue.h:380-400 | copying a full ring into twice the cells changes neither the elements nor their order, and leaves room |
| Ring.Buffer.constructor | iridium-sniffer/blocking_queue.h:292-306 | a valid empty ring of the capacity, or of one cell for a boundless queue |
| Ring.Buffer.Enqueue | iridium-sniffer/blocking_queue.h:351-356 | the buffer in place becomes the enqueued ring; only its cells and fields change |
| Ring.Buffer.Dequeue | iridium-sniffer/blocking_queue.h:358-365 | the element returned is the first of the contents and the others stay in order; the cells do not change |
| Ring.Buffer.CopyCells | iridium-sniffer/blocking_queue.h:387-392 | `memcpy`: the cells copied and all others as they were |
| Ring.Buffer.Grow | iridium-sniffer/blocking_queue.h:380-400 | the buffer in place becomes a ring of twice the cells with the same contents, and has room |
| FairLock.FairLock.constructor | iridium-sniffer/fair_lock.h:198-211 | a new lock is free, with nobody waiting, empty entry queue and empty pool |
| FairLock.FairLock.TakeEntry | iridium-sniffer/fair_lock.h:123-134 | an entry off the pool, or a new one when the pool is empty; the queue is left alone |
| FairLock.FairLock.EnqueueEntry | iridium-sniffer/fair_lock.h:122-150 | the linked queue gets the new entry last, marked weak or not and not abandoned, taken from the pool if that has one, and stays linked and disjoint from the pool |
| FairLock.FairLock.DequeueEntry | iridium-sniffer/fair_lock.h:152-167 | the first entry is unlinked, or null for an empty queue; the rest keep their order |
| FairLock.FairLock.ReleaseEntry | iridium-sniffer/fair_lock.h:169-172 | the entry goes to the head of the pool |
| FairLock.FairLock.VisitEntry | iridium-sniffer/fair_lock.h:178-193 | one turn of the loop: a weak entry is unlinked, marked abandoned and signalled, a strong one stays linked |
| FairLock.FairLock.ScanEntries | iridium-sniffer/fair_lock.h:175-193 | after the pass exactly the strong entries are linked, in their order; exactly the weak ones are marked and signalled |
| FairLock.FairLock.AbandonWeakLocks | iridium-sniffer/fair_lock.h:174-196 | the entry queue becomes its strong entries in order, exactly the weak ones are marked and signalled, and the count of waiting threads drops by their number |
| FairLock.FairLock.Attempt | iridium-sniffer/fair_lock.h:225-239 | a weak request while those are blocked is refused; else it is granted at once exactly when the lock is free and nobody waits, or queued behind all others and counted |
| FairLock.FairLock.Resume | iridium-sniffer/fair_lock.h:239-252 | the entry goes back to the pool; an abandoned caller is refused, otherwise it has the lock and leaves the count of waiting threads |
| FairLock.FairLock.Unlock | iridium-sniffer/fair_lock.h:262-274 | the lock is free and the first queued entry, if any, is taken off and signalled |
| FairLock.FairLock.BlockWeakLocks | iridium-sniffer/fair_lock.h:276-282 | weak requests are blocked; exactly those queued are abandoned and signalled, and the count of waiting threads drops by their number |
| LockRefinement.Begin | iridium-sniffer/fair_lock.h:198-211 | a new linked lock stands for the initial value |
| LockRefinement.Ask | iridium-sniffer/fair_lock.h:225-239 | the linked lock refuses, grants or queues a request as the value does, and again stands for the value, entry by entry |
| LockRefinement.Wake | iridium-sniffer/fair_lock.h:239-252 | a signalled thread gets the lock exactly when the value hands it to that thread; otherwise it was abandoned and the value does not change |
| LockRefinement.Unlock | iridium-sniffer/fair_lock.h:262-274 | unlocking signals the entry of the request the value hands the lock to |
| LockRefinement.BlockWeak | iridium-sniffer/fair_lock.h:276-282 | the entries left linked are those of the requests the value keeps |
| LockRefinement.AllowWeak | iridium-sniffer/fair_lock.h:284-289 | weak requests are let in on both sides |
| LockValue.EnterOrdered | iridium-sniffer/fair_lock.h:225-239 | a new request keeps the history in order: requests served, handed over and queued follow arrival with the abandoned ones left out |
| LockValue.TakeOrdered | iridium-sniffer/fair_lock.h:239-252 | taking a lock that was handed over keeps that order |
| LockValue.ReleaseOrdered | iridium-sniffer/fair_lock.h:262-274 | handing the lock to the first in the queue keeps that order |
| LockValue.BlockOrdered | iridium-sniffer/fair_lock.h:276-282 | abandoning the queued weak requests removes exactly those from the order |
| QueueSafety.InitInv | iridium-sniffer/blocking_queue.h:241-320 | the invariant holds of a new queue with every thread outside |
| QueueSteps.CheckKeeps | iridium-sniffer/blocking_queue.h:424-449 | testing `closed` and the capacity, growing, or blocking the weak requests of its own side keeps the invariant |
| QueueSteps.MoveKeeps | iridium-sniffer/blocking_queue.h:460-466 | signalling and adding or taking an element, without testing again after a wake-up, keeps the invariant |
| QueueSteps.CloseLoopKeeps | iridium-sniffer/blocking_queue.h:322-340 | each turn of the closing loop keeps the invariant |
| QueueSteps.UnlockFairKeeps | iridium-sniffer/fair_lock.h:262-274 | releasing a fair lock and handing it over keeps the invariant |
| QueueSteps.StepKeeps | iridium-sniffer/blocking_queue.h:402-537 | every step of every thread keeps the invariant: locks, mutex, elements, blocking, program counters and closing |
| QueueTheorems.RunInv | iridium-sniffer/blocking_queue.h:402-537 | the invariant holds in every state of every interleaving of put, add, take, poll and close |
| QueueTheorems.FirstInFirstOut | iridium-sniffer/blocking_queue.h:402-537 | in every state of every run the elements delivered, followed by the contents of the ring, are exactly those added, in order |
| QueueCalls.StatusTellsMoves | iridium-sniffer/blocking_queue.h:402-537 | over every run a call returns 0 exactly when one move of that thread lies in it, adding the element a producer brought or handing out the one a consumer returns; BQ_FULL, BQ_EMPTY and BQ_CLOSED calls move nothing |
| QueueCalls.OnlyMovesMove | iridium-sniffer/blocking_queue.h:460-466 | the elements added and delivered change in moves alone, and in every move |
| QueueThreads.StepThread | iridium-sniffer/blocking_queue.h:402-537 | what every step of every thread does to any thread: where it may be next, that only waiting threads are changed by others, and that a refusal is taken at the limit |
| QueueTheorems.CapacityKept | iridium-sniffer/blocking_queue.h:402-473 | a bounded queue never holds more than its capacity |
| QueueTheorems.ClosedIsFinal | iridium-sniffer/blocking_queue.h:322-340 | once closed it stays closed and nothing is added, delivered or moved |
| QueueTheorems.WaitersAreAtLimit | iridium-sniffer/blocking_queue.h:431-457 | in every state of every run an unsignalled waiting producer means full, a waiting consumer empty, and at most one thread waits on the shared condition variable |
| QueueTheorems.NoRecheckNeeded | iridium-sniffer/blocking_queue.h:450-457 | in every state of every run a woken caller that does not see `closed` finds room or an element, and a thread handed a fair lock finds it free |
| QueueTheorems.BlockedIsAtLimit | iridium-sniffer/blocking_queue.h:431-463 | in every state of every run weak requests of producers are blocked only while the queue is full, those of consumers only while it is empty |
| QueueTheorems.MutualExclusion | iridium-sniffer/fair_lock.h:225-274 | in every state of every run at most one thread holds each fair lock and the mutex |
| QueueTheorems.ServedInOrder | iridium-sniffer/fair_lock.h:122-289 | over every run the requests served and waiting are in order of arrival with exactly the abandoned ones removed, and `waiting_threads` counts the queue and the hand-over |
| QueueTheorems.NoOvertaking | iridium-sniffer/fair_lock.h:225-274 | in every state of every run, when a request was served every earlier one that was not abandoned was served before |
| QueueProgress.RefusalIsHonest | iridium-sniffer/blocking_queue.h:412-463 | a call turned away as full or empty found the queue full or empty at some moment of that call, also through an abandoned weak request |
| QueueProgress.StatusMatchesSide | iridium-sniffer/blocking_queue.h:412-456 | over every run BQ_FULL comes only from add, BQ_EMPTY only from poll and BQ_CLOSED only when closed |
| QueueProgress.NoDeadlock | iridium-sniffer/blocking_queue.h:402-537 | in a state of any run in which no thread can step, those inside wait at their limit in an open queue; a closed queue is then empty of callers and its close is through |
| QueueAsync.WaiterBlocksWeak | iridium-sniffer/blocking_queue.h:431-463 | over every run, while a put or take waits and no thread of the other side is about to signal it, weak requests of its side are blocked and none is queued |
| QueueAsync.AsyncNeverWaits | iridium-sniffer/blocking_queue.h:402-537 | over every run, in a state in which no thread can step no call of add or poll is inside: they never wait for another caller |
| QueueProgress.CallsEnd | iridium-sniffer/blocking_queue.h:322-537 | from any state of any run on, open or closed, and without new calls, the steps still to come are bounded by the threads' positions; so every caller returns or is left waiting at its limit, and close ends |
| QueueProgress.ComesToRest | iridium-sniffer/blocking_queue.h:322-537 | every run goes on without new calls to a state in which no thread can step |
| Gf2.Multiply | iridium-toolkit/bch.py:64-72 | the shift-and-add loop computes the product of polynomials over GF(2) |
| Gf2Division.Euclid | iridium-toolkit/bch.py:5-16 | quotient and remainder satisfy v = p*q + r over GF(2) |
| Gf2Division.RemBelow | iridium-toolkit/bch.py:5-16 | the remainder has a degree below the polynomial's |
| Gf2Division.RemUnique | iridium-toolkit/bch.py:5-16 | it is the only such remainder |
| Gf2Division.RemLinear | iridium-toolkit/bch.py:5-16 | the remainder of a sum is the sum of the remainders |
| Gf2Division.NnDivide | iridium-toolkit/bch.py:5-16 | the loop over leading bits returns that remainder for every polynomial and number |
| Gf2Division.Gf2Remainder | iridium-sniffer/frame_decode.c:83-92 | the loop over 32-bit words returns the same remainder for every 32-bit polynomial and word |
| Bch.BuildTable | iridium-sniffer/frame_decode.c:96-130 | every entry names errors that leave its remainder, no pattern of at most the given number of errors is missing, and which errors are named is fixed: the last single bit, else the first pair; `build_syn` in ida_decode.c:64-94 is the same loop |
| Bch.BuildPairs | iridium-sniffer/frame_decode.c:117-129 | the loops over pairs add the first pair for each remainder that no single bit leaves, and change nothing else |
| Bch.LookupAnswers | iridium-sniffer/frame_decode.c:138-146 | the lookup gives a codeword and its distance exactly when one lies within the errors the table serves, else -1 and the word itself |
| Bch.OneAnswer | iridium-toolkit/bch.py:119-152 | where no two patterns of weight at most two share a remainder, any two correct answers for a word are equal |
| Bch.CorrectsTwoErrors | iridium-toolkit/bch.py:119-152 | there any answer takes back every error of weight at most two, with its weight |
| Bch.TakesBackIff | iridium-sniffer/frame_decode.c:96-146 | for every polynomial, length and table for two errors, the lookup takes back all errors of weight at most two in all codewords if and only if no two of them share a remainder |
| Bch.TakenBackIff | iridium-sniffer/frame_decode.c:96-146 | error by error: with the table as built, errors are taken back if and only if they are none, the last single bit with a remainder, or the first pair with a remainder that no single bit leaves |
| Bch.NRepair2 | iridium-toolkit/bch.py:119-139 | the search over single bits and then pairs finds a codeword within two errors exactly when there is one |
| Bch.RepairSlow | iridium-toolkit/bch.py:85-103 | the search in the other order does too |
| BchSyndromes.MkSyn | iridium-toolkit/bch.py:166-191 | for one or two errors and any size the table serves them; it raises exactly when a remainder is not in the table or, for two errors in three or more bits, two patterns of at most two errors share a remainder, though the code compares only pairs with single bits and pairs |
| BchSyndromes.MkPairs | iridium-toolkit/bch.py:181-191 | the loops over pairs, with the collision check and the bounds of the table |
| BchSyndromes.AllCovered | iridium-toolkit/bch.py:225-231 | a table of as many entries as there are remainders covers every pattern, as the sizes in use do |
| BchSyndromes.ApartSeparates | iridium-toolkit/bch.py:188-191 | from three bits on, pairs that clash with no other pair or bit are enough for all patterns of at most two errors to differ |
| BchSyndromes.NRepair | iridium-toolkit/bch.py:141-152 | the repair by table is the lookup |
| BchSyndromes.NRepair1 | iridium-toolkit/bch.py:105-117 | the search over single bits finds a codeword within one error exactly when there is one |
| BchSyndromes.RepairsAgree | iridium-toolkit/bch.py:85-152 | table repair and every two-error search agree on every word, for every polynomial and length that corrects two errors |
| BchDistance.MultiplesSeparate | iridium-sniffer/frame_decode.c:36 | every multiple of 41 and 47 gives different remainders to different patterns of at most two errors in 31 bits |
| BchDistance.CodesSeparate | iridium-sniffer/ida_decode.c:34 | so do 1207 and 3545, the polynomials in use |
| LinkControl.SeparatesIff | iridium-sniffer/ida_decode.c:42 | 41 gives different remainders to different patterns of at most two errors if and only if there are at most five bits |
| LinkControl.TwoErrorsIff | iridium-sniffer/ida_decode.c:101 | a table for two errors with 41 takes all of them back if and only if there are at most five bits; the link control word has 26 |
| LinkControl.OneErrorTaken | iridium-sniffer/ida_decode.c:233-239 | every single wrong bit is taken back, in up to 31 bits |
| LinkControl.PairMistaken | iridium-sniffer/ida_decode.c:233-239 | two wrong bits that leave the remainder of a third are answered with the third, for every codeword |
| LinkControl.NineIsMistaken | iridium-sniffer/ida_decode.c:233-239 | an input: 9, the codeword 0 with bits 0 and 3 wrong, is answered with the codeword 41 |
| Words.ValueOfBits | iridium-sniffer/frame_decode.c:67-81 | writing a number as bits and reading them gives the number |
| Words.BitsOfValue | iridium-sniffer/frame_decode.c:67-81 | reading bits and writing them gives the bits |
| Words.ValueBit | iridium-sniffer/frame_decode.c:67-73 | the first cell is the highest bit of the number read |
| Words.BitsOfBit | iridium-sniffer/frame_decode.c:75-81 | and the highest bit of a number is written first |
| Words.BitsToUint | iridium-sniffer/frame_decode.c:67-73 | the shifting loop reads the bits, highest first, for up to 32 of them |
| Words.UintToBits | iridium-sniffer/frame_decode.c:75-81 | the loop from the last cell writes the bits and nothing else |
| Chase.SelectedAreLeast | iridium-sniffer/ida_decode.c:134-147 | the partial selection sort leaves at the front k distinct positions, none of the others less reliable |
| Chase.SelectedStep | iridium-sniffer/ida_decode.c:138-147 | each round brings the first of the least reliable positions left to the front and exchanges it with what was there |
| Chase.ChaseSoundComplete | iridium-sniffer/ida_decode.c:108-176 | what is found is a codeword that differs from the word in at most two places outside the positions tried; nothing is found exactly when there is no such codeword |
| Chase.ChaseCorrect | iridium-sniffer/ida_decode.c:108-176 | the same for the positions the decoder picks: the k least reliable with soft input, none without |
| ChaseOrder.ChaseFirst | iridium-sniffer/ida_decode.c:108-176 | which codeword is found: there is a mask such that it lies within two errors of the word with exactly the positions of that mask flipped, no codeword does for a smaller mask, 0 included; the count is that of the errors, and the repair flag is 0 exactly when the word was returned as it is |
| ChaseOrder.ChaseIs | iridium-sniffer/ida_decode.c:108-176 | conversely, where no two patterns of at most two errors share a remainder, any codeword so placed by the least such mask is what is found |
| Chase.FindLeast | iridium-sniffer/ida_decode.c:139-143 | the inner loop finds the least reliable position left |
| Chase.SelectPositions | iridium-sniffer/ida_decode.c:134-147 | the loops compute the selection on the array of positions |
| Chase.FlipMasks | iridium-sniffer/ida_decode.c:149-151 | bit 30 - pos for each position |
| Chase.TryMask | iridium-sniffer/ida_decode.c:155-172 | the bits of the mask are flipped and the word looked up |
| Chase.TryAll | iridium-sniffer/ida_decode.c:154-173 | the masks are tried from 1 on and the first that works is taken |
| Chase.SoftSearch | iridium-sniffer/ida_decode.c:131-175 | selection, masks and search together |
| Chase.Decide | iridium-sniffer/ida_decode.c:111-175 | the table first, then the search if there are reliabilities |
| Chase.ChaseBchDa | iridium-sniffer/ida_decode.c:108-176 | errors, repair flag and data bits are those of the decoding; on failure -1 and the output is untouched |
| Payload.DeInterleaveUndoes | iridium-sniffer/ida_decode.c:262-275 | de-interleaving gives back the two halves that were interleaved |
| Payload.InterleaveUndoes | iridium-sniffer/ida_decode.c:262-275 | and interleaving the halves of an even number of symbols gives back the bits: none lost, none used twice |
| Payload.TailCells | iridium-sniffer/ida_decode.c:337-360 | which bit of the last block each cell holds, and which cells stay unset for an odd number of symbols |
| PayloadTheorem.EncodeIsCodeword | iridium-sniffer/ida_decode.c:34-37 | the data shifted up with its remainder added is a codeword whose upper bits are the data |
| PayloadTheorem.DataCodeValid | iridium-sniffer/ida_decode.c:34-37 | 3545 has degree 11: remainders have 11 bits and words of 31 bits carry 20 data bits |
| PayloadTheorem.DecodeReceived | iridium-sniffer/ida_decode.c:108-125 | with up to two wrong bits the decoder finds the codeword sent, whatever the reliabilities |
| PayloadTheorem.DescrambleTakes | iridium-sniffer/ida_decode.c:279-380 | for every number of words, in full blocks and a last block of up to three words and less than a word more, and every buffer size, the payload is decoded as far as there is room |
| PayloadTheorem.PayloadRoundTrip | iridium-sniffer/ida_decode.c:279-380 | when it fits, the output is exactly the data bits of all the words sent and the count of repaired codewords is that of those with errors |
| PayloadTheorem.BlockPlaces | iridium-sniffer/ida_decode.c:262-313 | where in a block of 124 bits each bit of its four words is |
| PayloadTheorem.TailPlaces | iridium-sniffer/ida_decode.c:337-360 | and each bit of a last block |
| PayloadPrefix.DescrambleLaw | iridium-sniffer/ida_decode.c:279-380 | for any bits at all: the output is the data of the codewords of the full blocks, in the order 3, 1, 2, 0, and then of the last block, up to the first that cannot be decoded or has no room; the last block is left out when the buffer has not room for all its bits |
| PayloadPrefix.FoldTakesPrefix | iridium-sniffer/ida_decode.c:315-331 | codewords taken one after the other give the data of a prefix of them, with its count of repairs, that ends just where one fails or the buffer is full |
| PayloadDecoder.DeInterleaveN | iridium-sniffer/ida_decode.c:262-275 | the loops put the halves of the input into the two buffers, for bits and for reliabilities |
| PayloadDecoder.TakeCodeword | iridium-sniffer/ida_decode.c:317-330 | one codeword is decoded and its data appended, unless full or failed |
| PayloadDecoder.Combine | iridium-sniffer/ida_decode.c:296-311 | both halves of a block in one buffer |
| PayloadDecoder.CombineTail | iridium-sniffer/ida_decode.c:337-360 | the last block's halves without their first bits, second half first; an odd number of symbols leaves one cell of each half unset |
| PayloadDecoder.TakeBlock | iridium-sniffer/ida_decode.c:291-332 | the four codewords of a block in the order 3, 1, 2, 0 |
| PayloadDecoder.TakeTail | iridium-sniffer/ida_decode.c:362-374 | the codewords of the last block one after the other |
| PayloadDecoder.TakeRest | iridium-sniffer/ida_decode.c:335-376 | the last partial block, if it has four bits and the buffer room |
| PayloadDecoder.DescramblePayload | iridium-sniffer/ida_decode.c:279-380 | buffer, length and count of repairs are those of the specification the round trip is about |
| Crc.RegisterIsRem | iridium-sniffer/ida_decode.c:384-397 | the register is the remainder, modulo x^16+x^12+x^5+1, of the initial value followed by the message, times x^16 |
| Crc.Residue | iridium-sniffer/ida_decode.c:384-397 | appending two bytes makes the register zero exactly when they are the checksum |
| Crc.BurstDetected | iridium-sniffer/ida_decode.c:384-397 | different messages of one length that agree outside 16 consecutive bits have different checksums |
| Crc.CrcCcitt | iridium-sniffer/ida_decode.c:384-397 | the loops compute the register from 0xFFFF, which is the remainder by 0x11021 of 0xFFFF followed by the message, times x^16 |
| Crc.ShiftByte | iridium-sniffer/ida_decode.c:389-394 | the inner loop shifts eight times with 16-bit truncation |
| Kermit.SerialIsRem | iridium-sniffer/sbd_acars.c:419-425 | read with its 16 bits reversed, the checksum is the remainder by 0x11021 of the message with the bits of each byte reversed, times x^16 |
| Kermit.KermitResidue | iridium-sniffer/sbd_acars.c:1312-1321 | appending the low byte and then the high byte gives zero exactly when they are the checksum |
| Kermit.BackIsShift | iridium-sniffer/sbd_acars.c:408-413 | one step with 0x8408 is one step of CRC-CCITT on the reversed register |
| Kermit.ReverseBit | iridium-sniffer/sbd_acars.c:408-413 | what reversing means, bit by bit |
| Kermit.Crc16Init | iridium-sniffer/sbd_acars.c:403-416 | each entry of the table is its index shifted out bit by bit; reversed, it is the remainder of the reversed index times x^16 |
| Kermit.Crc16Kermit | iridium-sniffer/sbd_acars.c:419-425 | the checksum by table is the one computed bit by bit, and that remainder |
| CrcCheck.PackBits | iridium-sniffer/ida_decode.c:625-633 | setting bits one by one packs them into bytes, highest first |
| CrcCheck.CheckCrc | iridium-sniffer/ida_decode.c:608-638 | stored and computed checksum and the verdict, for every stream and length |
| CrcCheck.OkMeansStored | iridium-sniffer/ida_decode.c:611-638 | with 200 decoded bits the verdict is good exactly when the stored checksum is that of the message |
| CrcCheck.OkMeansNoRemainder | iridium-sniffer/ida_decode.c:611-638 | at every length: the verdict is good exactly when there is data, from 196 to 504 decoded bits, and the header, twelve zeros and the rest but four bits, filled up to whole bytes after 0xFFFF, leave no remainder by 0x11021; the stored checksum is bits 180 to 195 |
| BurstSelection.FrameSelects | iridium-sniffer/burst_detect.c:722-736 | after every frame the mask is closed exactly within half a burst width of an active burst, and no two active bursts are that near |
| BurstSelection.SelectionIsMaximal | iridium-sniffer/burst_detect.c:608-677 | absent squelch every eligible bin above the threshold and off the mask is within half a width of a new burst at least as strong |
| BurstSelection.SortedPeaks | iridium-sniffer/burst_detect.c:615-638 | the peaks are exactly the eligible bins above the threshold |
| BurstDetection.LoudIff | iridium-sniffer/simd_generic.c:208-216 | a relative magnitude is above the threshold exactly when the bin's history has a positive sum and the magnitude is above the threshold times that sum |
| BurstDetection.FrameLaw | iridium-sniffer/burst_detect.c:544-736 | a frame said of magnitudes, rows of the history and threshold alone: which bursts are heard now, which go on and which end, in order; new bursts stand only at free bins above the threshold times their sum, ids ten apart; every such bin is within half a width of a new burst at least as strong, compared by cross-multiplication; all are apart; and with more than max_bursts none is active, the old ones end and the new ones are dropped |
| BurstDetection.KeptContinues | iridium-sniffer/burst_detect.c:544-604 | exactly the bursts whose silence is shorter than post_len, or would end before the first sample, and which are not too long go on, heard now exactly when their bin or a neighbour is loud, and the others end at this frame |
| BurstDetection.MadeStandsFor | iridium-sniffer/burst_detect.c:608-677 | the new burst that stands for a free and loud bin |
| BurstLifetime.FrameEnds | iridium-sniffer/burst_detect.c:576-718 | with any lengths, what a frame ends and drops: the squelch ends the bursts it found and drops exactly those made in its own frame |
| BurstLifetime.FrameLively | iridium-sniffer/burst_detect.c:544-604 | with any lengths, an active burst was heard within the post length or is new, is not too long where there is a limit, and an ended one has start <= last_active <= stop and a length below `Span` where there is a limit, which is max_burst_len + post_len + fft_size unless pre_len is at least max_burst_len + post_len; only bursts with start + post_len < 0 are excepted, for which the unsigned comparison never ends the silence |
| BurstLifetime.EndsByItselfIff | iridium-sniffer/burst_detect.c:591 | a burst that is not heard again ends by itself if and only if start + post_len is not negative |
| BurstLifetime.FrameConserves | iridium-sniffer/burst_detect.c:642-718 | with any lengths, every id given out is in exactly one place: active, ended, or dropped by the squelch |
| BurstLifetime.FrameSums | iridium-sniffer/burst_detect.c:524-540 | the baseline is the sum of the rows in the history, also after a reset |
| BurstFloor.LearnRemembers | iridium-sniffer/burst_detect.c:524-540 | learning a row keeps the history the last rows learned, as many as it holds, each in its cell, their sum the baseline, and ready exactly once they fill it |
| BurstFloor.FrameRemembers | iridium-sniffer/burst_detect.c:524-718 | which frames are learned: those after which no burst is active, and those in which one became too long; the count of squelched frames goes up by three and down by one, and from ten on the floor starts again |
| BurstLifetime.FrameTame | iridium-sniffer/burst_detect.c:680-718 | an unprimed detector has no active bursts, and no frame ends with more than max_bursts when that is positive |
| BurstLifetime.FrameSited | iridium-sniffer/burst_detect.c:524-540 | a primed detector has seen as many samples as its history has |
| BurstLifetime.FrameRooted | iridium-sniffer/burst_detect.c:665-666 | when pre_len is at most the history, no burst starts before the first sample |
| BurstRun.RunInSteps | iridium-sniffer/burst_detect.c:862-923 | more samples do not change what earlier ones did |
| BurstRun.ChunksDoNotMatter | iridium-sniffer/burst_detect.c:862-923 | index, noise history, active bursts and ended bursts depend only on the whole stream, not on how it was fed |
| BurstRun.BatchesDoNotMatter | iridium-sniffer/burst_detect.c:740-759 | batches of any size compute what the frames do one at a time |
| BurstRun.FedSteady | iridium-sniffer/burst_detect.c:830-928 | over every sequence of feeds and with any lengths: mask and bursts agree and bursts are apart, every burst is limited as `FrameLively` says, every id is in exactly one place, the noise floor is the sum of its history, and there are no bursts without it nor more than allowed |
| BurstRun.FedRemembers | iridium-sniffer/burst_detect.c:830-928 | over every sequence of feeds the noise floor is the sum of the rows learned last |
| BurstRun.FedFrameLaw | iridium-sniffer/burst_detect.c:722-928 | after every sequence of feeds, whatever the next frame holds, it does what `FrameLaw` says |
| BurstRun.FedLimited | iridium-sniffer/burst_detect.c:830-928 | over every sequence of feeds, when pre_len is at most post_len or the history, every ended burst has start <= last_active <= stop and, where there is a limit, a length below `Span` |
| BurstRun.FedRooted | iridium-sniffer/burst_detect.c:830-928 | over every sequence of feeds, when pre_len is at most the history, every burst starts at a sample |
| BurstRun.RunEndsFrom | iridium-sniffer/burst_detect.c:576-604 | with any lengths, bursts ended by a feed come after those ended before, end no earlier than it began, and later than they were made |
| SampleRing.PlaceIsMod | iridium-sniffer/burst_detect.c:496 | the cell of a sample is its position modulo the ring size |
| SampleRing.Ring.constructor | iridium-sniffer/burst_detect.c:364-369 | a new ring holds nothing |
| SampleRing.Ring.Write | iridium-sniffer/burst_detect.c:465-482 | after a write of at most the ring size the cells hold the last samples of the whole stream, and `ringbuf_start` is computed from the count before the write |
| SampleRing.Ring.Copy | iridium-sniffer/burst_detect.c:494-504 | every sample copied whose position is still in the ring is the stream's sample at that position |
| SampleRing.Ring.Extract | iridium-sniffer/burst_detect.c:484-508 | the samples from the start, clamped to `ringbuf_start`, are those of the stream as far as they are stored; nothing for a start that wrapped or when clamping leaves none |
| BurstLoops.RelativeMag | iridium-sniffer/simd_generic.c:208-216 | magnitude over baseline, or zero without baseline |
| BurstLoops.BaselineUpdate | iridium-sniffer/simd_generic.c:200-206 | the old row leaves the sum and the new one enters |
| BurstLoops.UpdateBursts | iridium-sniffer/burst_detect.c:544-555 | bursts whose bin or a neighbour is above the threshold are active now |
| BurstLoops.MaskBurst | iridium-sniffer/burst_detect.c:559-566 | the mask is closed within half a width of the bin and nowhere else |
| BurstLoops.UpdateBurstMask | iridium-sniffer/burst_detect.c:568-572 | the mask is that of the bursts |
| BurstLoops.DeleteGoneBursts | iridium-sniffer/burst_detect.c:576-604 | bursts over or too long move to the ended ones with their stop, the others stay in order, and whether one was too long is reported |
| BurstLoops.RemovePeaksAroundBursts | iridium-sniffer/burst_detect.c:608-611 | magnitudes under the mask become zero |
| BurstLoops.ExtractPeaks | iridium-sniffer/burst_detect.c:615-634 | the peaks in order of bins, without the edges and seven bins around the centre |
| BurstLoops.CreateNewBursts | iridium-sniffer/burst_detect.c:642-677 | a burst for each peak not yet masked, ids ten apart, masking as it goes |
| BurstLoops.MoveOlder | iridium-sniffer/burst_detect.c:688-698 | the squelch moves the bursts of earlier frames to the ended ones |
| BurstDetector.Detector.constructor | iridium-sniffer/burst_detect.c:325-369 | a new detector is the initial value |
| BurstDetector.Detector.UpdateFiltersPost | iridium-sniffer/burst_detect.c:524-540 | the noise floor learns the frame when no burst is active or it is forced |
| BurstDetector.Detector.SettleSquelch | iridium-sniffer/burst_detect.c:679-718 | the squelch check, with the reset of the noise floor |
| BurstDetector.Detector.ProcessMagnitudeFrame | iridium-sniffer/burst_detect.c:722-736 | the object's new value is the specified frame of its old value |
| BurstDetector.Detector.ProcessFrames | iridium-sniffer/burst_detect.c:907-922 | the frames read from the ring are those of the stream, and the value is the specified run |
| BurstDetector.Detector.EmitGoneBursts | iridium-sniffer/burst_detect.c:787-826 | the ended bursts that give samples are handed on in order, each with its samples from the clamped start on, which are the stream's as far as they are stored |
| BurstDetector.Detector.Feed | iridium-sniffer/burst_detect.c:830-928 | with any lengths and any ring that can serve the requests, state and ended bursts are the specified run over the whole stream and the bursts are handed on; with room for the longest burst, a feed and a frame, exactly the ended bursts with start >= 0 are, in order and with all their samples |
| BurstDetector.Detector.FlushBatch | iridium-sniffer/burst_detect.c:740-759 | a batch is its frames one after the other |
| BurstDetector.Detector.FeedBatched | iridium-sniffer/burst_detect.c:862-927 | the batch path ends in the same specified state and hands the bursts on in the same way, under the same conditions |
| BurstDetector.RoomExtracts | iridium-sniffer/burst_detect.c:364-366 | with any lengths, a ring with room for the longest burst and the samples before it can serve every request |
| BurstDetector.AllHanded | iridium-sniffer/burst_detect.c:787-826 | with room for the longest burst, a feed and a frame, exactly the ended bursts with start >= 0 are handed on, in order, with exactly the stream's samples below the sample count |
| BurstDetector.AllBegun | iridium-sniffer/burst_detect.c:787-801 | where no burst starts before the first sample, these are all the ended bursts |
| JsonRfc.RfcTextReads | iridium-sniffer/cJSON.c:1116-1230 | parsing is complete for RFC 8259, stated apart from the parser: white space, a value with its numbers, escapes, pairs of `\uXXXX` and white space around every token, and white space, after a byte order mark or not and within the nesting limit, is read as the tree it stands for, and the parser stops right after the value |
| JsonRfc.JsonIsRead | iridium-sniffer/cJSON.c:1116-1230 | every text that derives a tree by RFC 8259 within the nesting limit is read as that tree |
| JsonSound.ParsesExactly | iridium-sniffer/cJSON.c:1116-1230 | for every text: it is read as a tree up to an offset if and only if it is in the grammar of what cJSON reads, with that tree and that end |
| JsonComplete.ValueComplete | iridium-sniffer/cJSON.c:1368-1420 | every value of that grammar is read, wherever it stands |
| JsonComplete.ArrayComplete | iridium-sniffer/cJSON.c:1497-1592 | the same for arrays |
| JsonComplete.ObjectComplete | iridium-sniffer/cJSON.c:1662-1777 | the same for objects, names in order |
| JsonComplete.StringComplete | iridium-sniffer/cJSON.c:824-936 | the same for strings: every escape, and UTF-8 by a decoder of its own; the string ends at an escaped NUL |
| JsonComplete.NumberComplete | iridium-sniffer/cJSON.c:307-408 | the same for numbers: all characters of numbers are handed to `strtod`, and the parser stops after what it used |
| JsonSound.ValueSound | iridium-sniffer/cJSON.c:1368-1420 | whatever is read as a value is one of that grammar, within the nesting limit |
| JsonSound.StringSound | iridium-sniffer/cJSON.c:824-936 | the same for strings |
| JsonComplete.Utf8Is | iridium-sniffer/cJSON.c:703-821 | the bytes written for a code point are the only ones that decode to it |
| JsonSound.Utf8Encodes | iridium-sniffer/cJSON.c:703-821 | and they decode to it |
| JsonRoundTrip.PrintedIsJson | iridium-sniffer/cJSON.c:1423-1896 | what is printed, formatted or not, is a text of RFC 8259 for the tree, with ints in decimal and numbers as the C library formats them |
| JsonRoundTrip.ObjectLayout | iridium-sniffer/cJSON.c:1780-1896 | the layout of objects: lines, tabs and separators |
| JsonRoundTrip.ArrayLayout | iridium-sniffer/cJSON.c:1595-1659 | and of arrays |
| JsonRoundTrip.EscapesAre | iridium-sniffer/cJSON.c:1024-1069 | which characters are escaped, and how |
| JsonRoundTrip.CutsToInt | iridium-sniffer/cJSON.c:389-400 | a number is cut towards zero to 32 bits with saturation; exactly the ints of 32 bits are printed as ints |
| JsonRoundTrip.NumberIsRfc | iridium-sniffer/cJSON.c:596-663 | what is printed for a number is a number of RFC 8259 that is read back, if `strtod` reads digits after an optional minus as the number they stand for |
| JsonRoundTrip.DecimalStands | iridium-sniffer/cJSON.c:618 | what `%d` prints stands for the number printed, by Horner's rule |
| JsonRoundTrip.JsonBack | iridium-sniffer/cJSON.c:1368-1896 | parsing the formatted or unformatted print of any tree of null, booleans, ints, numbers the C library formats and reads back, NUL-free strings, arrays and objects within the nesting limit gives the same tree and uses all of the text |
| JsonPrinter.PrintBuffer.PrintString | iridium-sniffer/cJSON.c:954-1073 | a quoted string with escapes is appended, written into exactly the room counted before, whether copied whole or character by character, with the closing quote at the counted length |
| JsonPrinter.PrintBuffer.PrintEscaped | iridium-sniffer/cJSON.c:1024-1069 | the loop with its moving pointer writes the escape of each character and stays within the room counted |
| JsonPrinter.CountedLength | iridium-sniffer/cJSON.c:981-1005 | the length counted first is that of the escaped text |
| JsonPrinter.PrintBuffer.PrintValue | iridium-sniffer/cJSON.c:1423-1494 | the text of the value is appended; it fails exactly when the nesting is too deep |
| JsonPrinter.PrintBuffer.PrintArray | iridium-sniffer/cJSON.c:1595-1659 | the text of the array is appended and the depth restored, failing exactly when it is nested too deep |
| JsonPrinter.PrintBuffer.PrintItems | iridium-sniffer/cJSON.c:1623-1647 | the loop appends the elements with commas |
| JsonPrinter.PrintBuffer.PrintObject | iridium-sniffer/cJSON.c:1780-1896 | the text of the object is appended and the depth restored, failing exactly when it is nested too deep |
| JsonPrinter.PrintBuffer.PrintMembers | iridium-sniffer/cJSON.c:1812-1876 | the loop appends names and values with commas, tabs and newlines |
| JsonReader.ParseBuffer.Skip | iridium-sniffer/cJSON.c:1090-1113 | characters up to 32 are skipped but never past the last byte |
| JsonReader.ParseBuffer.ReadNumber | iridium-sniffer/cJSON.c:307-408 | the run of number characters is scanned and the offset moved by what the scan used |
| JsonReader.ParseBuffer.FindEnd | iridium-sniffer/cJSON.c:841-859 | the closing quote is found over escapes |
| JsonReader.ParseBuffer.Decode | iridium-sniffer/cJSON.c:871-925 | the text between the quotes is unescaped, or refused |
| JsonReader.ParseBuffer.ReadString | iridium-sniffer/cJSON.c:824-936 | the string read, its offset, or failure, as specified |
| JsonReader.ParseBuffer.ReadValue | iridium-sniffer/cJSON.c:1368-1420 | value, offset and depth, or failure, as specified |
| JsonReader.ParseBuffer.ReadArray | iridium-sniffer/cJSON.c:1497-1592 | the same for arrays, with the nesting limit |
| JsonReader.ParseBuffer.ReadItems | iridium-sniffer/cJSON.c:1529-1564 | the loop reads the elements in order |
| JsonReader.ParseBuffer.ReadObject | iridium-sniffer/cJSON.c:1662-1777 | the same for objects |
| JsonReader.ParseBuffer.ReadMembers | iridium-sniffer/cJSON.c:1692-1750 | the loop reads names and values in order |
| ItemList.SuffixObject | iridium-sniffer/cJSON.c:1999-2003 | the two items point at each other |
| ItemList.AddItemToArray | iridium-sniffer/cJSON.c:2027-2058 | the child list gets the item last: next in order, prev its inverse, the head's prev the tail |
| ItemList.GetArrayItem | iridium-sniffer/cJSON.c:1922-1939 | the item at the index, or null past the end |
| ItemList.DetachItemViaPointer | iridium-sniffer/cJSON.c:2258-2292 | the item is unlinked and the child list is the old one without it |
| ItemList.InsertItemInArray | iridium-sniffer/cJSON.c:2334-2366 | the child list gets the item at the index, or last past the end |
| ItemList.ReplaceItemViaPointer | iridium-sniffer/cJSON.c:2368-2415 | the replacement stands where the item was and the item is unlinked |
| ItemList.ApplyAll | iridium-sniffer/cJSON.c:1999-2415 | any sequence of append, insert, detach and replace with unlinked items leaves the chain equal to the list after the same edits |
| IdaReassembly.RunInv | iridium-sniffer/ida_decode.c:673-752 | over every run of bursts and flushes each slot holds a chain and each message is one, and no burst is in two places |
| IdaReassembly.MessagesAreChains | iridium-sniffer/ida_decode.c:673-752 | every message comes from bursts that begin at counter 0 and count on modulo 8, in one direction, within 260 Hz of the first, with gaps of at most 280 ms; up to 256 bytes its data is theirs; no two share a burst |
| IdaDelivery.UndisturbedIsDelivered | iridium-sniffer/ida_decode.c:673-752 | nothing is lost: a chain of bursts that ended, whose slot no other event flushes, continues or evicts and whose bursts no other slot takes, is delivered with its last burst, and nothing else is |
| IdaDelivery.DeliversOnlyNow | iridium-sniffer/ida_decode.c:673-752 | an event delivers at most one message, which ends with it |
| IdaDelivery.FlushEndsStale | iridium-sniffer/ida_decode.c:744-752 | a flush ends exactly the messages whose last burst is more than 280 ms ago, and delivers nothing |
| IdaReassembly.CollectsAll | iridium-sniffer/ida_decode.c:690-694 | data up to 256 bytes is the concatenation of the payloads |
| IdaReassembly.CollectsWhatFits | iridium-sniffer/ida_decode.c:690-694 | of longer chains a payload is left out exactly when it would make more than 256 bytes of those kept before |
| IdaReassembly.ChosenIs | iridium-sniffer/ida_decode.c:718-727 | a new message takes the first free slot, else the first of those heard least recently |
| IdaReassembly.Context.constructor | iridium-sniffer/ida_decode.h:67-72 | all slots are free |
| IdaReassembly.Context.FindMatch | iridium-sniffer/ida_decode.c:681-688 | the first slot the burst continues |
| IdaReassembly.Context.FindSlot | iridium-sniffer/ida_decode.c:718-727 | the slot to start in |
| IdaReassembly.Context.Reassemble | iridium-sniffer/ida_decode.c:673-742 | slots and message are those of the specified step |
| IdaReassembly.Context.FlushOld | iridium-sniffer/ida_decode.c:744-752 | slots not heard for 280 ms are closed |
| SbdReassembly.RunInv | iridium-sniffer/sbd_acars.c:1558-1728 | over every run of packets each slot holds a chain and each message is one packet or a complete chain, and no packet is in two places |
| SbdReassembly.MessagesAreChains | iridium-sniffer/sbd_acars.c:1665-1727 | a message of several packets is the first 1024 bytes of packets in one direction, numbered on to the count the first announced, each within 5 s of the one before; no two share a packet |
| SbdDelivery.UndisturbedIsDelivered | iridium-sniffer/sbd_acars.c:1558-1728 | nothing is lost: packets numbered on to the announced count, whose slot no other packet lets expire, continues or evicts and which no other slot takes, are delivered with the last one, and nothing else is |
| SbdDelivery.SingleIsDelivered | iridium-sniffer/sbd_acars.c:1665-1673 | a packet with number 0 and data, or the first of one, is delivered at once, whatever else is going on |
| SbdDelivery.DeliversOnlyNow | iridium-sniffer/sbd_acars.c:1568-1728 | a packet delivers at most one message, which ends with it; a refused packet changes nothing |
| SbdReassembly.ChosenIs | iridium-sniffer/sbd_acars.c:1675-1689 | a new message takes the first free slot, else the first of those heard least recently |
| SbdPackets.PacketReads | iridium-sniffer/sbd_acars.c:1572-1663 | each form of packet as literal bytes, `06 00`, `76 08` with both header lengths, `76 09` to `76 0b`, uplink `76 0c` to `76 0e` with and without the `50` or `51` header, each with and without `10 len no`, is read as its number, count and body |
| SbdPackets.ReadsExactlyForms | iridium-sniffer/sbd_acars.c:1572-1663 | a packet is read exactly when it is one of these; all others are refused |
| SbdReassembly.Multi.constructor | iridium-sniffer/sbd_acars.c:446 | all slots are free |
| SbdReassembly.Multi.ExpireSlots | iridium-sniffer/sbd_acars.c:1558-1566 | slots not heard for 5 s are closed |
| SbdReassembly.Multi.FindFree | iridium-sniffer/sbd_acars.c:1675-1678 | the first free slot |
| SbdReassembly.Multi.FindOldest | iridium-sniffer/sbd_acars.c:1679-1687 | the slot heard least recently |
| SbdReassembly.Multi.FindMatch | iridium-sniffer/sbd_acars.c:1702-1706 | the last slot the fragment continues |
| SbdReassembly.Multi.Place | iridium-sniffer/sbd_acars.c:1665-1727 | slots and messages are those of the specified placement |
| SbdReassembly.Multi.Extract | iridium-sniffer/sbd_acars.c:1568-1728 | from its marker and headers to its placement, a packet leaves the slots and messages of the specified step |
| SbdReassembly.CheckMarkers | iridium-sniffer/sbd_acars.c:1575-1592 | the nested tests of the markers |
| SbdReassembly.ReadHeaders | iridium-sniffer/sbd_acars.c:1572-1663 | number, count and body read with a pointer that moves over the headers, for every packet |
| SbdReassembly.ReadBody | iridium-sniffer/sbd_acars.c:1636-1662 | the optional mobile header, the packet header and the body, cut to the announced length or refused |
| GaussJordan.InverseBothSides | iridium-sniffer/doppler_pos.c:279-322 | when the working matrix has become the identity, the accumulated matrix times the original and the original times it are the identity |
| GaussJordan.ReachedLess | iridium-sniffer/doppler_pos.c:312-319 | subtracting a multiple of the pivot's row keeps the products: accumulated times original is current, and back |
| GaussJordan.FindPivot | iridium-sniffer/doppler_pos.c:287-295 | the first of the entries of largest magnitude from the diagonal down |
| GaussJordan.SwapRows | iridium-sniffer/doppler_pos.c:298-304 | two rows exchanged entry by entry |
| GaussJordan.ScaleRow | iridium-sniffer/doppler_pos.c:306-310 | a row divided by the pivot |
| GaussJordan.SubtractRow | iridium-sniffer/doppler_pos.c:312-319 | a row less a multiple of another |
| GaussJordan.Normalize | iridium-sniffer/doppler_pos.c:298-310 | the pivot's row brought up and divided by the pivot, in both matrices |
| GaussJordan.Eliminate | iridium-sniffer/doppler_pos.c:312-319 | the column taken from all other rows, in both matrices |
| GaussJordan.StageReached | iridium-sniffer/doppler_pos.c:286-320 | as long as columns have a pivot, before every column the accumulated matrix times the original is the current one and its columns so far are those of the identity |
| GaussJordan.DoColumn | iridium-sniffer/doppler_pos.c:287-319 | a column is refused if and only if every entry from the diagonal down is below the threshold, and otherwise both matrices are those after the column |
| GaussJordan.Invert | iridium-sniffer/doppler_pos.c:279-322 | it succeeds if and only if no column reached has all entries from the diagonal down below the threshold; both matrices are those of the elimination as a function of the input, and on success the result is an inverse on both sides |
| GaussJordan.SmallIsRefused | iridium-sniffer/doppler_pos.c:296 | the identity times 10^-31 is not singular and refused, contrary to the comment |
| GaussJordan.RefusedInvertible | iridium-sniffer/doppler_pos.c:287-296 | an invertible matrix is refused only over an entry that is not zero and yet below the threshold |
| GaussJordan.SingularIff | iridium-sniffer/doppler_pos.c:276-296 | the input is singular if and only if elimination meets a column of zeros from the diagonal down |
| GaussJordan.CommentMetIff | iridium-sniffer/doppler_pos.c:276-296 | -1 is returned exactly for a singular input, as the comment says, if and only if elimination meets a column of zeros from the diagonal down or every column has an entry of at least the threshold there; a singular input is always refused |

## Left out

- SDR backends, sockets, HTTP and other output, options, statistics and diagnostics.
- Windowing, FFT, filters, demodulation, SIMD variants and the Doppler solver: the magnitudes of a frame are any
  function of its samples, and floating-point values are real numbers.
- The signal and noise levels in decibels and the timestamps that bursts carry; they decide nothing.
- Sorting of peaks: any function that returns a permutation in descending order.
- Sample positions and timestamps of 2^64 and more, and overflow of `capacity * 2u` in `grow_queue`. A start before
  the first sample, which wraps, is modelled as a negative number that compares as the largest.
- Spurious wake-ups of condition variables and failed allocation.
- Destroying the queue and the locks, and calling `blocking_queue_close` more than once.
- The order of instructions within a critical section of a fair lock: each is one step of the protocol.
- Failure of a GPU dispatch, which loses the batch.
- How the C library formats numbers that are not ints and scans numbers is a parameter; NaN and infinities, locales,
  raw and reference items, error positions and allocation hooks are not modelled.
- Printing and parsing work on trees as values; linked nodes are modelled for the edits of child lists. Freeing items
  and looking them up by name are not modelled.
- ACARS text and libacars, and what is done with a reassembled message.
- Tables for three errors in bch.py, and its functions that only reformat strings of bits.
- The fields read from ring alerts, broadcasts and the link control word, and the fixed-size de-interleaving of
  frame_decode.c.
- VITA 49 headers, aircraft and waypoint lookup.
- PayloadDecoder.DescramblePayload: for a last block with an odd number of symbols the code leaves one cell of each
  half unset; the contract names what these cells hold instead of fixing it. Input buffers are sequences.
- FairLock.FairLock.Resume: the caller was signalled, as spurious wake-ups are left out.
- SampleRing.Ring.Write: a write is at most as long as the ring.
- SampleRing.Ring.Extract: a request, once clamped, is at most as long as the ring; the code reads past the ring
  otherwise.
- BurstDetector.Detector.Feed: a feed and a frame fit in the ring, and the requests for ended bursts are at most as
  long as the ring; samples that a burst asks for beyond the end of the stream, up to `burst_pre_len` of them, are
  whatever the ring holds.
- BurstDetection.FrameLaw: the threshold is not negative; the code computes it as a power of ten over positive
  numbers.
- BchSyndromes.MkSyn: three errors, which nothing asks for, are not modelled, and for fewer than three bits a
  collision may go unnoticed.
- IdaReassembly.Context.Reassemble: a burst's payload is its first `da_len` bytes.
- SbdReassembly.Multi.Place: the counters for statistics are not carried.
- SbdReassembly.Multi.Extract: the counters for statistics are not carried.
- JsonRoundTrip.NumberIsRfc: that `strtod` reads a decimal integer is what the C standard says of it, not proved.
- JsonRfc.RfcTextReads: a number stands for what `strtod` makes of its whole token, and a string ends at an escaped
  NUL, as C strings do.
- GaussJordan.Invert: over the reals, for any size, so that rounding is not modelled.
