# Producer-consumer coordinator (hw1.cpp), modelled in Dafny

The program starts a fixed number of producer threads and consumer threads
around one shared buffer of bounded size. The command line gives four
positive numbers: producers, consumers, buffer size and items to produce.
`createSegments` splits the items into one half-open range per producer.
Each producer turns every index of its range into a `Consumable` carrying a
fresh id and appends it to the global vector `consumables`. Each consumer
repeatedly removes the front item. Two semaphores guard the vector:

- `sem1` counts items ready to be taken and starts at 0;
- `sem2` counts free slots and starts at the buffer size.

The model has four modules, one per part of `hw1.cpp`:

- `Config` (`config.dfy`) models the argument check of `checkInputArgs`
  and the record built by `storeInputArgs`. It works on values that are
  already integers, so `args` stands for `argv[1..]`.
- `Segments` (`segments.dfy`) models `createSegments` as a loop that
  builds a sequence, with lemmas proving that its ranges partition
  `[0, itemsToProduce)`.
- `Buffer` (`buffer.dfy`) models the shared state as the class
  `BoundedBuffer`. Its fields are the vector, the two semaphore counts, the
  id counter and the buffer size. The loop bodies of `produce` and
  `consume` become six atomic step methods, each ending at one of the
  source's synchronisation points. A semaphore wait becomes the
  precondition that its count is positive.
  Ghost fields count how many threads sit between two steps, and record
  the history of items appended and taken. `Valid()` is the protocol
  invariant, and every step preserves it, so it holds across any
  interleaving of the steps. From the invariant:
  - `sem1 <= |consumables| <= size - sem2`;
  - the front is never read from an empty vector;
  - items leave in the order they were appended;
  - the k-th item appended, and so the k-th taken, has id k.
- `Program` (`program.dfy`) runs `main` under one serial schedule: each
  item goes through the three producer steps and then the three consumer
  steps. It proves that every configuration accepted by the check hands out
  exactly `itemsToProduce` items, consumed once each with ids 0, 1, 2, ….

## Model

| member | source | states |
|---|---|---|
| `Config.CheckInputArgs` | hw1.cpp:93-111 | accepted exactly when there are four values (argc 5) and each is at least 1; a wrong count is the usage error whatever the values are; an accepted configuration is positive and holds the values in argument order |
| `Segments.CreateSegments` | hw1.cpp:115-134 | returns exactly producersCount ranges; range i starts at (items / producers) * i, and every non-last range ends where the next one starts; the last ends at itemsToProduce; the ranges tile [0, itemsToProduce), and every bound lies in [0, itemsToProduce] |
| `Segments.SourceShapeTiles` | hw1.cpp:119-130 | the source's start and end formulas always give a tiling: first start 0, contiguous, last end the total, no range reversed, all bounds inside [0, items] |
| `Segments.FewItemsEmptyRanges` | hw1.cpp:119-130 | when there are fewer items than producers, every range but the last is the empty range at 0, and the last is [0, items) |
| `Segments.StartsFit` | hw1.cpp:124-126 | every product segmentLength * i the loop computes lies between 0 and itemsToProduce, so none overflows an int |
| `Segments.TilesOrdered` | hw1.cpp:122-132 | in a tiling, range i ends no later than any later range j starts |
| `Segments.TilesPartition` | hw1.cpp:115-134 | a tiling partitions [0, total): every item lies in some range, no item lies in two ranges, no range reaches outside, and the range lengths sum to total |
| `Buffer.BoundedBuffer.Valid` | hw1.cpp:31-36 | each sem1 permit is an item in the vector and each sem2 permit an empty slot, so sem1 <= the vector's length <= size - sem2; a consumer past its wait always finds the vector non-empty |
| `Buffer.BoundedBuffer.constructor` | hw1.cpp:31-35 | starts with an empty vector, sem1 = 0, sem2 = buffer size, id counter 0 and no thread between steps (the globals' initial values and the sem_init calls) |
| `Buffer.BoundedBuffer.ProduceAcquire` | hw1.cpp:146 | sem_wait(&sem2) is enabled only while sem2 > 0 and takes one free-slot permit; the invariant is kept |
| `Buffer.BoundedBuffer.ProduceAppend` | hw1.cpp:148-155 | the new item carries the counter's id, which equals the number of items appended before it, and the counter goes up by one; the item is pushed at the back, and the vector stays within its size |
| `Buffer.BoundedBuffer.ProducePost` | hw1.cpp:157 | sem_post(&sem1) adds one item permit; the invariant is kept |
| `Buffer.BoundedBuffer.ConsumeAcquire` | hw1.cpp:170 | sem_wait(&sem1) is enabled only while sem1 > 0 and takes one item permit; the invariant is kept |
| `Buffer.BoundedBuffer.ConsumeTake` | hw1.cpp:171-176 | front() and erase(begin()) find a non-empty vector; the item taken is the oldest one still buffered, the k-th item taken has id k, and the rest keep their order |
| `Buffer.BoundedBuffer.ConsumeRelease` | hw1.cpp:178 | sem_post(&sem2) gives one free slot back; the invariant is kept |
| `Program.ProduceThenConsume` | hw1.cpp:145-179 | one producer iteration followed by one consumer iteration on an empty buffer: the consumer takes exactly the item just made, with the next id, and the buffer returns to empty with every slot free |
| `Program.SerialRun` | hw1.cpp:45-55 | a configuration the argument check rejects starts nothing and reports the same error; an accepted one, run serially over the ranges createSegments makes, consumes exactly itemsToProduce items, the k-th with id k |

## Left out

- Thread creation, joining and the exits on their failure (hw1.cpp:59-84): the steps are atomic methods, and which thread runs one is not modelled.
- The mutex (hw1.cpp:33, 153-155, 171-176): every step is atomic, so the critical sections are the `ProduceAppend` and `ConsumeTake` steps themselves.
- Blocking and liveness: a semaphore wait is a precondition, never a wait. The endless consumer loop and the busy wait at the end of `main` (hw1.cpp:88, 169) are modelled one loop body at a time.
- `usleep`, `rand()` and the sleep lengths (hw1.cpp:139, 151, 177): `sleepTime` is an arbitrary parameter, given to `SerialRun` as a function of the item's id.
- `fprintf` output, including the "DONE PRODUCING!!" line and the consumption reports (hw1.cpp:85, 95, 99, 173): these are I/O.
- `atoi` (hw1.cpp:98, 107-110): a library call; the configuration is modelled on integers that are already converted.
- The consumer ids, `consumerIDCounter` (hw1.cpp:165-166): each consumer's identity only appears in the report line.
- The unused `&segments[i]` argument handed to consumers (hw1.cpp:71): it is never read, though it can point past the vector when there are more consumers than producers.
- Buffer.BoundedBuffer.ProduceAppend: assigning the id (hw1.cpp:149-150) and the push_back under the mutex (hw1.cpp:154) happen in one atomic step. In the source the counter is read and incremented outside the mutex, so two producers can race on it: they can get the same id, or append ids out of order. The model proves the ids 0, 1, 2, … in append order only for this atomic step, and makes no claim that ids are unique under real concurrency.
- Segments.CreateSegments: requires producersCount >= 1 and itemsToProduce >= 0. Its only caller passes values already checked to be at least 1, so the C division by zero and the negative cases are never reached.
- 32-bit arithmetic: the model uses unbounded integers. `StartsFit` shows that createSegments' products stay within [0, itemsToProduce]. The id counter would wrap only after 2^31 items, which is more than any accepted itemsToProduce, and it is not modelled.
- The intended design has an id source that is safe under concurrent increment. The code does not provide one (see the `ProduceAppend` line above). The model follows the code, and only its atomic step makes the ids come out in order.
