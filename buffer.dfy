/** The shared state of hw1.cpp's producers and consumers: the global vector
    `consumables`, the semaphores sem1 (items ready, initially 0) and sem2
    (free slots, initially the buffer size) and consumableIDCounter. The
    threads are replaced by atomic steps, one per stretch of a loop body
    between two synchronisation points; a semaphore wait is a precondition
    that the count is positive (the step is enabled), and blocking is not
    modelled. Any interleaving of the steps keeps Valid(). */
module Buffer {

  /** One item in the buffer (class Consumable); sleepTime is the consumer's
      simulated work and is an arbitrary payload here. */
  datatype Consumable = Consumable(id: int, sleepTime: int)

  class BoundedBuffer {
    /** The buffer size, maximumConsumables, given to sem_init for sem2. */
    const capacity: nat
    /** The global vector, front first. */
    var consumables: seq<Consumable>
    /** sem1: item permits. */
    var itemPermits: nat
    /** sem2: free-slot permits. */
    var slotPermits: nat
    /** consumableIDCounter: the id the next item gets. */
    var nextId: int

    // Where the threads are, counted per stretch of their loop bodies.
    /** Producers past sem_wait(&sem2) that have not yet appended. */
    ghost var appending: nat
    /** Producers that have appended and not yet done sem_post(&sem1). */
    ghost var posting: nat
    /** Consumers past sem_wait(&sem1) that have not yet taken the front. */
    ghost var taking: nat
    /** Consumers that have taken an item and not yet done sem_post(&sem2). */
    ghost var releasing: nat

    /** Every item ever appended, and every item ever taken, in order. */
    ghost var produced: seq<Consumable>
    ghost var consumed: seq<Consumable>

    /** The protocol invariant. Each item permit stands for an item in the
        buffer and each free-slot permit for an empty slot; the items are
        taken in the order they were appended (produced is consumed followed
        by what is still buffered), and ids are handed out 0, 1, 2, ... in
        order of appending. */
    ghost predicate Valid()
      reads this
      ensures Valid() ==> itemPermits <= |consumables| <= capacity - slotPermits
      ensures Valid() ==> (itemPermits > 0 || taking > 0 ==> |consumables| > 0)
    {
      && |consumables| == itemPermits + posting + taking
      && slotPermits + appending + |consumables| + releasing == capacity
      && produced == consumed + consumables
      && nextId == |produced|
      && (forall k :: 0 <= k < |produced| ==> produced[k].id == k)
    }

    /** No thread is between two of its steps. */
    ghost predicate Quiescent()
      reads this
    {
      appending == 0 && posting == 0 && taking == 0 && releasing == 0
    }

    /** The globals' initial values and the two sem_init calls of main. */
    constructor (capacity: nat)
      ensures Valid() && Quiescent()
      ensures this.capacity == capacity
      ensures consumables == [] && itemPermits == 0 && slotPermits == capacity && nextId == 0
      ensures produced == [] && consumed == []
    {
      this.capacity := capacity;
      consumables := [];
      itemPermits, slotPermits := 0, capacity;
      nextId := 0;
      appending, posting, taking, releasing := 0, 0, 0, 0;
      produced, consumed := [], [];
    }

    /** Producer: sem_wait(&sem2), enabled only while a slot is free. */
    method ProduceAcquire()
      requires Valid() && slotPermits > 0
      modifies this`slotPermits, this`appending
      ensures Valid()
      ensures slotPermits == old(slotPermits) - 1 && appending == old(appending) + 1
    {
      slotPermits := slotPermits - 1;
      appending := appending + 1;
    }

    /** Producer: make an item with the next id and push it at the back of
        the vector. The buffer stays within its capacity. */
    method ProduceAppend(sleepTime: int) returns (c: Consumable)
      requires Valid() && appending > 0
      modifies this`consumables, this`nextId, this`appending, this`posting, this`produced
      ensures Valid()
      ensures c == Consumable(old(nextId), sleepTime) && c.id == |old(produced)|
      ensures nextId == old(nextId) + 1
      ensures consumables == old(consumables) + [c]
      ensures |consumables| <= capacity
      ensures produced == old(produced) + [c]
      ensures appending == old(appending) - 1 && posting == old(posting) + 1
    {
      c := Consumable(nextId, sleepTime);
      nextId := nextId + 1;
      consumables := consumables + [c];
      appending, posting := appending - 1, posting + 1;
      produced := produced + [c];
    }

    /** Producer: sem_post(&sem1). */
    method ProducePost()
      requires Valid() && posting > 0
      modifies this`itemPermits, this`posting
      ensures Valid()
      ensures itemPermits == old(itemPermits) + 1 && posting == old(posting) - 1
    {
      itemPermits := itemPermits + 1;
      posting := posting - 1;
    }

    /** Consumer: sem_wait(&sem1), enabled only while an item permit is there. */
    method ConsumeAcquire()
      requires Valid() && itemPermits > 0
      modifies this`itemPermits, this`taking
      ensures Valid()
      ensures itemPermits == old(itemPermits) - 1 && taking == old(taking) + 1
    {
      itemPermits := itemPermits - 1;
      taking := taking + 1;
    }

    /** Consumer: read the front of the vector and erase it. The invariant
        guarantees the vector is not empty here; the item taken is the
        oldest one not yet taken, and the k-th item taken has id k. */
    method ConsumeTake() returns (c: Consumable)
      requires Valid() && taking > 0
      modifies this`consumables, this`taking, this`releasing, this`consumed
      ensures Valid()
      ensures |old(consumables)| > 0 && c == old(consumables)[0]
      ensures consumables == old(consumables)[1..]
      ensures c == produced[|old(consumed)|] && c.id == |old(consumed)|
      ensures consumed == old(consumed) + [c]
      ensures taking == old(taking) - 1 && releasing == old(releasing) + 1
    {
      c := consumables[0];
      consumables := consumables[1..];
      taking, releasing := taking - 1, releasing + 1;
      consumed := consumed + [c];
    }

    /** Consumer: sem_post(&sem2), after the simulated work. */
    method ConsumeRelease()
      requires Valid() && releasing > 0
      modifies this`slotPermits, this`releasing
      ensures Valid()
      ensures slotPermits == old(slotPermits) + 1 && releasing == old(releasing) - 1
    {
      slotPermits := slotPermits + 1;
      releasing := releasing - 1;
    }
  }
}
