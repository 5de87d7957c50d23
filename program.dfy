/** main of hw1.cpp under one particular schedule: after the arguments are
    checked, the semaphores set up and the ranges made, every item is taken
    through all three producer steps and then all three consumer steps
    before the next one is produced. */
module Program {
  import opened Config
  import opened Segments
  import opened Buffer

  /** Nothing is buffered, no thread is between steps, and every slot is free. */
  ghost predicate Drained(buffer: BoundedBuffer)
    reads buffer
  {
    buffer.Valid() && buffer.Quiescent() && buffer.consumables == [] &&
    buffer.slotPermits == buffer.capacity
  }

  /** One iteration of produce's loop followed by one iteration of
      consume's loop on a drained buffer: the item made is the one taken. */
  method ProduceThenConsume(buffer: BoundedBuffer, sleepTime: int) returns (taken: Consumable)
    requires Drained(buffer) && buffer.capacity >= 1
    modifies buffer
    ensures Drained(buffer)
    ensures taken == Consumable(|old(buffer.consumed)|, sleepTime)
    ensures buffer.consumed == old(buffer.consumed) + [taken]
  {
    buffer.ProduceAcquire();
    var c := buffer.ProduceAppend(sleepTime);
    buffer.ProducePost();
    buffer.ConsumeAcquire();
    taken := buffer.ConsumeTake();
    buffer.ConsumeRelease();
  }

  /** Runs the whole configuration serially and returns the items in the
      order the consumers took them. A rejected configuration starts
      nothing. Otherwise every item is consumed exactly once, with ids
      0, 1, 2, ... in order. */
  method SerialRun(args: seq<int>, sleepFor: int -> int) returns (r: Result<seq<Consumable>>)
    ensures r.Err? <==> CheckInputArgs(args).Err?
    ensures r.Err? ==> r.error == CheckInputArgs(args).error
    ensures r.Ok? ==> |r.value| == args[3]
    ensures r.Ok? ==> forall k :: 0 <= k < |r.value| ==> r.value[k] == Consumable(k, sleepFor(k))
  {
    var checked := CheckInputArgs(args);
    if checked.Err? {
      return Err(checked.error);
    }
    var input := checked.value;
    var buffer := new BoundedBuffer(input.maximumConsumables);
    var segments := CreateSegments(input.itemsToProduce, input.producersCount);
    TilesPartition(segments, input.itemsToProduce);

    var log: seq<Consumable> := [];
    var p := 0;
    while p < |segments|
      invariant 0 <= p <= |segments|
      invariant Drained(buffer) && buffer.capacity >= 1
      invariant buffer.consumed == log && |log| == SumLengths(segments[..p])
      invariant forall k :: 0 <= k < |log| ==> log[k] == Consumable(k, sleepFor(k))
    {
      var s := segments[p];
      var i := s.start;
      while i < s.end
        invariant s.start <= i <= s.end
        invariant Drained(buffer) && buffer.capacity >= 1
        invariant buffer.consumed == log && |log| == SumLengths(segments[..p]) + (i - s.start)
        invariant forall k :: 0 <= k < |log| ==> log[k] == Consumable(k, sleepFor(k))
      {
        var taken := ProduceThenConsume(buffer, sleepFor(buffer.nextId));
        log := log + [taken];
        i := i + 1;
      }
      assert segments[..p + 1][..p] == segments[..p];
      p := p + 1;
    }
    assert segments[..p] == segments;
    return Ok(log);
  }
}
