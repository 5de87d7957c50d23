/** Start-up configuration: the acceptance test of checkInputArgs and the
    record that storeInputArgs fills in (hw1.cpp). The command-line strings
    are taken as already converted to integers; `args` stands for argv[1..],
    so the source's argc is |args| + 1. */
module Config {

  /** The four numbers the program is started with (class Input). */
  datatype Input = Input(
    producersCount: int,
    consumersCount: int,
    maximumConsumables: int,
    itemsToProduce: int)

  /** The two ways checkInputArgs rejects its arguments; both end the
      process with exit status 1 before any thread is started. */
  datatype ArgError =
    | Usage        // argc != 5: the usage line is printed
    | NotPositive  // some value is below 1

  datatype Result<T> = Ok(value: T) | Err(error: ArgError)

  /** Every field of the configuration is at least 1. */
  predicate Positive(input: Input) {
    input.producersCount >= 1 && input.consumersCount >= 1 &&
    input.maximumConsumables >= 1 && input.itemsToProduce >= 1
  }

  /** checkInputArgs followed by storeInputArgs: first the argument count is
      checked, then the four values, in the source's order. */
  function CheckInputArgs(args: seq<int>): (r: Result<Input>)
    ensures r.Ok? <==> |args| == 4 && forall i :: 0 <= i < |args| ==> args[i] >= 1
    ensures r == Err(Usage) <==> |args| != 4
    ensures r.Ok? ==> Positive(r.value)
    ensures r.Ok? ==> [r.value.producersCount, r.value.consumersCount,
                       r.value.maximumConsumables, r.value.itemsToProduce] == args
  {
    if |args| != 4 then Err(Usage)
    else if args[0] < 1 || args[1] < 1 || args[2] < 1 || args[3] < 1 then Err(NotPositive)
    else Ok(Input(args[0], args[1], args[2], args[3]))
  }
}
