/** Argument preparation of `wasm_execute_indirect_function`: an `invoke_*`
    import receives the function-table index as its first argument and the
    callee's own arguments after it; the driver shifts those down one place
    and passes them on as 64-bit words. */
module IndirectCall {
  import opened Options
  import opened PortTerms

  /** What is handed to `wasm_runtime_call_indirect`: the table index and
      the `argv` words. */
  datatype IndirectCall = IndirectCall(tableIndex: int, argv: seq<int>)

  /** The words of a list of values (`of.i64` of each). */
  function Payloads(vs: seq<WasmVal>): (r: seq<int>)
    ensures |r| == |vs|
    ensures forall i :: 0 <= i < |vs| ==> r[i] == vs[i].payload
  {
    if vs == [] then [] else Payloads(vs[..|vs| - 1]) + [vs[|vs| - 1].payload]
  }

  /** The call prepared as written: with nothing besides the table index
      there is no call at all (the early `return 0`). */
  function PreparedCallAsWritten(args: seq<WasmVal>): Option<IndirectCall>
  {
    if |args| <= 1 then None else Some(IndirectCall(args[0].payload, Payloads(args[1..])))
  }

  /** The call an `invoke_*` import stands for: the entry at the first
      argument's index, called with the remaining arguments (none, for
      `invoke_v(index)`). Without even a table index there is no call. */
  function PreparedCall(args: seq<WasmVal>): Option<IndirectCall>
  {
    if args == [] then None else Some(IndirectCall(args[0].payload, Payloads(args[1..])))
  }

  /** Putting a table index in front of an argument list and preparing the
      call gets the index and the list back. */
  lemma PreparedCallRoundTrip(index: WasmVal, rest: seq<WasmVal>)
    ensures PreparedCall([index] + rest) == Some(IndirectCall(index.payload, Payloads(rest)))
  {
    assert ([index] + rest)[1..] == rest;
  }

  /** As written, the two agree except on a call carrying only its table
      index, which is dropped: `invoke_v(index)` never runs the entry. */
  lemma {:induction false} IndexOnlyCallDropped(args: seq<WasmVal>)
    ensures PreparedCallAsWritten(args) == PreparedCall(args) <==> |args| != 1
    ensures |args| == 1 ==>
              PreparedCallAsWritten(args) == None
              && PreparedCall(args) == Some(IndirectCall(args[0].payload, []))
  {
    if |args| == 1 {
      assert args[1..] == [];
    }
  }

  /** `prepared_data[i - 1] = input_args->data[i]` for `1 <= i < size`. */
  method ShiftArguments(args: array<WasmVal>) returns (prepared: array<WasmVal>)
    requires args.Length >= 1
    ensures fresh(prepared)
    ensures prepared[..] == args[1..]
  {
    prepared := new WasmVal[args.Length - 1](_ => WasmVal(I32, 0));
    for i := 1 to args.Length
      invariant prepared[..i - 1] == args[1..i]
    {
      prepared[i - 1] := args[i];
    }
    assert prepared[..args.Length - 1] == prepared[..];
  }

  /** `argv[i] = prepared_args.data[i].of.i64` for `0 <= i < argc`. */
  method ArgumentWords(prepared: array<WasmVal>) returns (argv: array<int>)
    ensures fresh(argv)
    ensures argv[..] == Payloads(prepared[..])
  {
    argv := new int[prepared.Length];
    for i := 0 to prepared.Length
      invariant argv[..i] == Payloads(prepared[..i])
    {
      assert prepared[..i + 1][..i] == prepared[..i];
      argv[i] := prepared[i].payload;
    }
    assert prepared[..prepared.Length] == prepared[..];
  }

  /** `wasm_execute_indirect_function` with its size check corrected and
      made before the table index is read: with no arguments at all it
      returns 0 and calls nothing; otherwise it calls the table entry at the
      first argument's index with the remaining arguments, shifted down one
      place (possibly none), and returns 0 or -1 as the runtime reports
      success or failure. `runtimeCall` stands for
      `wasm_runtime_call_indirect`. */
  method ExecuteIndirect(args: array<WasmVal>, runtimeCall: (int, seq<int>) -> bool)
    returns (result: int, call: Option<IndirectCall>)
    ensures call == PreparedCall(args[..])
    ensures args.Length == 0 ==> result == 0 && call == None
    ensures args.Length >= 1 ==>
              && call.Some?
              && call.value.tableIndex == args[0].payload
              && |call.value.argv| == args.Length - 1
              && (forall i :: 0 <= i < args.Length - 1 ==> call.value.argv[i] == args[i + 1].payload)
              && result == (if runtimeCall(call.value.tableIndex, call.value.argv) then 0 else -1)
  {
    if args.Length == 0 {
      return 0, None;
    }
    var functionIndex := args[0].payload;
    var prepared := ShiftArguments(args);
    var argv := ArgumentWords(prepared);
    call := Some(IndirectCall(functionIndex, argv[..]));
    result := if runtimeCall(functionIndex, argv[..]) then 0 else -1;
  }
}
