/** `wasm_handle_import`: the host side of every import of the running
    WebAssembly module. An `invoke_*` import is an indirect call and is
    served at once; any other import becomes a request message to Erlang,

      {import, Module, Field, [Arg ...], Signature}

    and the handler then waits for Erlang's reply, which either carries an
    error message (the import traps) or the import's results. */
module ImportHandler {
  import opened Options
  import opened CString
  import opened PortTerms
  import opened IndirectCall

  /** `ImportHook`: what the handler is given about the import it serves. */
  datatype ImportHook = ImportHook(moduleName: string, fieldName: string, signature: string)

  /** `strncmp(field_name, "invoke", 6) == 0`. */
  predicate IsInvoke(fieldName: string)
  {
    StrnEqual(fieldName, "invoke", 6)
  }

  /** The routing test is a prefix test: every field name that begins with
      `invoke`, and only those, takes the indirect path. */
  lemma IsInvokeIsPrefix(fieldName: string)
    ensures IsInvoke(fieldName) <==> HasPrefix(fieldName, "invoke")
  {
    StrnEqualIsPrefix(fieldName, "invoke");
  }

  /** `size_t` arithmetic wraps around at 2^64. */
  const SizeWrap: int := 0x1_0000_0000_0000_0000

  /** The length word sent with the signature, `strlen(signature) - 1` in
      `size_t` arithmetic: the signature string loses its last character. */
  function SignatureLengthWord(signature: string): (n: int)
    ensures 0 <= n < SizeWrap
    ensures 0 < |signature| <= SizeWrap ==> n == |signature| - 1
    ensures signature == [] ==> n == SizeWrap - 1
  {
    (|signature| - 1) % SizeWrap
  }

  /** The request's first words: the `import` atom, the module name and the
      field name. */
  function RequestHead(hook: ImportHook): seq<Term>
  {
    [AtomOp, NamedAtom("import")] + StringTerms(hook.moduleName) + StringTerms(hook.fieldName)
  }

  /** The words after the arguments: the list's end and length, the
      signature, and the 5-tuple. */
  function RequestTail(hook: ImportHook, argCount: nat): seq<Term>
  {
    [NilOp, ListOp, Word(argCount + 1),
     StringOp, Chars(hook.signature), Word(SignatureLengthWord(hook.signature)),
     TupleOp, Word(5)]
  }

  /** The words of the request message, in the order they are written. */
  function RequestTerms(hook: ImportHook, args: seq<WasmVal>, encode: WasmVal -> seq<Term>): seq<Term>
  {
    RequestHead(hook) + EncodeAll(args, encode) + RequestTail(hook, |args|)
  }

  /** Words allocated for the request as the source computes them:
      `(2 + 2*3) + (args + 1)*2 + (results + 1)*2 + 2`. */
  function RequestCapacityAsWritten(argCount: nat, resultCount: nat): nat
  {
    (2 + 2 * 3) + (argCount + 1) * 2 + (resultCount + 1) * 2 + 2
  }

  /** Words the request needs: 16 fixed words and two per argument. The
      number of results plays no part in the message. */
  function RequestCapacity(argCount: nat): nat
  {
    16 + 2 * argCount
  }

  /** The request has 16 fixed words besides the argument encodings. */
  lemma RequestLength(hook: ImportHook, args: seq<WasmVal>, encode: WasmVal -> seq<Term>)
    requires EncodesInTwo(args, encode)
    ensures |RequestTerms(hook, args, encode)| == 16 + |EncodeAll(args, encode)|
    ensures |RequestTerms(hook, args, encode)| <= RequestCapacity(|args|)
    ensures EncodesInExactlyTwo(args, encode) ==> |RequestTerms(hook, args, encode)| == RequestCapacity(|args|)
  {
    EncodeAllBound(args, encode);
  }

  /** As written, the allocation holds the request exactly when the import
      has at least one result: with no results, and every argument encoded
      in two words, the handler writes two words past the end. */
  lemma RequestOverflowsAsWritten(hook: ImportHook, args: seq<WasmVal>, resultCount: nat,
                                  encode: WasmVal -> seq<Term>)
    requires EncodesInExactlyTwo(args, encode)
    ensures |RequestTerms(hook, args, encode)| <= RequestCapacityAsWritten(|args|, resultCount)
            <==> resultCount >= 1
    ensures resultCount == 0 ==>
              |RequestTerms(hook, args, encode)| == RequestCapacityAsWritten(|args|, resultCount) + 2
  {
    assert EncodesInTwo(args, encode);
    RequestLength(hook, args, encode);
  }

  /** The argument loop: `msg_index += wasm_val_to_erl_term(&msg[msg_index],
      &args->data[i])` for each argument, in order. */
  method AppendArguments(args: array<WasmVal>, encode: WasmVal -> seq<Term>, msg: array<Term>, start: nat)
    returns (next: nat)
    requires EncodesInTwo(args[..], encode)
    requires start + 2 * args.Length <= msg.Length
    modifies msg
    ensures next == start + |EncodeAll(args[..], encode)| <= start + 2 * args.Length
    ensures msg[..next] == old(msg[..start]) + EncodeAll(args[..], encode)
  {
    ghost var vs := args[..];
    ghost var prefix := msg[..start];
    next := start;
    for i := 0 to args.Length
      invariant next == start + |EncodeAll(vs[..i], encode)| <= start + 2 * i
      invariant msg[..next] == prefix + EncodeAll(vs[..i], encode)
    {
      assert vs[..i + 1][..i] == vs[..i];
      assert EncodesInTwo(vs[..i + 1], encode);
      EncodeAllBound(vs[..i + 1], encode);
      ConcatAssoc(prefix, EncodeAll(vs[..i], encode), encode(args[i]));
      next := Emit(msg, next, encode(args[i]));
    }
    assert vs[..args.Length] == vs;
  }

  /** Build the request for a non-`invoke` import in a buffer of the
      corrected size. `encode` stands for `wasm_val_to_erl_term`. */
  method BuildImportRequest(hook: ImportHook, args: array<WasmVal>, encode: WasmVal -> seq<Term>)
    returns (msg: array<Term>, msgLen: nat)
    requires EncodesInTwo(args[..], encode)
    ensures msg.Length == RequestCapacity(args.Length)
    ensures msgLen <= msg.Length
    ensures msg[..msgLen] == RequestTerms(hook, args[..], encode)
  {
    msg := new Term[RequestCapacity(args.Length)](_ => NilOp);
    msgLen := Emit(msg, 0, RequestHead(hook));
    msgLen := AppendArguments(args, encode, msg, msgLen);
    msgLen := Emit(msg, msgLen, RequestTail(hook, args.Length));
  }

  /** Erlang's reply to a request: an error message, or the result terms,
      which `erl_terms_to_wasm_vals` either converts (`Some`) or fails to
      convert (`None`). */
  datatype Reply = ErrorReply(message: string) | ValueReply(converted: Option<seq<WasmVal>>)

  /** How the handler ends. */
  datatype ImportOutcome =
    // the indirect path; NULL is returned and `results` is never written,
    // so whatever the called entry returns is lost
    | Dispatched(status: int, call: Option<IndirectCall>)
    // a trap carrying the error message
    | Trapped(message: string)
    // NULL is returned, results set
    | Returned(results: seq<WasmVal>)
    // NULL is returned, results not set by the model
    | ConversionFailed

  /** `wasm_handle_import`. An `invoke_*` import is dispatched to the
      indirect-call path and sends nothing; any other import sends its
      request and ends as Erlang's reply says. The reply (which arrives
      after the handler blocks on the import's condition variable) and the
      runtime's indirect call are parameters. */
  method HandleImport(hook: ImportHook, args: array<WasmVal>, encode: WasmVal -> seq<Term>,
                      reply: Reply, runtimeCall: (int, seq<int>) -> bool)
    returns (outcome: ImportOutcome, sent: Option<seq<Term>>)
    requires EncodesInTwo(args[..], encode)
    ensures IsInvoke(hook.fieldName) ==>
              && sent == None && outcome.Dispatched? && outcome.call == PreparedCall(args[..])
              && outcome.status == (match outcome.call
                                      case None => 0
                                      case Some(c) => if runtimeCall(c.tableIndex, c.argv) then 0 else -1)
    ensures !IsInvoke(hook.fieldName) ==> sent == Some(RequestTerms(hook, args[..], encode))
    ensures !IsInvoke(hook.fieldName) && reply.ErrorReply? ==> outcome == Trapped(reply.message)
    ensures !IsInvoke(hook.fieldName) && reply.ValueReply? ==>
              outcome == (if reply.converted.Some? then Returned(reply.converted.value) else ConversionFailed)
  {
    if IsInvoke(hook.fieldName) {
      var status, call := ExecuteIndirect(args, runtimeCall);
      return Dispatched(status, call), None;
    }
    var msg, msgLen := BuildImportRequest(hook, args, encode);
    sent := Some(msg[..msgLen]);
    match reply {
      case ErrorReply(m) =>
        outcome := Trapped(m);
      case ValueReply(converted) =>
        match converted {
          case None => outcome := ConversionFailed;
          case Some(rs) => outcome := Returned(rs);
        }
    }
  }
}
