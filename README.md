# hb_wasm driver core in Dafny

The `hb_beamr` port driver runs a WebAssembly module for an Erlang process.
The file `native/hb_beamr/driver/src/hb_wasm.c` does three things that this
project models.

- **Runtime initialisation message.** `wasm_initialize_runtime` builds the
  message
  `{execution_result, [{Kind, Module, Name, Sig} ...], [{Kind, Name, Sig} ...]}`
  as a flat array of port-term words (`ErlDrvTermData`).
  - A counting pass builds an index of import modules. There is one entry
    per distinct module name, in order of first appearance, each with its
    number of imports.
  - A fill pass walks the index. For each module it appends the tuples of
    that module's imports to the message and fills the module's table of
    native symbols. An import whose signature cannot be computed is skipped.
  - The export loop then appends one tuple per export. A function export
    without a signature is skipped.
- **Import handler.** `wasm_handle_import` serves a call from the module to
  one of its imports.
  - An `invoke_*` import is an indirect call. It is dispatched at once.
  - Any other import becomes an `{import, Module, Field, [Arg ...], Signature}`
    request to Erlang. The handler then waits for the reply. An error reply
    becomes a trap; otherwise the reply's terms are converted into the
    import's results.
- **Indirect calls.** `wasm_execute_indirect_function` takes the table index
  from the first argument. It shifts the remaining arguments down one place,
  turns them into 64-bit words and calls the table entry.

Every loop of the modelled code that writes a message, index, symbol or
argument array is an imperative Dafny method over a Dafny `array`. Each
such method is proved against a specification function, and the
properties the driver relies on are lemmas about those functions:

- the index lists each module once, with its exact count, in
  first-appearance order;
- the per-module groups partition the usable imports;
- each module's symbol table holds exactly that module's usable imports;
- the message always fits the size reserved for it;
- the list arity words are exact exactly when nothing was skipped.

Three places where the code does not do what it evidently means are
listed under "## Findings". For each, a member states the code as
written and exhibits the difference. The rest of the model follows the
corrected behaviour: the request buffer has the size the request needs, the
list arity words count the tuples actually pushed, and an indirect call
with only a table index still calls the entry.

Modules:

| file | module | what |
|---|---|---|
| `options.dfy` | `Options` | `Option`, for values C signals by NULL or a failure flag |
| `cstring.dfy` | `CString` | `strncmp`-style comparison |
| `port_terms.dfy` | `PortTerms` | port-term words, value encodings, `Emit` |
| `import_index.dfy` | `ImportIndex` | imports, the module index and the counting pass |
| `init_message.dfy` | `InitMessage` | fill pass, export loop, the whole initialisation message |
| `indirect_call.dfy` | `IndirectCall` | argument preparation for indirect calls |
| `import_handler.dfy` | `ImportHandler` | the import handler and its request message |

Several things are parameters of the model:

- the value encoder `wasm_val_to_erl_term`;
- the result of `get_function_sig` for each import and export (an `Option`);
- Erlang's reply;
- the runtime's `wasm_runtime_call_indirect`.

## Model

| member | source | states |
|---|---|---|
| CString.StrnEqualIsPrefix | native/hb_beamr/driver/src/hb_wasm.c:16 | comparing `a` with a non-empty `b` over the length of `b` succeeds exactly when `a` begins with `b` |
| ImportHandler.IsInvokeIsPrefix | native/hb_beamr/driver/src/hb_wasm.c:16-19 | a field name takes the indirect-call path if and only if it begins with `invoke` (so `invoke_vii` and `invokeX` alike) |
| PortTerms.EncodeAllBound | native/hb_beamr/driver/src/hb_wasm.c:36-38 | when every value encodes to at most two words, the argument encodings take at most two words per argument, and exactly two per argument when every encoding is two words |
| PortTerms.Emit | native/hb_beamr/driver/src/hb_wasm.c:26-33 | writing words one by one with a post-incremented index appends them after the first `at` words and leaves the words before and after untouched |
| ImportIndex.ModuleNamesDistinct | native/hb_beamr/driver/src/hb_wasm.c:188-203 | the index never lists a module name twice |
| ImportIndex.ModuleNamesCover | native/hb_beamr/driver/src/hb_wasm.c:188-203 | a module name is in the index if and only if some import names it |
| ImportIndex.ModuleNamesInFirstAppearanceOrder | native/hb_beamr/driver/src/hb_wasm.c:188-203 | modules are listed in the order of their first import |
| ImportIndex.IndexCountsPositive | native/hb_beamr/driver/src/hb_wasm.c:198-201 | every entry of the index counts at least one import |
| ImportIndex.IndexCountsSum | native/hb_beamr/driver/src/hb_wasm.c:188-203 | the counts of the index add up to the number of imports |
| ImportIndex.PartitionByModule | native/hb_beamr/driver/src/hb_wasm.c:211-333 | taken module by module, the imports (and the usable imports) of the listed modules are all the imports (all the usable imports): nothing is visited twice and nothing is missed |
| ImportIndex.UsableWithinModule | native/hb_beamr/driver/src/hb_wasm.c:261-266 | a module has no more usable imports than imports, and as many exactly when none of its imports lacks a signature |
| ImportIndex.SelectPrefix | native/hb_beamr/driver/src/hb_wasm.c:223-226 | the imports of a module found in a prefix of the import list are a prefix of those found in the whole list |
| ImportIndex.SumSelectedPrefix | native/hb_beamr/driver/src/hb_wasm.c:211 | the modules visited so far hold no more imports than all modules |
| ImportIndex.IndexStep | native/hb_beamr/driver/src/hb_wasm.c:188-203 | counting one more import bumps the entry of its module if there is one, and otherwise appends a new entry with count 1 |
| ImportIndex.Position | native/hb_beamr/driver/src/hb_wasm.c:191-197 | the position found for a name is the first entry with that name, or the number of entries when no entry has it |
| ImportIndex.FindModule | native/hb_beamr/driver/src/hb_wasm.c:190-197 | the inner search returns the position of the first entry for the module, and reports a hit exactly when there is one |
| ImportIndex.Tally | native/hb_beamr/driver/src/hb_wasm.c:189-202 | after one import the index is the tallied index, and it grows by at most one entry |
| ImportIndex.CountModules | native/hb_beamr/driver/src/hb_wasm.c:186-203 | the counting pass leaves in the first `found` slots exactly the distinct module names in first-appearance order, each with its number of imports |
| InitMessage.FillScanStaysFull | native/hb_beamr/driver/src/hb_wasm.c:226-230 | once a module's table is found full, the rest of the imports change nothing |
| InitMessage.FillScanTakesUsable | native/hb_beamr/driver/src/hb_wasm.c:220-326 | the fill pass of a module takes a prefix of its usable imports in their original order; if it runs to the end it takes all of them, and it stops early only when the module has more imports than table slots |
| InitMessage.FillScanCounted | native/hb_beamr/driver/src/hb_wasm.c:213-330 | with the size found by the counting pass the table never fills up early, and the pass takes exactly the module's usable imports |
| InitMessage.InitMessageLength | native/hb_beamr/driver/src/hb_wasm.c:177 | the message has 10 framing words, 13 per usable import and 10 per announced export, so it always fits the `2 + 3 + 5 + 13*imports + 11*exports` words reserved |
| InitMessage.ImportListArityExact | native/hb_beamr/driver/src/hb_wasm.c:342-344 | the import list's declared length `import_count + 1` matches the tuples pushed if and only if no import was skipped |
| InitMessage.ExportListArityExact | native/hb_beamr/driver/src/hb_wasm.c:444-446 | the export list's declared length `export_count + 1` matches the tuples pushed if and only if every function export has a signature |
| InitMessage.ListAritiesAsWritten | native/hb_beamr/driver/src/hb_wasm.c:342-448 | the message as written, whose list arities are `import_count + 1` and `export_count + 1`, equals the message with the pushed counts if and only if no import and no function export was skipped; either way it has the same length, so it fits the reserved size |
| InitMessage.AppendOne | native/hb_beamr/driver/src/hb_wasm.c:272-312 | one more usable import adds its 13-word tuple to the message words and its symbol to the table contents |
| InitMessage.ExportStep | native/hb_beamr/driver/src/hb_wasm.c:383-441 | one more export adds its tuple to the export section if it is announced, and nothing otherwise |
| InitMessage.AppendImport | native/hb_beamr/driver/src/hb_wasm.c:272-321 | appends the 13-word `{Kind, Module, Name, Sig}` tuple of a usable import and copies its native symbol (name, and an attachment with module, field and signature) into the next slot of the module's table |
| InitMessage.AppendModuleImports | native/hb_beamr/driver/src/hb_wasm.c:213-330 | for one module: allocates a table of `count` slots and does what the fill-pass specification says. It stops exactly when that says the table is full. The filled slots and the words appended are exactly the imports taken, in order |
| InitMessage.AppendExports | native/hb_beamr/driver/src/hb_wasm.c:383-441 | the export loop appends exactly the export section: `{Kind, Name, Sig}` for each export in order, with the empty signature for non-functions, and skipping function exports without a signature; it also counts the tuples it pushed |
| InitMessage.AppendModuleGroup | native/hb_beamr/driver/src/hb_wasm.c:211-333 | one turn of the outer fill loop appends the next module's group of tuples, and returns a table sized by the module's count that holds exactly the module's usable imports |
| InitMessage.TablesExtend | native/hb_beamr/driver/src/hb_wasm.c:312 | adding the next module's table keeps the facts about every earlier table |
| InitMessage.FillPass | native/hb_beamr/driver/src/hb_wasm.c:211-333 | the fill pass writes the import tuples module by module in index order, one group per module, and leaves one table per index entry holding that module's usable imports; the tuples pushed number the usable imports |
| InitMessage.BuildImportPart | native/hb_beamr/driver/src/hb_wasm.c:176-333 | header, counting pass and fill pass: the index is exact, every table holds its module's usable imports, and the words written are the header and every module's group of tuples |
| InitMessage.AppendClosings | native/hb_beamr/driver/src/hb_wasm.c:342-448 | after the import tuples come the import list's closing, the export section and the message's closing, each list declaring the tuples pushed onto it plus its tail |
| InitMessage.InitializeRuntime | native/hb_beamr/driver/src/hb_wasm.c:176-448 | the buffer is allocated with the reserved size, and the words written are the whole initialisation message, which fits. The list arities are corrected to count the tuples pushed |
| IndirectCall.Payloads | native/hb_beamr/driver/src/hb_wasm.c:645-647 | one word per value, each the value's payload |
| IndirectCall.PreparedCallRoundTrip | native/hb_beamr/driver/src/hb_wasm.c:588-647 | putting a table index in front of any argument list (the empty one included) and preparing the call gives back the index and the list's words |
| IndirectCall.IndexOnlyCallDropped | native/hb_beamr/driver/src/hb_wasm.c:624-627 | the preparation as written agrees with the intended one except on a call that carries only its table index: as written there is no call, while the intended one calls the entry with no arguments |
| IndirectCall.ShiftArguments | native/hb_beamr/driver/src/hb_wasm.c:630-636 | the prepared arguments are the input arguments without the first, in order |
| IndirectCall.ArgumentWords | native/hb_beamr/driver/src/hb_wasm.c:641-647 | `argv` holds one 64-bit word per prepared argument, in order |
| IndirectCall.ExecuteIndirect | native/hb_beamr/driver/src/hb_wasm.c:574-681 | corrected size check: with no arguments at all it returns 0 and calls nothing. Otherwise it calls the entry at the first argument's index with the other arguments' words, in order (possibly none), and returns 0 on success and -1 on failure |
| ImportHandler.SignatureLengthWord | native/hb_beamr/driver/src/hb_wasm.c:47 | the signature's length word is one less than its length (the last character is cut off), and wraps to 2^64 - 1 for an empty signature |
| ImportHandler.RequestLength | native/hb_beamr/driver/src/hb_wasm.c:25-51 | the request has 16 fixed words besides the argument encodings, so it needs at most (and, with two-word encodings, exactly) `16 + 2*args` words |
| ImportHandler.RequestOverflowsAsWritten | native/hb_beamr/driver/src/hb_wasm.c:25 | with two-word encodings, the size allocated as written holds the request if and only if the import has at least one result; with no results the request is two words longer than the allocation |
| ImportHandler.AppendArguments | native/hb_beamr/driver/src/hb_wasm.c:36-38 | the argument loop appends the arguments' encodings one after another, at most two words each |
| ImportHandler.BuildImportRequest | native/hb_beamr/driver/src/hb_wasm.c:25-51 | the request `{import, Module, Field, [Arg ...], Signature}` is written in full into a buffer of the corrected size `16 + 2*args` |
| ImportHandler.HandleImport | native/hb_beamr/driver/src/hb_wasm.c:10-101 | an `invoke*` import is dispatched to the indirect call with its arguments and sends nothing. Its status is the indirect call's 0 or -1, and its results are never set. Any other import sends its request. An error reply then traps with the reply's message. A reply whose terms convert sets the results; one that does not convert leaves them not set by the model |

## Left out

- Calls into the WebAssembly runtime (WAMR) are not modelled: loading, instantiation, `wasm_runtime_register_natives_raw`, table lookups and exceptions. The runtime's indirect call is a parameter of `ExecuteIndirect`. So `InitializeRuntime` always yields the message, whereas the C code sends an error and returns without sending `init_msg` when the module fails to load or instantiate (lines 354-369).
- Port I/O is not modelled (`erl_drv_output_term`, `send_error`). Sending is modelled as returning the words written.
- The handler's wait for Erlang's reply (mutex, condition variable) is not modelled. The reply is a parameter of `HandleImport`.
- Allocation failures are not modelled. Each `driver_alloc` and `malloc` is assumed to succeed, so the `continue` paths taken on a failed allocation are absent. Leaks and frees are not modelled either.
- `wasm_val_to_erl_term`, `erl_terms_to_wasm_vals` and `get_function_sig` are not part of this model. The encoder is a function parameter, assumed to write at most two words per value, as the buffer sizes assume. The conversion's outcome is part of the reply. The signature is an `Option` on each import and export.
- The fill pass's "fewer symbols than counted" warning (line 328) only logs, so it has no effect in the model. The same holds for all other debug logging.
- `InitializeRuntime`: the tables built by the fill pass are stated by `BuildImportPart` and `FillPass`, and are not returned by `InitializeRuntime`. Their registration is a runtime call.
- Registration is not modelled. It passes the counted size even when an import was skipped, so the slots after the filled ones are registered uninitialised. The model records how many slots are filled for each table.
- `ExecuteIndirect` checks the size before anything else. The C function reads the table index from `data[0]` (line 588) and looks up the table entry before its size check, so it reads past the vector when an `invoke_*` import has no arguments. Emscripten's `invoke_*` imports always pass the index. The model does not capture this unchecked read.
- `HandleImport`: on the indirect path the C code never writes `results` (lines 574-681), so the return values of an `invoke_i...` import's callee are lost. The model records only the call made and its status.
- `ExecuteIndirect`: a value's payload stands for the bits of its `of` union. The index is read as `i32` and the other arguments as `i64`; the model does not distinguish these reads.
- `HandleImport`: setting each result's kind from the stub's result types, and `num_elems`, is part of the conversion and not modelled.
- Sizes are computed in C `int`, and their overflow is not modelled. The first to overflow is the byte size `init_msg_size` (line 177), from 20,648,881 imports with no exports. The word count `13 * import_count` and the index `msg_i` overflow only from about 1.65 * 10^8 imports.
- `SignatureLengthWord` models the wrap for an empty signature, but strings are sequences of characters with no terminating NUL.
- `wasm_execute_function` and `wasm_execute_exported_function` are not modelled: they run exports and send results. Neither are the driver's commands or the Lua device elsewhere in the repository.

## Findings

| source | as written | input that shows it | evidently intended | confidence | as-written member | corrected member |
|---|---|---|---|---|---|---|
| native/hb_beamr/driver/src/hb_wasm.c:25 | the request buffer holds `(2 + 2*3) + (args + 1)*2 + (results + 1)*2 + 2` words, i.e. `14 + 2*args + 2*results` | an import with no results, e.g. one of type `(i32) -> ()`, whose argument encodes in two words: the handler writes 18 words into 16 | `16 + 2*args` words, which the request needs whatever the number of results | not executed | ImportHandler.RequestOverflowsAsWritten | ImportHandler.BuildImportRequest |
| native/hb_beamr/driver/src/hb_wasm.c:624-627 | an indirect call with at most one argument returns 0 before calling anything, although the comment only says no preparation is needed | `invoke_v(index)`, the call through the table of a function with no parameters: the entry is never run | with only the table index, call the entry with no arguments | not executed | IndirectCall.IndexOnlyCallDropped | IndirectCall.ExecuteIndirect |
| native/hb_beamr/driver/src/hb_wasm.c:344 | the import list declares `import_count + 1` elements, counting imports that were skipped (line 266) | a module with one import whose signature cannot be computed: one tuple fewer is pushed than the list declares, so `ERL_DRV_LIST` consumes a term that is not part of the list | `ERL_DRV_LIST` with the number of tuples pushed plus one; likewise `export_count + 1` at line 446 | not executed | InitMessage.ListAritiesAsWritten | InitMessage.InitializeRuntime |
