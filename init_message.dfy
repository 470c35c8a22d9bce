/** The initialisation message that `wasm_initialize_runtime` sends to
    Erlang, and the per-module native symbol tables it fills on the way:

      {execution_result, [{Kind, Module, Name, Sig} ...], [{Kind, Name, Sig} ...]}

    Import tuples are written module by module (the index order), each
    module's imports in their original order; an import or a function export
    whose signature cannot be computed is skipped. */
module InitMessage {
  import opened Options
  import opened PortTerms
  import opened ImportIndex

  /** `NativeSymbolAttachment`: what the generic native handler is given. */
  datatype Attachment = Attachment(moduleName: string, fieldName: string, signature: string)

  /** `NativeSymbol` as registered with the runtime. Its function pointer is
      always the generic handler and its signature word always NULL, so
      neither is recorded. */
  datatype NativeSymbol = NativeSymbol(symbol: string, attachment: Attachment)

  /** One export of the loaded module; `sig` is what `get_function_sig`
      yields for it, consulted only for function exports. */
  datatype Export = Export(name: string, kind: ExternKind, sig: Option<string>)

  /** Words reserved for the message: 2 header, 3 closing the import list,
      5 closing the export list and the outer tuple, 13 per import and 11 per
      export. */
  function InitCapacity(importCount: nat, exportCount: nat): nat
  {
    2 + 3 + 5 + 13 * importCount + 11 * exportCount
  }

  predicate AllUsable(xs: seq<Import>)
  {
    forall i :: 0 <= i < |xs| ==> xs[i].sig.Some?
  }

  /** The 13 words announcing one import: `{Kind, Module, Name, Sig}`. */
  function ImportTerms(x: Import): seq<Term>
    requires x.sig.Some?
  {
    [AtomOp, KindAtom(x.kind)] + StringTerms(x.moduleName) + StringTerms(x.name)
      + StringTerms(x.sig.value) + [TupleOp, Word(4)]
  }

  function ImportTermsOf(xs: seq<Import>): (r: seq<Term>)
    requires AllUsable(xs)
    ensures |r| == 13 * |xs|
  {
    if xs == [] then [] else ImportTermsOf(xs[..|xs| - 1]) + ImportTerms(xs[|xs| - 1])
  }

  function SymbolFor(x: Import): NativeSymbol
    requires x.sig.Some?
  {
    NativeSymbol(x.name, Attachment(x.moduleName, x.name, x.sig.value))
  }

  function SymbolsOf(xs: seq<Import>): (r: seq<NativeSymbol>)
    requires AllUsable(xs)
    ensures |r| == |xs|
    ensures forall i :: 0 <= i < |xs| ==> r[i] == SymbolFor(xs[i])
  {
    if xs == [] then [] else SymbolsOf(xs[..|xs| - 1]) + [SymbolFor(xs[|xs| - 1])]
  }

  /** Where the fill pass of one module stands after some imports: the
      imports appended so far, and whether it stopped at a full table. */
  datatype FillState = FillState(taken: seq<Import>, full: bool)

  /** The fill pass of module `name`, with a table of `count` slots, over
      the imports `s`: once full it stops; an import of another module is
      passed over; one of this module finds the table full when `count`
      slots are taken, and is otherwise appended if its signature is known. */
  function FillScan(s: seq<Import>, name: string, count: nat): (r: FillState)
    ensures |r.taken| <= count && AllUsable(r.taken)
  {
    if s == [] then FillState([], false)
    else
      var st := FillScan(s[..|s| - 1], name, count);
      var x := s[|s| - 1];
      if st.full || x.moduleName != name then st
      else if |st.taken| >= count then FillState(st.taken, true)
      else if x.sig.Some? then FillState(st.taken + [x], false)
      else st
  }

  /** The import tuples of the modules in `names`, module after module. */
  function GroupTerms(s: seq<Import>, names: seq<string>): (r: seq<Term>)
    ensures |r| == 13 * SumSelected(s, names, true)
  {
    if names == [] then []
    else GroupTerms(s, names[..|names| - 1]) + ImportTermsOf(Emitted(s, names[|names| - 1]))
  }

  /** The signature an export is announced with: a function's computed
      signature (none when it cannot be computed), the empty string for any
      other kind. */
  function ExportSignature(x: Export): Option<string>
  {
    if x.kind == Func then x.sig else Some("")
  }

  /** The exports that are announced, in order. */
  function Announced(ex: seq<Export>): (r: seq<Export>)
    ensures |r| <= |ex|
  {
    if ex == [] then []
    else Announced(ex[..|ex| - 1]) + (if ExportSignature(ex[|ex| - 1]).Some? then [ex[|ex| - 1]] else [])
  }

  /** The 10 words announcing one export: `{Kind, Name, Sig}`. */
  function ExportTerms(x: Export, typeStr: string): seq<Term>
  {
    [AtomOp, KindAtom(x.kind)] + StringTerms(x.name) + StringTerms(typeStr) + [TupleOp, Word(3)]
  }

  function ExportSection(ex: seq<Export>): (r: seq<Term>)
    ensures |r| == 10 * |Announced(ex)|
  {
    if ex == [] then []
    else
      var last := ex[|ex| - 1];
      ExportSection(ex[..|ex| - 1])
        + (match ExportSignature(last) case Some(t) => ExportTerms(last, t) case None => [])
  }

  const Header: seq<Term> := [AtomOp, NamedAtom("execution_result")]

  /** The whole message as written: the import list declares `|s| + 1`
      elements and the export list `|ex| + 1`, whatever was skipped. */
  function InitMessageAsWritten(s: seq<Import>, ex: seq<Export>): seq<Term>
  {
    Header + GroupTerms(s, ModuleNames(s)) + [NilOp, ListOp, Word(|s| + 1)]
      + ExportSection(ex) + [NilOp, ListOp, Word(|ex| + 1), TupleOp, Word(3)]
  }

  /** The whole message, each list declaring the tuples actually pushed
      plus its `[]` tail. */
  function InitMessage(s: seq<Import>, ex: seq<Export>): seq<Term>
  {
    Header + GroupTerms(s, ModuleNames(s)) + [NilOp, ListOp, Word(|Usable(s)| + 1)]
      + ExportSection(ex) + [NilOp, ListOp, Word(|Announced(ex)| + 1), TupleOp, Word(3)]
  }

  /** Appending one usable import appends its tuple and its symbol. */
  lemma AppendOne(xs: seq<Import>, x: Import)
    requires AllUsable(xs) && x.sig.Some?
    ensures AllUsable(xs + [x])
    ensures ImportTermsOf(xs + [x]) == ImportTermsOf(xs) + ImportTerms(x)
    ensures SymbolsOf(xs + [x]) == SymbolsOf(xs) + [SymbolFor(x)]
  {
    assert (xs + [x])[..|xs|] == xs;
  }

  /** One more export extends the section by its tuple, if announced. */
  lemma ExportStep(ex: seq<Export>, i: nat)
    requires i < |ex|
    ensures Announced(ex[..i + 1]) == Announced(ex[..i]) + (if ExportSignature(ex[i]).Some? then [ex[i]] else [])
    ensures ExportSection(ex[..i + 1]) == ExportSection(ex[..i])
              + (match ExportSignature(ex[i]) case Some(t) => ExportTerms(ex[i], t) case None => [])
  {
    assert ex[..i + 1][..i] == ex[..i];
  }

  // ---------------------------------------------------------------------
  // Properties of the message

  /** The message has 13 words per usable import and 10 per announced
      export besides its 10 framing words, and so fits the reserved size. */
  lemma InitMessageLength(s: seq<Import>, ex: seq<Export>)
    ensures |InitMessage(s, ex)| == 10 + 13 * |Usable(s)| + 10 * |Announced(ex)|
    ensures |InitMessage(s, ex)| <= InitCapacity(|s|, |ex|)
  {
    PartitionByModule(s, true);
  }

  /** The import list's declared length matches the tuples pushed exactly
      when no import was skipped. */
  lemma {:induction false} ImportListArityExact(s: seq<Import>)
    ensures |Usable(s)| <= |s|
    ensures |Usable(s)| == |s| <==> AllUsable(s)
  {
    if s != [] {
      var init := s[..|s| - 1];
      ImportListArityExact(init);
      assert forall i :: 0 <= i < |init| ==> init[i] == s[i];
    }
  }

  /** Likewise for the export list: exact exactly when every function
      export has a signature. */
  lemma {:induction false} ExportListArityExact(ex: seq<Export>)
    ensures |Announced(ex)| == |ex| <==> forall i :: 0 <= i < |ex| ==> ExportSignature(ex[i]).Some?
  {
    if ex != [] {
      var init := ex[..|ex| - 1];
      ExportListArityExact(init);
      assert forall i :: 0 <= i < |init| ==> init[i] == ex[i];
    }
  }

  /** As written, the message agrees with the intended one exactly when
      nothing is skipped: each list's declared length counts every import
      (export), pushed or not, so one skipped import or function export
      makes `ERL_DRV_LIST` take more terms than the list has. Both have
      the same length, so the words written as is still fit the buffer. */
  lemma ListAritiesAsWritten(s: seq<Import>, ex: seq<Export>)
    ensures InitMessageAsWritten(s, ex) == InitMessage(s, ex)
            <==> AllUsable(s) && forall i :: 0 <= i < |ex| ==> ExportSignature(ex[i]).Some?
    ensures |InitMessageAsWritten(s, ex)| == |InitMessage(s, ex)|
    ensures |InitMessageAsWritten(s, ex)| <= InitCapacity(|s|, |ex|)
  {
    InitMessageLength(s, ex);
    ImportListArityExact(s);
    ExportListArityExact(ex);
    var g := Header + GroupTerms(s, ModuleNames(s));
    var e := ExportSection(ex);
    if InitMessageAsWritten(s, ex) == InitMessage(s, ex) {
      assert InitMessageAsWritten(s, ex)[|g| + 2] == Word(|s| + 1);
      assert InitMessage(s, ex)[|g| + 2] == Word(|Usable(s)| + 1);
      assert InitMessageAsWritten(s, ex)[|g| + 3 + |e| + 2] == Word(|ex| + 1);
      assert InitMessage(s, ex)[|g| + 3 + |e| + 2] == Word(|Announced(ex)| + 1);
    }
  }

  /** Once the table is full the rest of the imports change nothing. */
  lemma {:induction false} FillScanStaysFull(s: seq<Import>, k: nat, name: string, count: nat)
    requires k <= |s| && FillScan(s[..k], name, count).full
    ensures FillScan(s, name, count) == FillScan(s[..k], name, count)
    decreases |s| - k
  {
    if k < |s| {
      assert s[..k + 1][..k] == s[..k];
      FillScanStaysFull(s, k + 1, name, count);
    } else {
      assert s[..k] == s;
    }
  }

  /** The fill pass takes a prefix of the module's usable imports; if it
      does not stop early it takes all of them, and it stops early only when
      the module has more imports than the table has slots. */
  lemma {:induction false} FillScanTakesUsable(s: seq<Import>, name: string, count: nat)
    ensures FillScan(s, name, count).taken <= Emitted(s, name)
    ensures !FillScan(s, name, count).full ==> FillScan(s, name, count).taken == Emitted(s, name)
    ensures FillScan(s, name, count).full ==>
              |FillScan(s, name, count).taken| == count < |ModuleImports(s, name)|
  {
    if s != [] {
      var init := s[..|s| - 1];
      FillScanTakesUsable(init, name, count);
      UsableWithinModule(init, name);
    }
  }

  /** With the size found by the counting pass the table never fills up
      early: the fill pass takes exactly the module's usable imports. */
  lemma FillScanCounted(s: seq<Import>, name: string)
    ensures FillScan(s, name, |ModuleImports(s, name)|) == FillState(Emitted(s, name), false)
  {
    FillScanTakesUsable(s, name, |ModuleImports(s, name)|);
  }

  // ---------------------------------------------------------------------
  // The loops of wasm_initialize_runtime

  /** For an import whose signature is known: append its 13-word tuple to
      the message and copy its native symbol into slot `slot` of the
      module's table. `done` are the imports already appended after
      `prefix`. */
  method AppendImport(x: Import, msg: array<Term>, at: nat, symbols: array<NativeSymbol>, slot: nat,
                      ghost prefix: seq<Term>, ghost done: seq<Import>)
    returns (next: nat)
    requires x.sig.Some? && AllUsable(done)
    requires at + 13 <= msg.Length && slot < symbols.Length
    requires msg[..at] == prefix + ImportTermsOf(done)
    requires symbols[..slot] == SymbolsOf(done)
    modifies msg, symbols
    ensures AllUsable(done + [x])
    ensures next == at + 13
    ensures msg[..next] == prefix + ImportTermsOf(done + [x])
    ensures symbols[..slot + 1] == SymbolsOf(done + [x])
  {
    AppendOne(done, x);
    ConcatAssoc(prefix, ImportTermsOf(done), ImportTerms(x));
    next := Emit(msg, at, ImportTerms(x));
    symbols[slot] := SymbolFor(x);
    assert symbols[..slot + 1] == symbols[..slot] + [SymbolFor(x)];
  }

  /** Fill pass for one module: walk all imports, and for each one of this
      module append its tuple to the message and its symbol to the module's
      table, skipping those without a signature. Before each write the
      symbol index is checked against the counted size; the walk stops if it
      is full, which happens only when the count was too small. */
  method AppendModuleImports(imports: array<Import>, entry: ModuleEntry, msg: array<Term>, start: nat)
    returns (symbols: array<NativeSymbol>, filled: nat, stopped: bool, next: nat)
    requires start + 13 * entry.count <= msg.Length
    modifies msg
    ensures fresh(symbols) && symbols.Length == entry.count
    ensures stopped == FillScan(imports[..], entry.moduleName, entry.count).full
    ensures filled == |FillScan(imports[..], entry.moduleName, entry.count).taken|
    ensures symbols[..filled] == SymbolsOf(FillScan(imports[..], entry.moduleName, entry.count).taken)
    ensures next == start + 13 * filled
    ensures msg[..next] == old(msg[..start]) + ImportTermsOf(FillScan(imports[..], entry.moduleName, entry.count).taken)
  {
    ghost var s := imports[..];
    ghost var prefix := msg[..start];
    var name := entry.moduleName;
    symbols := new NativeSymbol[entry.count](_ => NativeSymbol("", Attachment("", "", "")));
    filled, stopped, next := 0, false, start;
    ghost var done: seq<Import> := [];
    var k := 0;
    while k < imports.Length
      invariant 0 <= k <= imports.Length
      invariant FillScan(s[..k], name, entry.count) == FillState(done, false)
      invariant filled == |done| && next == start + 13 * filled
      invariant symbols[..filled] == SymbolsOf(done)
      invariant msg[..next] == prefix + ImportTermsOf(done)
    {
      assert s[..k + 1][..k] == s[..k];
      var x := imports[k];
      if x.moduleName == name {
        if filled >= entry.count {
          stopped := true;
          assert FillScan(s[..k + 1], name, entry.count) == FillState(done, true);
          FillScanStaysFull(s, k + 1, name, entry.count);
          break;
        }
        if x.sig.Some? {
          next := AppendImport(x, msg, next, symbols, filled, prefix, done);
          filled := filled + 1;
          done := done + [x];
        }
        // otherwise get_function_sig failed: no tuple and no symbol
      }
      k := k + 1;
    }
    if !stopped {
      assert s[..k] == s;
    }
    assert FillScan(s, name, entry.count) == FillState(done, stopped);
  }

  /** Export loop: append `{Kind, Name, Sig}` for each export, skipping a
      function export whose signature cannot be computed. */
  method AppendExports(exports: array<Export>, msg: array<Term>, start: nat)
    returns (next: nat, announced: nat)
    requires start + 10 * exports.Length <= msg.Length
    modifies msg
    ensures announced == |Announced(exports[..])|
    ensures next == start + 10 * announced
    ensures msg[..next] == old(msg[..start]) + ExportSection(exports[..])
  {
    ghost var ex := exports[..];
    ghost var prefix := msg[..start];
    next, announced := start, 0;
    for i := 0 to exports.Length
      invariant announced == |Announced(ex[..i])| <= i
      invariant next == start + 10 * announced
      invariant msg[..next] == prefix + ExportSection(ex[..i])
    {
      ExportStep(ex, i);
      var x := exports[i];
      var typeStr: string;
      var announce := true;
      if x.kind == Func {
        match x.sig {
          case None => announce := false;
          case Some(t) => typeStr := t;
        }
      } else {
        typeStr := "";
      }
      assert announce <==> ExportSignature(ex[i]).Some?;
      if announce {
        assert ExportSignature(ex[i]) == Some(typeStr);
        ConcatAssoc(prefix, ExportSection(ex[..i]), ExportTerms(x, typeStr));
        next := Emit(msg, next, ExportTerms(x, typeStr));
        announced := announced + 1;
      }
    }
    assert ex[..exports.Length] == ex;
  }

  /** `table` is the symbol table of module `name` after the fill pass:
      sized by the count and holding the module's usable imports, in order. */
  ghost predicate TableHolds(s: seq<Import>, name: string, count: nat, table: array<NativeSymbol>, n: nat)
    reads table
  {
    && table.Length == count
    && n == |Emitted(s, name)| <= table.Length
    && AllUsable(Emitted(s, name))
    && table[..n] == SymbolsOf(Emitted(s, name))
  }

  /** Every table in `tables` holds for the module entry at its position. */
  ghost predicate TablesHold(s: seq<Import>, entries: seq<ModuleEntry>,
                             tables: seq<array<NativeSymbol>>, filled: seq<nat>)
    reads tables
  {
    && |tables| == |filled| == |entries|
    && forall j :: 0 <= j < |tables| ==>
         TableHolds(s, entries[j].moduleName, entries[j].count, tables[j], filled[j])
  }

  /** One turn of the fill pass's outer loop (module `i` of the index): its
      imports' tuples extend the message, and its symbol table comes back
      holding exactly its usable imports. The counted size is exact, so the
      table never fills up early. */
  method AppendModuleGroup(imports: array<Import>, ghost s: seq<Import>, ghost names: seq<string>,
                           index: array<ModuleEntry>, found: nat, i: nat, msg: array<Term>, msgLen: nat)
    returns (symbols: array<NativeSymbol>, n: nat, next: nat)
    requires s == imports[..] && names == ModuleNames(s)
    requires found <= index.Length && i < found
    requires index[..found] == Index(s)
    requires SumSelected(s, names[..i + 1], false) <= |s|
    requires msgLen == 2 + 13 * SumSelected(s, names[..i], true)
    requires 2 + 13 * |s| <= msg.Length && msgLen <= msg.Length
    requires msg[..msgLen] == Header + GroupTerms(s, names[..i])
    modifies msg
    ensures fresh(symbols)
    ensures TableHolds(s, index[i].moduleName, index[i].count, symbols, n)
    ensures next == 2 + 13 * SumSelected(s, names[..i + 1], true) <= msg.Length
    ensures next == msgLen + 13 * n
    ensures msg[..next] == Header + GroupTerms(s, names[..i + 1])
  {
    ghost var pre := names[..i];
    assert names[..i + 1][..i] == pre;
    assert index[i] == ModuleEntry(names[i], |ModuleImports(s, names[i])|);
    ghost var e := Emitted(s, names[i]);
    UsableWithinModule(s, names[i]);
    SumUsableWithin(s, pre);
    assert SumSelected(s, names[..i + 1], false) == SumSelected(s, pre, false) + index[i].count;
    FillScanCounted(s, names[i]);
    var stopped;
    symbols, n, stopped, next := AppendModuleImports(imports, index[i], msg, msgLen);
    ConcatAssoc(Header, GroupTerms(s, pre), ImportTermsOf(e));
    assert GroupTerms(s, names[..i + 1]) == GroupTerms(s, pre) + ImportTermsOf(e);
    assert SumSelected(s, names[..i + 1], true) == SumSelected(s, pre, true) + n;
  }

  /** Adding the table of the next module keeps every earlier table's
      facts, and gains the new one's. */
  lemma TablesExtend(s: seq<Import>, entries: seq<ModuleEntry>, k: nat,
                     tables: seq<array<NativeSymbol>>, filled: seq<nat>,
                     symbols: array<NativeSymbol>, n: nat)
    requires k < |entries|
    requires TablesHold(s, entries[..k], tables, filled)
    requires TableHolds(s, entries[k].moduleName, entries[k].count, symbols, n)
    ensures TablesHold(s, entries[..k + 1], tables + [symbols], filled + [n])
  {
  }

  /** Fill pass (the outer loop over the counted modules): each module's
      group of import tuples in turn, and one symbol table per module
      holding exactly that module's usable imports. */
  method FillPass(imports: array<Import>, index: array<ModuleEntry>, found: nat, msg: array<Term>)
    returns (tables: seq<array<NativeSymbol>>, filled: seq<nat>, msgLen: nat, pushed: nat)
    requires found <= index.Length && index[..found] == Index(imports[..])
    requires 2 + 13 * imports.Length <= msg.Length
    requires msg[..2] == Header
    modifies msg
    ensures TablesHold(imports[..], index[..found], tables, filled)
    ensures pushed == |Usable(imports[..])|
    ensures msgLen == 2 + 13 * pushed
    ensures msg[..msgLen] == Header + GroupTerms(imports[..], ModuleNames(imports[..]))
  {
    ghost var s := imports[..];
    ghost var names := ModuleNames(s);
    ghost var entries := index[..found];
    PartitionByModule(s, false);
    msgLen, pushed := 2, 0;
    tables, filled := [], [];
    for i := 0 to found
      invariant |tables| == i && |filled| == i
      invariant pushed == SumSelected(s, names[..i], true)
      invariant msgLen == 2 + 13 * pushed <= msg.Length
      invariant msg[..msgLen] == Header + GroupTerms(s, names[..i])
      invariant TablesHold(s, entries[..i], tables, filled)
    {
      SumSelectedPrefix(s, names, i + 1, false);
      var symbols, n, next := AppendModuleGroup(imports, s, names, index, found, i, msg, msgLen);
      TablesExtend(s, entries, i, tables, filled, symbols, n);
      tables, filled, msgLen, pushed := tables + [symbols], filled + [n], next, pushed + n;
    }
    assert names[..found] == names;
    assert entries[..found] == entries;
    PartitionByModule(s, true);
  }

  /** The import tuples of the message: header, counting pass and fill
      pass, with the symbol tables that are then registered with the
      runtime and the number of tuples pushed. */
  method BuildImportPart(imports: array<Import>, msg: array<Term>)
    returns (msgLen: nat, pushed: nat, index: array<ModuleEntry>, found: nat,
             tables: seq<array<NativeSymbol>>, filled: seq<nat>)
    requires 2 + 13 * imports.Length <= msg.Length
    modifies msg
    ensures fresh(index) && index.Length == imports.Length && found <= imports.Length
    ensures index[..found] == Index(imports[..])
    ensures TablesHold(imports[..], index[..found], tables, filled)
    ensures pushed == |Usable(imports[..])|
    ensures msgLen == 2 + 13 * pushed
    ensures msg[..msgLen] == Header + GroupTerms(imports[..], ModuleNames(imports[..]))
  {
    msgLen := Emit(msg, 0, Header);
    index, found := CountModules(imports);
    tables, filled, msgLen, pushed := FillPass(imports, index, found, msg);
  }

  /** The words after the import tuples: the import list's closing, the
      export loop and the message's closing, each list declaring the
      number of tuples pushed onto it. */
  method AppendClosings(exports: array<Export>, msg: array<Term>, start: nat, pushed: nat)
    returns (next: nat)
    requires start + 8 + 10 * exports.Length <= msg.Length
    modifies msg
    ensures next <= msg.Length
    ensures msg[..next] == old(msg[..start]) + [NilOp, ListOp, Word(pushed + 1)] + ExportSection(exports[..])
                           + [NilOp, ListOp, Word(|Announced(exports[..])| + 1), TupleOp, Word(3)]
  {
    ghost var groups := msg[..start];
    var importClosing := [NilOp, ListOp, Word(pushed + 1)];
    next := Emit(msg, start, importClosing);
    ghost var importPart := msg[..next];
    // here each module's table is registered with the runtime (not modelled)
    var announced;
    next, announced := AppendExports(exports, msg, next);
    ghost var withExports := msg[..next];
    assert withExports == groups + importClosing + ExportSection(exports[..]);
    var closing := [NilOp, ListOp, Word(announced + 1), TupleOp, Word(3)];
    assert closing == [NilOp, ListOp, Word(|Announced(exports[..])| + 1), TupleOp, Word(3)];
    next := Emit(msg, next, closing);
    assert msg[..next] == withExports + closing;
  }

  /** The message-building part of `wasm_initialize_runtime`: the import
      half (whose symbol tables are then registered with the runtime), the
      export loop and the closing words. The message always fits the
      reserved size. */
  method InitializeRuntime(imports: array<Import>, exports: array<Export>)
    returns (msg: array<Term>, msgLen: nat)
    ensures msg.Length == InitCapacity(imports.Length, exports.Length)
    ensures msgLen <= msg.Length
    ensures msg[..msgLen] == InitMessage(imports[..], exports[..])
  {
    ghost var s, ex := imports[..], exports[..];
    msg := new Term[InitCapacity(imports.Length, exports.Length)](_ => NilOp);
    var pushed, index, found, tables, filled;
    msgLen, pushed, index, found, tables, filled := BuildImportPart(imports, msg);
    ghost var groups := msg[..msgLen];
    ImportListArityExact(s);
    assert msgLen + 8 + 10 * exports.Length <= msg.Length;
    msgLen := AppendClosings(exports, msg, msgLen, pushed);
    MessageInParts(s, ex, groups, msg[..msgLen]);
  }

  /** The message assembled from the parts written one after another. */
  lemma MessageInParts(s: seq<Import>, ex: seq<Export>, groups: seq<Term>, whole: seq<Term>)
    requires groups == Header + GroupTerms(s, ModuleNames(s))
    requires whole == groups + [NilOp, ListOp, Word(|Usable(s)| + 1)] + ExportSection(ex)
                      + [NilOp, ListOp, Word(|Announced(ex)| + 1), TupleOp, Word(3)]
    ensures whole == InitMessage(s, ex)
  {
    var c1 := [NilOp, ListOp, Word(|Usable(s)| + 1)];
    var c2 := [NilOp, ListOp, Word(|Announced(ex)| + 1), TupleOp, Word(3)];
    var e := ExportSection(ex);
    assert InitMessage(s, ex) == groups + c1 + e + c2;
  }
}
