/** The index of import modules built by `wasm_initialize_runtime`: one
    entry per distinct module name, in order of first appearance among the
    imports, with the number of imports that name that module.

    The specification functions below recurse on the last element, the way
    the driver's loops walk the import array from the front. */
module ImportIndex {
  import opened Options
  import opened PortTerms

  /** One import of the loaded module. `sig` is what `get_function_sig`
      yields for it: `None` when the signature cannot be computed. */
  datatype Import = Import(moduleName: string, name: string, kind: ExternKind, sig: Option<string>)

  /** An entry of `import_modules_symbols` after the counting pass. */
  datatype ModuleEntry = ModuleEntry(moduleName: string, count: nat)

  /** Distinct module names in order of first appearance. */
  function ModuleNames(s: seq<Import>): (names: seq<string>)
    ensures |names| <= |s|
  {
    if s == [] then []
    else
      var names := ModuleNames(s[..|s| - 1]);
      if s[|s| - 1].moduleName in names then names else names + [s[|s| - 1].moduleName]
  }

  /** Does import `x` belong to module `name` (and, when `usableOnly`, does
      it have a signature)? */
  predicate Keep(x: Import, name: string, usableOnly: bool)
  {
    x.moduleName == name && (!usableOnly || x.sig.Some?)
  }

  /** The imports of module `name`, in their original order; when
      `usableOnly`, only those with a signature. */
  function Select(s: seq<Import>, name: string, usableOnly: bool): (r: seq<Import>)
    ensures |r| <= |s|
    ensures forall i :: 0 <= i < |r| ==> Keep(r[i], name, usableOnly)
  {
    if s == [] then []
    else Select(s[..|s| - 1], name, usableOnly) + (if Keep(s[|s| - 1], name, usableOnly) then [s[|s| - 1]] else [])
  }

  /** All imports of module `name`, in order. */
  function ModuleImports(s: seq<Import>, name: string): seq<Import>
  {
    Select(s, name, false)
  }

  /** The imports of module `name` that are announced and registered:
      those whose signature could be computed. */
  function Emitted(s: seq<Import>, name: string): seq<Import>
  {
    Select(s, name, true)
  }

  /** The imports with a signature, in order. */
  function Usable(s: seq<Import>): (r: seq<Import>)
    ensures |r| <= |s|
  {
    if s == [] then []
    else Usable(s[..|s| - 1]) + (if s[|s| - 1].sig.Some? then [s[|s| - 1]] else [])
  }

  /** The entries for `names`, each with its exact import count. */
  function EntriesFor(s: seq<Import>, names: seq<string>): (r: seq<ModuleEntry>)
    ensures |r| == |names|
    ensures forall j :: 0 <= j < |names| ==> r[j] == ModuleEntry(names[j], |ModuleImports(s, names[j])|)
  {
    if names == [] then []
    else EntriesFor(s, names[..|names| - 1]) + [ModuleEntry(names[|names| - 1], |ModuleImports(s, names[|names| - 1])|)]
  }

  /** What the counting pass should leave in the index. */
  function Index(s: seq<Import>): seq<ModuleEntry>
  {
    EntriesFor(s, ModuleNames(s))
  }

  function SumCounts(entries: seq<ModuleEntry>): nat
  {
    if entries == [] then 0 else SumCounts(entries[..|entries| - 1]) + entries[|entries| - 1].count
  }

  /** Total size of the selections of the modules in `names`. */
  function SumSelected(s: seq<Import>, names: seq<string>, usableOnly: bool): nat
  {
    if names == [] then 0
    else SumSelected(s, names[..|names| - 1], usableOnly) + |Select(s, names[|names| - 1], usableOnly)|
  }

  predicate Distinct(names: seq<string>)
  {
    forall i, j :: 0 <= i < j < |names| ==> names[i] != names[j]
  }

  predicate Occurs(s: seq<Import>, name: string)
  {
    exists k :: 0 <= k < |s| && s[k].moduleName == name
  }

  /** Position of the first import of module `name`. */
  function FirstIndex(s: seq<Import>, name: string): (k: nat)
    requires Occurs(s, name)
    ensures k < |s| && s[k].moduleName == name
    ensures forall k' :: 0 <= k' < k ==> s[k'].moduleName != name
  {
    var init := s[..|s| - 1];
    if Occurs(init, name) then FirstIndex(init, name) else |s| - 1
  }

  // ---------------------------------------------------------------------
  // Properties of the index

  /** No module name is listed twice. */
  lemma {:induction false} ModuleNamesDistinct(s: seq<Import>)
    ensures Distinct(ModuleNames(s))
  {
    if s != [] {
      ModuleNamesDistinct(s[..|s| - 1]);
    }
  }

  /** A name is listed exactly when some import names it. */
  lemma {:induction false} ModuleNamesCover(s: seq<Import>, name: string)
    ensures name in ModuleNames(s) <==> Occurs(s, name)
  {
    if s != [] {
      var init := s[..|s| - 1];
      ModuleNamesCover(init, name);
      if Occurs(s, name) && !Occurs(init, name) {
        assert s[|s| - 1].moduleName == name;
      }
      if Occurs(init, name) {
        var k :| 0 <= k < |init| && init[k].moduleName == name;
        assert s[k] == init[k];
      }
    }
  }

  /** Names are listed in the order in which their first import appears. */
  lemma {:induction false} ModuleNamesInFirstAppearanceOrder(s: seq<Import>, i: nat, j: nat)
    requires i < j < |ModuleNames(s)|
    ensures Occurs(s, ModuleNames(s)[i]) && Occurs(s, ModuleNames(s)[j])
    ensures FirstIndex(s, ModuleNames(s)[i]) < FirstIndex(s, ModuleNames(s)[j])
  {
    var init := s[..|s| - 1];
    var names := ModuleNames(s);
    ModuleNamesCover(s, names[i]);
    ModuleNamesCover(s, names[j]);
    ModuleNamesCover(init, names[i]);
    ModuleNamesCover(init, names[j]);
    if j < |ModuleNames(init)| {
      ModuleNamesInFirstAppearanceOrder(init, i, j);
    } else {
      // names[j] is the name of the last import, which is new
      assert !Occurs(init, names[j]);
      assert names[i] in ModuleNames(init);
    }
  }

  /** A module that no import names has no imports selected. */
  lemma {:induction false} SelectAbsent(s: seq<Import>, name: string, usableOnly: bool)
    requires !Occurs(s, name)
    ensures Select(s, name, usableOnly) == []
  {
    if s != [] {
      var init := s[..|s| - 1];
      assert !Occurs(init, name) by {
        forall k | 0 <= k < |init| ensures init[k].moduleName != name {
          assert init[k] == s[k];
        }
      }
      SelectAbsent(init, name, usableOnly);
    }
  }

  /** Every listed module has at least one import. */
  lemma IndexCountsPositive(s: seq<Import>, j: nat)
    requires j < |Index(s)|
    ensures Index(s)[j].count >= 1
  {
    var name := ModuleNames(s)[j];
    ModuleNamesCover(s, name);
    var k :| 0 <= k < |s| && s[k].moduleName == name;
    SelectPrefix(s, k + 1, name, false);
    assert s[..k + 1][..k] == s[..k];
  }

  /** The selection from a prefix of the imports is a prefix of the full
      selection: selecting keeps the original order. */
  lemma {:induction false} SelectPrefix(s: seq<Import>, k: nat, name: string, usableOnly: bool)
    requires k <= |s|
    ensures Select(s[..k], name, usableOnly) <= Select(s, name, usableOnly)
    decreases |s| - k
  {
    if k < |s| {
      SelectPrefix(s, k + 1, name, usableOnly);
      assert s[..k + 1][..k] == s[..k];
    } else {
      assert s[..k] == s;
    }
  }

  /** One more import extends each selection by at most that import. */
  lemma SelectStep(s: seq<Import>, k: nat, name: string)
    requires k < |s|
    ensures Emitted(s[..k + 1], name) == Emitted(s[..k], name) + (if Keep(s[k], name, true) then [s[k]] else [])
    ensures ModuleImports(s[..k + 1], name) == ModuleImports(s[..k], name) + (if Keep(s[k], name, false) then [s[k]] else [])
  {
    assert s[..k + 1][..k] == s[..k];
  }

  /** Adding one import to the end adds it to the selection of its module
      and of no other listed module. */
  lemma {:induction false} SumSelectedStep(s: seq<Import>, names: seq<string>, usableOnly: bool)
    requires s != [] && Distinct(names)
    ensures var x := s[|s| - 1];
            SumSelected(s, names, usableOnly)
            == SumSelected(s[..|s| - 1], names, usableOnly)
               + (if x.moduleName in names && (!usableOnly || x.sig.Some?) then 1 else 0)
  {
    if names != [] {
      var init := names[..|names| - 1];
      assert Distinct(init);
      SumSelectedStep(s, init, usableOnly);
      var last := names[|names| - 1];
      assert last !in init;
      assert forall n :: n in names <==> n in init || n == last;
    }
  }

  /** The per-module selections partition the imports: the counts add up
      to the number of imports, and the usable counts to the number of
      usable imports. */
  lemma {:induction false} PartitionByModule(s: seq<Import>, usableOnly: bool)
    ensures SumSelected(s, ModuleNames(s), usableOnly) == if usableOnly then |Usable(s)| else |s|
  {
    if s != [] {
      var init := s[..|s| - 1];
      var x := s[|s| - 1];
      var names := ModuleNames(init);
      PartitionByModule(init, usableOnly);
      ModuleNamesDistinct(init);
      SumSelectedStep(s, names, usableOnly);
      if x.moduleName !in names {
        ModuleNamesCover(init, x.moduleName);
        SelectAbsent(init, x.moduleName, usableOnly);
        assert names + [x.moduleName] == ModuleNames(s);
        assert (names + [x.moduleName])[..|names|] == names;
      }
    }
  }

  lemma {:induction false} SumCountsOfEntries(s: seq<Import>, names: seq<string>)
    ensures SumCounts(EntriesFor(s, names)) == SumSelected(s, names, false)
  {
    if names != [] {
      var init := names[..|names| - 1];
      SumCountsOfEntries(s, init);
      assert EntriesFor(s, names)[..|names| - 1] == EntriesFor(s, init);
    }
  }

  /** The counts of the index add up to the number of imports. */
  lemma IndexCountsSum(s: seq<Import>)
    ensures SumCounts(Index(s)) == |s|
  {
    SumCountsOfEntries(s, ModuleNames(s));
    PartitionByModule(s, false);
  }

  /** Sums over a prefix of the names are no larger than over all of them. */
  lemma {:induction false} SumSelectedPrefix(s: seq<Import>, names: seq<string>, k: nat, usableOnly: bool)
    requires k <= |names|
    ensures SumSelected(s, names[..k], usableOnly) <= SumSelected(s, names, usableOnly)
    decreases |names| - k
  {
    if k < |names| {
      SumSelectedPrefix(s, names, k + 1, usableOnly);
      assert names[..k + 1][..k] == names[..k];
    } else {
      assert names[..k] == names;
    }
  }

  /** A module's usable imports are among its imports. */
  lemma {:induction false} UsableWithinModule(s: seq<Import>, name: string)
    ensures |Emitted(s, name)| <= |ModuleImports(s, name)|
    ensures |Emitted(s, name)| == |ModuleImports(s, name)|
            <==> forall i :: 0 <= i < |s| && s[i].moduleName == name ==> s[i].sig.Some?
  {
    if s != [] {
      var init := s[..|s| - 1];
      UsableWithinModule(init, name);
      assert forall i :: 0 <= i < |init| ==> init[i] == s[i];
    }
  }

  lemma {:induction false} SumUsableWithin(s: seq<Import>, names: seq<string>)
    ensures SumSelected(s, names, true) <= SumSelected(s, names, false)
  {
    if names != [] {
      SumUsableWithin(s, names[..|names| - 1]);
      UsableWithinModule(s, names[|names| - 1]);
    }
  }

  /** Position of the first entry for module `name`, or the number of
      entries when there is none. */
  function Position(entries: seq<ModuleEntry>, name: string): (p: nat)
    ensures p <= |entries|
    ensures p < |entries| ==> entries[p].moduleName == name
    ensures forall q :: 0 <= q < p ==> entries[q].moduleName != name
  {
    if entries == [] then 0
    else if entries[0].moduleName == name then 0
    else 1 + Position(entries[1..], name)
  }

  /** One step of the counting pass on the index: bump the entry of module
      `name`, or append an entry for it with count 1. */
  function Tallied(entries: seq<ModuleEntry>, name: string): seq<ModuleEntry>
  {
    var p := Position(entries, name);
    if p < |entries| then entries[p := entries[p].(count := entries[p].count + 1)]
    else entries + [ModuleEntry(name, 1)]
  }

  /** An import of a module already in the index bumps that entry's count
      and changes nothing else. */
  lemma IndexHit(s: seq<Import>, k: nat, j: nat)
    requires k < |s| && j < |Index(s[..k])|
    requires Index(s[..k])[j].moduleName == s[k].moduleName
    ensures Index(s[..k + 1]) == Index(s[..k])[j := Index(s[..k])[j].(count := Index(s[..k])[j].count + 1)]
  {
    var before, after := s[..k], s[..k + 1];
    var name := s[k].moduleName;
    assert after[..k] == before;
    ModuleNamesDistinct(before);
    assert ModuleNames(after) == ModuleNames(before);
    forall n ensures ModuleImports(after, n) == ModuleImports(before, n) + (if n == name then [s[k]] else []) {
      SelectStep(s, k, n);
    }
  }

  /** An import of a module not yet in the index appends an entry for it
      with count 1. */
  lemma IndexMiss(s: seq<Import>, k: nat)
    requires k < |s|
    requires forall j :: 0 <= j < |Index(s[..k])| ==> Index(s[..k])[j].moduleName != s[k].moduleName
    ensures Index(s[..k + 1]) == Index(s[..k]) + [ModuleEntry(s[k].moduleName, 1)]
  {
    var before, after := s[..k], s[..k + 1];
    var name := s[k].moduleName;
    assert after[..k] == before;
    forall j | 0 <= j < |ModuleNames(before)| ensures ModuleNames(before)[j] != name {
      assert Index(before)[j].moduleName == ModuleNames(before)[j];
    }
    ModuleNamesCover(before, name);
    SelectAbsent(before, name, false);
    forall n ensures ModuleImports(after, n) == ModuleImports(before, n) + (if n == name then [s[k]] else []) {
      SelectStep(s, k, n);
    }
  }

  /** The counting pass's step is right: tallying each import in turn
      builds the index of the imports seen so far. */
  lemma IndexStep(s: seq<Import>, k: nat)
    requires k < |s|
    ensures Index(s[..k + 1]) == Tallied(Index(s[..k]), s[k].moduleName)
  {
    var p := Position(Index(s[..k]), s[k].moduleName);
    if p < |Index(s[..k])| {
      IndexHit(s, k, p);
    } else {
      IndexMiss(s, k);
    }
  }

  /** The inner loop of the counting pass: the position of the entry named
      `name` among the first `found` entries, if there is one. */
  method FindModule(index: array<ModuleEntry>, found: nat, name: string) returns (hit: bool, j: nat)
    requires found <= index.Length
    ensures j == Position(index[..found], name)
    ensures hit <==> j < found
  {
    hit, j := false, 0;
    while j < found
      invariant 0 <= j <= found
      invariant forall j' :: 0 <= j' < j ==> index[j'].moduleName != name
    {
      if index[j].moduleName == name {
        hit := true;
        PositionIsFirst(index[..found], name, j);
        return;
      }
      j := j + 1;
    }
    PositionIsFirst(index[..found], name, j);
  }

  /** `Position` is the first position holding `name`. */
  lemma {:induction false} PositionIsFirst(entries: seq<ModuleEntry>, name: string, j: nat)
    requires j <= |entries|
    requires j < |entries| ==> entries[j].moduleName == name
    requires forall q :: 0 <= q < j ==> entries[q].moduleName != name
    ensures Position(entries, name) == j
  {
    if j > 0 {
      PositionIsFirst(entries[1..], name, j - 1);
    }
  }

  /** One turn of the counting pass: look `name` up among the first
      `found` entries, and bump its count or append it. */
  method Tally(index: array<ModuleEntry>, found: nat, name: string) returns (found': nat)
    requires found < index.Length
    modifies index
    ensures found' <= found + 1
    ensures index[..found'] == Tallied(old(index[..found]), name)
  {
    ghost var e := index[..found];
    var hit, j := FindModule(index, found, name);
    found' := found;
    if hit {
      index[j] := index[j].(count := index[j].count + 1);
      assert index[..found] == e[j := e[j].(count := e[j].count + 1)];
    } else {
      index[found] := ModuleEntry(name, 1);
      found' := found + 1;
      assert index[..found'] == e + [ModuleEntry(name, 1)];
    }
  }

  /** Counting pass: for each import, tally its module name. `index` has
      one slot per import, and no more are needed. */
  method CountModules(imports: array<Import>) returns (index: array<ModuleEntry>, found: nat)
    ensures fresh(index) && index.Length == imports.Length
    ensures found <= imports.Length
    ensures index[..found] == Index(imports[..])
  {
    index := new ModuleEntry[imports.Length](_ => ModuleEntry("", 0));
    found := 0;
    ghost var s := imports[..];
    for i := 0 to imports.Length
      invariant found <= i
      invariant index[..found] == Index(s[..i])
    {
      IndexStep(s, i);
      found := Tally(index, found, imports[i].moduleName);
    }
    assert s[..imports.Length] == s;
  }
}
