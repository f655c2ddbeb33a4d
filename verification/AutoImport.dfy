/** The `auto_import` worklist: the transitive closure of the imports of the given definitions. */
module AutoImport {
  import opened NameOrder

  datatype ServiceDef = ServiceDef(name: string, imports: seq<string>)

  /** The files the include directories hold: `files[x]` is the definition in `x.robdef`. */
  type Files = map<string, ServiceDef>

  function NamesOf(defs: seq<ServiceDef>): set<string> {
    set i | 0 <= i < |defs| :: defs[i].name
  }

  function ImportsOf(defs: seq<ServiceDef>): set<string> {
    set i, j | 0 <= i < |defs| && 0 <= j < |defs[i].imports| :: defs[i].imports[j]
  }

  /** The definitions read by trying the names of `tried` in turn. */
  function Loaded(files: Files, tried: seq<string>): seq<ServiceDef> {
    if tried == [] then []
    else
      var n, before := tried[|tried| - 1], Loaded(files, tried[..|tried| - 1]);
      if n in files then before + [files[n]] else before
  }

  function Range(s: seq<string>): set<string> {
    set x | x in s
  }

  /** The names imported so far that are neither given nor tried yet. */
  function Pending(given: seq<ServiceDef>, files: Files, tried: seq<string>): set<string> {
    ImportsOf(given + Loaded(files, tried)) - NamesOf(given) - Range(tried)
  }

  /** `tried` is a run of the worklist: each name tried is the first, in name order, of those pending. */
  ghost predicate Run(given: seq<ServiceDef>, files: Files, tried: seq<string>) {
    forall i | 0 <= i < |tried| :: Least(tried[i], Pending(given, files, tried[..i]))
  }

  /** Each file holds the definition it is named after. */
  predicate NamedAfterFile(files: Files) {
    forall x | x in files :: files[x].name == x
  }

  // ----- the rounds of the loop

  datatype State = State(defs: seq<ServiceDef>, attempted: set<string>, missing: set<string>)

  /** Adds the imports that are neither defined nor known to have no file. */
  function NextMissing(defs: seq<ServiceDef>, attempted: set<string>, imports: seq<string>, missing: set<string>)
      : set<string> {
    missing + (Range(imports) - NamesOf(defs) - attempted)
  }

  /** One round: the file of `e` is looked for. */
  function Take(files: Files, s: State, e: string): State {
    if e in files then
      var defs := s.defs + [files[e]];
      State(defs, s.attempted, NextMissing(defs, s.attempted, files[e].imports, s.missing - {e}))
    else
      State(s.defs, s.attempted + {e}, s.missing - {e})
  }

  /** The loop's variables after `n` rounds; a finished loop stays as it is. */
  ghost function StateAt(given: seq<ServiceDef>, files: Files, n: nat): State {
    if n == 0 then
      State(given, {}, ImportsOf(given) - NamesOf(given))
    else
      var s := StateAt(given, files, n - 1);
      if s.missing == {} then s else Take(files, s, LeastOf(s.missing))
  }

  /** Round `n` looks for the file of `x`. */
  ghost predicate Takes(given: seq<ServiceDef>, files: Files, n: nat, x: string) {
    var s := StateAt(given, files, n);
    s.missing != {} && x == LeastOf(s.missing)
  }

  ghost predicate Ends(given: seq<ServiceDef>, files: Files) {
    exists n: nat :: StateAt(given, files, n).missing == {}
  }

  // ----- the loop

  predicate Found(defs: seq<ServiceDef>, n: string) {
    exists i | 0 <= i < |defs| :: defs[i].name == n
  }

  lemma FoundIsNamed(defs: seq<ServiceDef>, n: string)
    ensures Found(defs, n) <==> n in NamesOf(defs)
  {
  }

  lemma ImportsGrow(defs: seq<ServiceDef>, d: ServiceDef)
    ensures ImportsOf(defs + [d]) == ImportsOf(defs) + Range(d.imports)
    ensures NamesOf(defs + [d]) == NamesOf(defs) + {d.name}
  {
    var all := defs + [d];
    forall x | x in Range(d.imports) ensures x in ImportsOf(all) {
      var j :| 0 <= j < |d.imports| && d.imports[j] == x;
      assert all[|defs|].imports[j] == x;
    }
    forall x | x in ImportsOf(defs) ensures x in ImportsOf(all) {
      var i, j :| 0 <= i < |defs| && 0 <= j < |defs[i].imports| && defs[i].imports[j] == x;
      assert all[i].imports[j] == x;
    }
    forall x | x in ImportsOf(all) ensures x in ImportsOf(defs) + Range(d.imports) {
      var i, j :| 0 <= i < |all| && 0 <= j < |all[i].imports| && all[i].imports[j] == x;
      if i < |defs| {
        assert defs[i].imports[j] == x;
      }
    }
    assert all[|defs|].name == d.name;
    forall x | x in NamesOf(defs) ensures x in NamesOf(all) {
      var i :| 0 <= i < |defs| && defs[i].name == x;
      assert all[i].name == x;
    }
  }

  /** What was tried and exists is loaded, nothing else is. */
  lemma {:induction false} LoadedNames(files: Files, tried: seq<string>)
    requires NamedAfterFile(files)
    ensures NamesOf(Loaded(files, tried)) == set x | x in tried && x in files
    ensures forall d | d in Loaded(files, tried) :: d.name in tried && d.name in files && files[d.name] == d
  {
    if tried != [] {
      var rest, n := tried[..|tried| - 1], tried[|tried| - 1];
      LoadedNames(files, rest);
      assert tried == rest + [n];
      if n in files {
        ImportsGrow(Loaded(files, rest), files[n]);
      }
    }
  }

  lemma NamesOfBoth(a: seq<ServiceDef>, b: seq<ServiceDef>)
    ensures NamesOf(a + b) == NamesOf(a) + NamesOf(b)
    decreases |b|
  {
    if b == [] {
      assert a + b == a;
    } else {
      var rest, d := b[..|b| - 1], b[|b| - 1];
      NamesOfBoth(a, rest);
      assert b == rest + [d] && a + b == (a + rest) + [d];
      ImportsGrow(rest, d);
      ImportsGrow(a + rest, d);
    }
  }

  /** The names that can ever be imported. */
  function Universe(given: seq<ServiceDef>, files: Files): set<string> {
    ImportsOf(given) + set x, y | x in files && y in files[x].imports :: y
  }

  lemma {:induction false} PendingInUniverse(given: seq<ServiceDef>, files: Files, tried: seq<string>)
    ensures ImportsOf(given + Loaded(files, tried)) <= Universe(given, files)
  {
    if tried == [] {
      assert given + [] == given;
    } else {
      var rest, n := tried[..|tried| - 1], tried[|tried| - 1];
      PendingInUniverse(given, files, rest);
      if n in files {
        assert given + Loaded(files, tried) == (given + Loaded(files, rest)) + [files[n]];
        ImportsGrow(given + Loaded(files, rest), files[n]);
      }
    }
  }

  lemma LoadedOneMore(files: Files, tried: seq<string>, n: string)
    ensures Loaded(files, tried + [n]) == if n in files then Loaded(files, tried) + [files[n]] else Loaded(files, tried)
  {
    assert (tried + [n])[..|tried|] == tried;
  }

  /** The worklist of `main`. It returns what the rounds have collected once nothing is missing;
      `EndsExactly` says when that happens. */
  method CollectImports(given: seq<ServiceDef>, files: Files)
      returns (alldefs: seq<ServiceDef>, attempted: set<string>)
    requires Ends(given, files)
    ensures State(alldefs, attempted, {}) == StateAt(given, files, LastRound(given, files))
  {
    hide Ends, ImportsOf, NamesOf, Range, NextMissing;
    ghost var last := LastRound(given, files);
    var missing: set<string> := {};
    NoImports();
    for i := 0 to |given|
      invariant missing == ImportsOf(given[..i]) - NamesOf(given)
    {
      missing := MissingOf(given, {}, given[i].imports, missing);
      assert given[..i + 1] == given[..i] + [given[i]];
      ImportsGrow(given[..i], given[i]);
      MissingSplit(given, given[i].imports, ImportsOf(given[..i]));
    }
    assert given[..|given|] == given;
    alldefs := given;
    attempted := {};
    ghost var rounds := 0;
    while missing != {}
      invariant StateAt(given, files, rounds) == State(alldefs, attempted, missing)
      invariant rounds <= last
      decreases last - rounds
    {
      var e := First(missing);
      OneLeast(e, LeastOf(missing), missing);
      missing := missing - {e};
      if e in files {
        var d := files[e];
        alldefs := alldefs + [d];
        missing := MissingOf(alldefs, attempted, d.imports, missing);
      } else {
        attempted := attempted + {e};
      }
      rounds := rounds + 1;
    }
    EndedStays(given, files, rounds, last);
  }

  ghost function LastRound(given: seq<ServiceDef>, files: Files): (n: nat)
    requires Ends(given, files)
    ensures StateAt(given, files, n).missing == {}
  {
    var n: nat :| StateAt(given, files, n).missing == {};
    n
  }

  lemma NoImports()
    ensures ImportsOf([]) == {}
  {
  }

  lemma MissingSplit(defs: seq<ServiceDef>, imports: seq<string>, before: set<string>)
    ensures NextMissing(defs, {}, imports, before - NamesOf(defs)) == before + Range(imports) - NamesOf(defs)
  {
  }

  lemma RunGrows(given: seq<ServiceDef>, files: Files, tried: seq<string>, e: string)
    requires Run(given, files, tried) && Least(e, Pending(given, files, tried))
    ensures Run(given, files, tried + [e])
    ensures e in Universe(given, files) && e !in Range(tried)
  {
    hide Loaded, NamesOf, ImportsOf, Universe;
    var all := tried + [e];
    forall i | 0 <= i < |all| ensures Least(all[i], Pending(given, files, all[..i])) {
      assert all[..i] == tried[..i];
      assert i == |tried| ==> tried[..i] == tried;
    }
    PendingInUniverse(given, files, tried);
  }

  lemma TriedGrows(files: Files, tried: seq<string>, e: string)
    ensures Range(tried + [e]) == Range(tried) + {e}
    ensures Attempted(files, tried + [e]) == Attempted(files, tried) + if e in files then {} else {e}
  {
  }

  /** The names tried in vain. */
  function Attempted(files: Files, tried: seq<string>): set<string> {
    set x | x in tried && x !in files
  }

  /** Trying a name whose file exists: what is pending afterwards. */
  lemma LoadedFound(given: seq<ServiceDef>, files: Files, tried: seq<string>, e: string)
    requires NamedAfterFile(files) && e in files && e in Pending(given, files, tried)
    ensures given + Loaded(files, tried + [e]) == (given + Loaded(files, tried)) + [files[e]]
    ensures var defs := given + Loaded(files, tried) + [files[e]];
            var attempted := Attempted(files, tried);
            Pending(given, files, tried + [e])
            == NextMissing(defs, attempted, files[e].imports, Pending(given, files, tried) - {e})
  {
    var defs := given + Loaded(files, tried);
    LoadedOneMore(files, tried, e);
    assert given + (Loaded(files, tried) + [files[e]]) == defs + [files[e]];
    ImportsGrow(defs, files[e]);
    NamesOfBoth(given, Loaded(files, tried));
    LoadedNames(files, tried);
    assert forall x :: x in tried + [e] <==> x in tried || x == e;
    assert NamesOf(defs + [files[e]]) == NamesOf(given) + (set x | x in tried && x in files) + {e};
  }

  lemma NotFound(given: seq<ServiceDef>, files: Files, tried: seq<string>, e: string)
    requires e !in files
    ensures Loaded(files, tried + [e]) == Loaded(files, tried)
    ensures Pending(given, files, tried + [e]) == Pending(given, files, tried) - {e}
  {
    LoadedOneMore(files, tried, e);
    assert forall x :: x in tried + [e] <==> x in tried || x == e;
  }

  /** The inner loop over a definition's imports. */
  method MissingOf(alldefs: seq<ServiceDef>, attempted: set<string>, imports: seq<string>, missing: set<string>)
      returns (r: set<string>)
    ensures r == NextMissing(alldefs, attempted, imports, missing)
  {
    r := missing;
    for j := 0 to |imports|
      invariant r == NextMissing(alldefs, attempted, imports[..j], missing)
    {
      FoundIsNamed(alldefs, imports[j]);
      assert Range(imports[..j + 1]) == Range(imports[..j]) + {imports[j]};
      if !Found(alldefs, imports[j]) && imports[j] !in attempted {
        r := r + {imports[j]};
      }
    }
    assert imports[..|imports|] == imports;
  }

  // ----- what a finished run has collected

  /** No name is tried twice, so none is loaded twice and no missing file is looked for twice; names
      already given are never tried. */
  lemma TriedOnce(given: seq<ServiceDef>, files: Files, tried: seq<string>)
    requires Run(given, files, tried)
    ensures forall i, j | 0 <= i < j < |tried| :: tried[i] != tried[j]
    ensures forall i | 0 <= i < |tried| :: tried[i] !in NamesOf(given)
  {
    forall i, j | 0 <= i < j < |tried| ensures tried[i] != tried[j] {
      assert tried[j] in Pending(given, files, tried[..j]);
      assert tried[..j][i] == tried[i];
    }
    forall i | 0 <= i < |tried| ensures tried[i] !in NamesOf(given) {
      assert tried[i] in Pending(given, files, tried[..i]);
    }
  }

  /** Closed under every import whose file exists; a given definition stands for its own name. */
  predicate Closed(given: seq<ServiceDef>, files: Files, names: set<string>) {
    && NamesOf(given) <= names
    && (forall x | x in ImportsOf(given) && x in files :: x in names)
    && (forall n, x | n in names && n in files && n !in NamesOf(given) && x in files[n].imports && x in files ::
          x in names)
  }

  /** The collected names are closed, and contained in every closed set. */
  lemma {:induction false} CollectedIsLeastClosed(given: seq<ServiceDef>, files: Files, tried: seq<string>,
                                                  names: set<string>)
    requires NamedAfterFile(files) && Run(given, files, tried) && Pending(given, files, tried) == {}
    ensures Closed(given, files, NamesOf(given + Loaded(files, tried)))
    ensures Closed(given, files, names) ==> NamesOf(given + Loaded(files, tried)) <= names
  {
    CollectedIsClosed(given, files, tried);
    NamesOfBoth(given, Loaded(files, tried));
    LoadedNames(files, tried);
    if Closed(given, files, names) {
      TriedAreNeeded(given, files, tried, names);
    }
  }

  lemma CollectedIsClosed(given: seq<ServiceDef>, files: Files, tried: seq<string>)
    requires NamedAfterFile(files) && Pending(given, files, tried) == {}
    ensures Closed(given, files, NamesOf(given + Loaded(files, tried)))
  {
    var defs := given + Loaded(files, tried);
    NamesOfBoth(given, Loaded(files, tried));
    LoadedNames(files, tried);
    forall x | x in ImportsOf(defs) && x in files ensures x in NamesOf(defs) {
      assert x !in Pending(given, files, tried);
    }
    forall x | x in ImportsOf(given) ensures x in ImportsOf(defs) {
      var i, j :| 0 <= i < |given| && 0 <= j < |given[i].imports| && given[i].imports[j] == x;
      assert defs[i].imports[j] == x;
    }
    forall n, x | n in NamesOf(defs) && n in files && n !in NamesOf(given) && x in files[n].imports && x in files
      ensures x in NamesOf(defs)
    {
      assert n in NamesOf(Loaded(files, tried));
      var i :| 0 <= i < |Loaded(files, tried)| && Loaded(files, tried)[i].name == n;
      assert Loaded(files, tried)[i] == files[n];
      assert defs[|given| + i] == files[n];
      var j :| 0 <= j < |files[n].imports| && files[n].imports[j] == x;
      assert defs[|given| + i].imports[j] == x;
    }
  }

  lemma {:induction false} TriedAreNeeded(given: seq<ServiceDef>, files: Files, tried: seq<string>, names: set<string>)
    requires NamedAfterFile(files) && Run(given, files, tried) && Closed(given, files, names)
    ensures forall x | x in tried && x in files :: x in names
    decreases |tried|
  {
    if tried != [] {
      var rest, n := tried[..|tried| - 1], tried[|tried| - 1];
      assert forall i | 0 <= i < |rest| :: rest[..i] == tried[..i];
      TriedAreNeeded(given, files, rest, names);
      assert tried == rest + [n];
      TriedOnce(given, files, tried);
      LoadedNames(files, rest);
      if n in files {
        var defs := given + Loaded(files, rest);
        assert n in ImportsOf(defs);
        var i, j :| 0 <= i < |defs| && 0 <= j < |defs[i].imports| && defs[i].imports[j] == n;
        if i < |given| {
          assert given[i].imports[j] == n;
        } else {
          var d := Loaded(files, rest)[i - |given|];
          assert d in Loaded(files, rest) && files[d.name] == d;
          assert d.name in tried && d.name !in NamesOf(given);
        }
      }
    }
  }

  /** Whatever the files define: every import met so far is defined, looked for in vain, still missing, or
      its file has been read. A finished loop leaves no import unsettled. */
  lemma {:induction false} ImportsAreSettled(given: seq<ServiceDef>, files: Files, n: nat)
    ensures var s := StateAt(given, files, n);
            forall x | x in ImportsOf(s.defs) ::
              x in NamesOf(s.defs) || x in s.attempted || x in s.missing || (x in files && files[x] in s.defs)
  {
    hide ImportsOf, NamesOf;
    if n > 0 {
      ImportsAreSettled(given, files, n - 1);
      var s := StateAt(given, files, n - 1);
      if s.missing != {} && LeastOf(s.missing) in files {
        ImportsGrow(s.defs, files[LeastOf(s.missing)]);
      }
    }
  }

  // ----- the rounds when each file holds the definition it is named after

  /** The names looked for in the first `n` rounds. */
  ghost function TriedBy(given: seq<ServiceDef>, files: Files, n: nat): seq<string> {
    if n == 0 then []
    else
      var before, s := TriedBy(given, files, n - 1), StateAt(given, files, n - 1);
      if s.missing == {} then before else before + [LeastOf(s.missing)]
  }

  /** What the loop holds after any number of rounds is determined by the names tried so far. */
  lemma {:induction false} RoundsAreRun(given: seq<ServiceDef>, files: Files, n: nat)
    requires NamedAfterFile(files)
    ensures var tried := TriedBy(given, files, n);
            && Run(given, files, tried)
            && StateAt(given, files, n)
               == State(given + Loaded(files, tried), Attempted(files, tried), Pending(given, files, tried))
  {
    hide Run, Pending, Loaded, Attempted, Universe, ImportsOf, NamesOf, Least, Range;
    if n == 0 {
      NothingTried(given, files);
      assert given + [] == given;
    } else {
      RoundsAreRun(given, files, n - 1);
      var s, tried := StateAt(given, files, n - 1), TriedBy(given, files, n - 1);
      if s.missing != {} {
        var e := LeastOf(s.missing);
        LeastIsIn(e, s.missing);
        RunGrows(given, files, tried, e);
        TriedGrows(files, tried, e);
        if e in files {
          LoadedFound(given, files, tried, e);
        } else {
          NotFound(given, files, tried, e);
        }
      }
    }
  }

  lemma LeastIsIn(n: string, names: set<string>)
    requires Least(n, names)
    ensures n in names
  {
  }

  lemma NothingTried(given: seq<ServiceDef>, files: Files)
    ensures Run(given, files, []) && Loaded(files, []) == [] && Attempted(files, []) == {}
    ensures Pending(given, files, []) == ImportsOf(given) - NamesOf(given)
  {
    assert given + [] == given;
  }

  /** When each file holds the definition it is named after, the loop ends, and what it has collected is
      the least set that holds the given definitions and is closed under imports. */
  lemma CollectsImportClosure(given: seq<ServiceDef>, files: Files, n: nat)
    requires NamedAfterFile(files)
    ensures Ends(given, files)
    ensures var s := StateAt(given, files, n);
            s.missing == {} ==>
              && given <= s.defs && s.attempted !! NamesOf(s.defs[|given|..]) && s.attempted !! files.Keys
              && Closed(given, files, NamesOf(s.defs))
              && forall names | Closed(given, files, names) :: NamesOf(s.defs) <= names
  {
    hide Run, Pending, Universe, ImportsOf, Closed, Ends, StateAt;
    EndsWhenNamed(given, files);
    RoundsAreRun(given, files, n);
    var s, tried := StateAt(given, files, n), TriedBy(given, files, n);
    if s.missing == {} {
      assert s.defs[|given|..] == Loaded(files, tried);
      LoadedNames(files, tried);
      CollectedIsClosed(given, files, tried);
      forall names | Closed(given, files, names) ensures NamesOf(s.defs) <= names {
        CollectedIsLeastClosed(given, files, tried, names);
      }
    }
  }

  lemma EndsWhenNamed(given: seq<ServiceDef>, files: Files)
    requires NamedAfterFile(files)
    ensures Ends(given, files)
  {
    hide StateAt, Ends, Least, ImportsOf;
    EndsExactly(given, files);
    if p :| ReadForever(given, files, p) {
      var n: nat :| Takes(given, files, n, p[0]);
      DefinedOnceRead(given, files, n, p[0]);
      assert false;
    }
  }

  lemma DefinedOnceRead(given: seq<ServiceDef>, files: Files, n: nat, x: string)
    requires Takes(given, files, n, x) && x in files
    ensures !NeverDefined(given, files, files[x].name)
  {
    var defs := StateAt(given, files, n).defs;
    ImportsGrow(defs, files[x]);
    assert files[x].name in NamesOf(StateAt(given, files, n + 1).defs);
  }

  // ----- when the loop ends

  predicate Imports(files: Files, a: string, b: string) {
    a in files && b in files && b in files[a].imports
  }

  predicate ImportCycle(files: Files, p: seq<string>) {
    && p != []
    && (forall i | 0 <= i < |p| - 1 :: Imports(files, p[i], p[i + 1]))
    && Imports(files, p[|p| - 1], p[0])
  }

  ghost predicate NeverDefined(given: seq<ServiceDef>, files: Files, x: string) {
    forall n: nat :: x !in NamesOf(StateAt(given, files, n).defs)
  }

  /** Files that import each other in a cycle, under names that no definition read ever has, once one of
      them is read. */
  ghost predicate ReadForever(given: seq<ServiceDef>, files: Files, p: seq<string>) {
    && ImportCycle(files, p)
    && (forall x | x in p :: NeverDefined(given, files, x))
    && exists n: nat :: Takes(given, files, n, p[0])
  }

  /** The loop ends if and only if it never comes upon such a cycle. */
  lemma EndsExactly(given: seq<ServiceDef>, files: Files)
    ensures Ends(given, files) <==> !exists p :: ReadForever(given, files, p)
  {
    if p :| ReadForever(given, files, p) {
      var m: nat :| Takes(given, files, m, p[0]);
      forall n: nat ensures StateAt(given, files, n).missing != {} {
        if n < m {
          EndedStays(given, files, n, m);
        } else {
          var i := CycleStaysMissing(given, files, p, m, n);
        }
      }
    }
    if !Ends(given, files) {
      UndefinedCycle(given, files);
    }
  }

  /** All rounds with nothing missing have the same state. */
  lemma {:induction false} EndedStays(given: seq<ServiceDef>, files: Files, n: nat, m: nat)
    requires n <= m
    ensures StateAt(given, files, n).missing == {} ==> StateAt(given, files, m) == StateAt(given, files, n)
    decreases m
  {
    if n < m {
      EndedStays(given, files, n, m - 1);
    }
  }

  lemma {:induction false} CycleStaysMissing(given: seq<ServiceDef>, files: Files, p: seq<string>, m: nat, n: nat)
      returns (i: nat)
    requires ImportCycle(files, p) && (forall x | x in p :: NeverDefined(given, files, x))
    requires Takes(given, files, m, p[0]) && m <= n
    ensures i < |p| && p[i] in StateAt(given, files, n).missing
    decreases n
  {
    if n == m {
      return 0;
    }
    i := CycleStaysMissing(given, files, p, m, n - 1);
    var s := StateAt(given, files, n - 1);
    NoFileAttempted(given, files, n - 1);
    if p[i] == LeastOf(s.missing) {
      assert Imports(files, p[i], if i < |p| - 1 then p[i + 1] else p[0]);
      i := if i < |p| - 1 then i + 1 else 0;
      assert p[i] in p && p[i] !in NamesOf(StateAt(given, files, n).defs);
    }
  }

  lemma {:induction false} NoFileAttempted(given: seq<ServiceDef>, files: Files, n: nat)
    ensures StateAt(given, files, n).attempted !! files.Keys
  {
    if n > 0 {
      NoFileAttempted(given, files, n - 1);
    }
  }

  ghost predicate Often(given: seq<ServiceDef>, files: Files, x: string) {
    forall n: nat :: TakesSince(given, files, n, x)
  }

  ghost predicate TakesSince(given: seq<ServiceDef>, files: Files, n: nat, x: string) {
    exists m: nat :: n <= m && Takes(given, files, m, x)
  }

  /** From some round on, only names that are looked for again and again are looked for. */
  lemma {:induction false} OnlyOftenLater(given: seq<ServiceDef>, files: Files, names: set<string>) returns (n: nat)
    ensures forall m: nat, x | n <= m && x in names && Takes(given, files, m, x) :: Often(given, files, x)
  {
    n := 0;
    if names != {} {
      var y :| y in names;
      n := OnlyOftenLater(given, files, names - {y});
      if !Often(given, files, y) {
        var k: nat :| !TakesSince(given, files, k, y);
        n := if n < k then k else n;
      }
    }
  }

  lemma {:induction false} MissingInUniverse(given: seq<ServiceDef>, files: Files, n: nat)
    ensures StateAt(given, files, n).missing <= Universe(given, files)
  {
    if n > 0 {
      MissingInUniverse(given, files, n - 1);
    }
  }

  /** If `x` is missing after a round that looked for it, a round since then reads a file that imports it, while it
      is not defined. */
  lemma {:induction false} PutBack(given: seq<ServiceDef>, files: Files, x: string, m: nat, n: nat) returns (k: nat)
    requires m < n && Takes(given, files, m, x) && x in StateAt(given, files, n).missing
    ensures m <= k < n && x !in NamesOf(StateAt(given, files, k + 1).defs)
    ensures x !in StateAt(given, files, k + 1).attempted
    ensures var s := StateAt(given, files, k);
            s.missing != {} && LeastOf(s.missing) in files && x in files[LeastOf(s.missing)].imports
  {
    if m < n - 1 && x in StateAt(given, files, n - 1).missing {
      k := PutBack(given, files, x, m, n - 1);
    } else {
      k := n - 1;
    }
  }

  lemma {:induction false} Grows(given: seq<ServiceDef>, files: Files, m: nat, n: nat)
    requires m <= n
    ensures StateAt(given, files, m).attempted <= StateAt(given, files, n).attempted
    ensures NamesOf(StateAt(given, files, m).defs) <= NamesOf(StateAt(given, files, n).defs)
  {
    if m < n {
      Grows(given, files, m, n - 1);
      var s := StateAt(given, files, n - 1);
      if s.missing != {} && LeastOf(s.missing) in files {
        ImportsGrow(s.defs, files[LeastOf(s.missing)]);
      }
    }
  }

  /** What is looked for again and again has a file, is never defined, and is imported by a file that is
      read again and again. */
  lemma OftenImported(given: seq<ServiceDef>, files: Files, x: string)
    requires Often(given, files, x)
    ensures NeverDefined(given, files, x)
    ensures exists y :: Often(given, files, y) && Imports(files, y, x)
  {
    hide StateAt, Universe, NamesOf;
    var late := OnlyOftenLater(given, files, Universe(given, files));
    forall n: nat ensures x !in NamesOf(StateAt(given, files, n).defs) {
      var k := PutBackAfter(given, files, x, n);
      Grows(given, files, n, k + 1);
    }
    var k := PutBackAfter(given, files, x, late);
    MissingInUniverse(given, files, k);
    var y := LeastOf(StateAt(given, files, k).missing);
    assert Takes(given, files, k, y);
    assert Imports(files, y, x);
  }

  lemma SinceAnyRound(given: seq<ServiceDef>, files: Files, x: string, n: nat)
    requires Often(given, files, x)
    ensures TakesSince(given, files, n, x)
  {
  }

  lemma TakenWasMissing(given: seq<ServiceDef>, files: Files, n: nat, x: string)
    requires Takes(given, files, n, x)
    ensures x in StateAt(given, files, n).missing
  {
    hide StateAt;
  }

  lemma TriedInVain(given: seq<ServiceDef>, files: Files, n: nat, x: string)
    requires Takes(given, files, n, x) && x !in files
    ensures x in StateAt(given, files, n + 1).attempted
  {
  }

  lemma PutBackAfter(given: seq<ServiceDef>, files: Files, x: string, n: nat) returns (k: nat)
    requires Often(given, files, x)
    ensures n <= k && x in files && x !in NamesOf(StateAt(given, files, k + 1).defs)
    ensures var s := StateAt(given, files, k);
            s.missing != {} && LeastOf(s.missing) in files && x in files[LeastOf(s.missing)].imports
  {
    hide Universe, NamesOf, NextMissing, StateAt, Often;
    SinceAnyRound(given, files, x, n);
    var i: nat :| n <= i && Takes(given, files, i, x);
    SinceAnyRound(given, files, x, i + 1);
    var j: nat :| i + 1 <= j && Takes(given, files, j, x);
    TakenWasMissing(given, files, j, x);
    k := PutBack(given, files, x, i, j);
    if x !in files {
      TriedInVain(given, files, i, x);
      Grows(given, files, i + 1, k + 1);
    }
  }

  /** `w` leads from its first name along imports, each name looked for again and again. */
  ghost predicate OftenWalk(given: seq<ServiceDef>, files: Files, w: seq<string>) {
    && (forall i | 0 <= i < |w| :: Often(given, files, w[i]))
    && forall i | 0 <= i < |w| - 1 :: Imports(files, w[i], w[i + 1])
  }

  lemma {:induction false} WalkBack(given: seq<ServiceDef>, files: Files, x: string, k: nat) returns (w: seq<string>)
    requires Often(given, files, x)
    ensures |w| == k + 1 && OftenWalk(given, files, w)
  {
    hide Often, Imports;
    if k == 0 {
      w := [x];
    } else {
      var v := WalkBack(given, files, x, k - 1);
      OftenImported(given, files, v[0]);
      var y :| Often(given, files, y) && Imports(files, y, v[0]);
      w := [y] + v;
    }
  }

  /** A loop that does not end has come upon a cycle of files whose names are never defined. */
  lemma UndefinedCycle(given: seq<ServiceDef>, files: Files)
    requires !Ends(given, files)
    ensures exists p :: ReadForever(given, files, p)
  {
    hide StateAt, Universe, Often, NeverDefined, Imports;
    var all := Universe(given, files);
    var late := OnlyOftenLater(given, files, all);
    var x := LeastOf(StateAt(given, files, late).missing);
    MissingInUniverse(given, files, late);
    assert Takes(given, files, late, x);
    var w := WalkBack(given, files, x, |all|);
    forall k | 0 <= k < |w| ensures w[k] in all {
      OftenInUniverse(given, files, w[k]);
    }
    var i, j := Pigeonhole(all, w);
    var p := w[i..j];
    forall k | 0 <= k < |p| - 1 ensures Imports(files, p[k], p[k + 1]) {
      assert Imports(files, w[i + k], w[i + k + 1]);
    }
    assert Imports(files, w[j - 1], w[j - 1 + 1]);
    forall x | x in p ensures NeverDefined(given, files, x) {
      OftenImported(given, files, x);
    }
    var n := OftenTaken(given, files, p[0]);
    assert ReadForever(given, files, p);
  }

  lemma OftenTaken(given: seq<ServiceDef>, files: Files, x: string) returns (n: nat)
    requires Often(given, files, x)
    ensures Takes(given, files, n, x)
  {
    assert TakesSince(given, files, 0, x);
    n :| 0 <= n && Takes(given, files, n, x);
  }

  lemma OftenInUniverse(given: seq<ServiceDef>, files: Files, x: string)
    requires Often(given, files, x)
    ensures x in Universe(given, files)
  {
    hide Universe, StateAt;
    var n := OftenTaken(given, files, x);
    MissingInUniverse(given, files, n);
  }

  // ----- a file that defines something else

  /** Only the given definitions and the files read define names. */
  lemma {:induction false} DefinedByFiles(given: seq<ServiceDef>, files: Files, n: nat)
    ensures NamesOf(StateAt(given, files, n).defs) <= NamesOf(given) + set x | x in files :: files[x].name
  {
    if n > 0 {
      DefinedByFiles(given, files, n - 1);
      var s := StateAt(given, files, n - 1);
      if s.missing != {} && LeastOf(s.missing) in files {
        ImportsGrow(s.defs, files[LeastOf(s.missing)]);
      }
    }
  }

  /** Files that import each other under names that no file and no given definition has: once one of them
      is read, the loop does not end. */
  lemma UndefinableCycle(given: seq<ServiceDef>, files: Files, p: seq<string>, n: nat)
    requires ImportCycle(files, p) && Takes(given, files, n, p[0])
    requires forall x | x in p :: x !in NamesOf(given) && forall y | y in files :: files[y].name != x
    ensures !Ends(given, files)
  {
    hide NamesOf, StateAt;
    forall x, m: nat | x in p ensures x !in NamesOf(StateAt(given, files, m).defs) {
      DefinedByFiles(given, files, m);
    }
    assert ReadForever(given, files, p);
    EndsExactly(given, files);
  }

  /** Why the file names matter: a file `a.robdef` that defines `b` and imports `a` is read for ever. */
  lemma MisnamedFileIsReadForever()
    ensures var given, files := [ServiceDef("s", ["a"])], map["a" := ServiceDef("b", ["a"])];
            !NamedAfterFile(files) && !Ends(given, files)
  {
    var given, files := [ServiceDef("s", ["a"])], map["a" := ServiceDef("b", ["a"])];
    assert files["a"].name == "b";
    assert given[0].imports[0] == "a" && given[0].name == "s";
    assert Imports(files, "a", "a");
    assert "a" in ImportsOf(given) - NamesOf(given);
    UndefinableCycle(given, files, ["a"], 0);
  }
}
