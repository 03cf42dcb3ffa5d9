/** Bindings that dynamic SQL reconstruction does not track, and when its verdict is right all the same. */
module UntrackedBindings {
  import opened DynamicSql
  import opened DynamicSqlPaths
  import Paths = ReachingDefinitions

  /** The graph of p with every binding in it, tracked or not.  The text that an untracked one binds is not
      known: SELECT INTO, FETCH, OUT arguments, and parameters on entry. */
  ghost predicate Completes(whole: Paths.Graph, p: Program) {
    && Paths.WellFormed(p.graph) && Paths.WellFormed(whole)
    && whole.arcs == p.graph.arcs && whole.entry == p.graph.entry && p.graph.initial <= whole.initial
    && (forall n :: Paths.Defines(p.graph, n) <= Paths.Defines(whole, n))
    && (forall n | n in p.graph.defs :: n in whole.refs && whole.refs[n] == p.graph.refs[n])
    && (forall n, s | s in Paths.Defines(whole, n) ::
          s in Paths.Defines(p.graph, n) || !IsKnown(p.definitions, whole.refs[n]))
    && (forall x | x in whole.initial :: x in p.graph.initial || !IsKnown(p.definitions, x.ref))
  }

  /** ref is the last binding of the symbol along some path to the statement. */
  ghost predicate LastBinding(p: Program, whole: Paths.Graph, at: Ref, symbol: Paths.Symbol, ref: Ref)
    requires Paths.WellFormed(whole)
  {
    at in p.place && Paths.Reaches(whole, p.place[at], Paths.Fact(symbol, ref))
  }

  // ----- the strings there really are -----

  /** Like PathResolves, over all bindings: one whose text is not known may bind any string. */
  ghost predicate WholeResolves(p: Program, whole: Paths.Graph, e: Expression, at: Ref, s: string, k: nat)
    requires Paths.WellFormed(whole)
    decreases k, |e|, 1
  {
    if e == [] then s == ""
    else exists n | 0 <= n <= |s| ::
      AtomWholeResolves(p, whole, e[0], at, s[..n], k) && WholeResolves(p, whole, e[1..], at, s[n..], k)
  }

  ghost predicate AtomWholeResolves(p: Program, whole: Paths.Graph, a: Atom, at: Ref, s: string, k: nat)
    requires Paths.WellFormed(whole)
    decreases k, 0, 0
  {
    match a
    case Text(text) => s == text
    case Opaque(_) => false
    case Variable(symbol) =>
      k > 0 && exists ref | LastBinding(p, whole, at, VARIABLE + symbol, ref) ::
        !IsKnown(p.definitions, ref) || WholeResolves(p, whole, p.definitions[ref], ref, s, k - 1)
  }

  ghost predicate WholeResolvable(p: Program, whole: Paths.Graph, e: Expression, at: Ref, s: string)
    requires Paths.WellFormed(whole)
  {
    exists k: nat :: WholeResolves(p, whole, e, at, s, k)
  }

  /** s can really be the text executed. */
  ghost predicate WholeObtainable(p: Program, whole: Paths.Graph, x: Execution, s: string)
    requires Paths.WellFormed(whole)
  {
    match x
    case ExecuteImmediate(at, source) => WholeResolvable(p, whole, source, at, s)
    case Execute(at, name) => exists ref :: LastBinding(p, whole, at, PREPARED + name, ref) && Binds(p, whole, ref, s)
  }

  ghost predicate Binds(p: Program, whole: Paths.Graph, ref: Ref, s: string)
    requires Paths.WellFormed(whole)
  {
    IsKnown(p.definitions, ref) ==> WholeResolvable(p, whole, p.definitions[ref], ref, s)
  }

  ghost predicate WholeTrims(p: Program, whole: Paths.Graph, x: Execution, r: Reader, t: string)
    requires Paths.WellFormed(whole)
  {
    exists s | WholeObtainable(p, whole, x, s) :: r.trim(s) == t
  }

  // ----- gaps -----

  /** A binding whose text is not known can be last on a path, for a name that e leads to in at most k
      steps. */
  ghost predicate GapBelow(p: Program, whole: Paths.Graph, e: Expression, at: Ref, k: nat)
    requires Paths.WellFormed(whole)
    decreases k
  {
    exists a, ref | a in e && a.Variable? && LastBinding(p, whole, at, VARIABLE + a.symbol, ref) ::
      !IsKnown(p.definitions, ref) || (k > 0 && GapBelow(p, whole, p.definitions[ref], ref, k - 1))
  }

  ghost predicate HasGap(p: Program, whole: Paths.Graph, e: Expression, at: Ref)
    requires Paths.WellFormed(whole)
  {
    exists k: nat :: GapBelow(p, whole, e, at, k)
  }

  /** A binding whose text is not known can be last on a path, for a name that the statement leads to. */
  ghost predicate ExecutionGap(p: Program, whole: Paths.Graph, x: Execution)
    requires Paths.WellFormed(whole)
  {
    match x
    case ExecuteImmediate(at, source) => HasGap(p, whole, source, at)
    case Execute(at, name) => exists ref :: LastBinding(p, whole, at, PREPARED + name, ref) && RefGap(p, whole, ref)
  }

  /** The text of ref is not known, or it leads to a gap. */
  ghost predicate RefGap(p: Program, whole: Paths.Graph, ref: Ref)
    requires Paths.WellFormed(whole)
  {
    IsKnown(p.definitions, ref) ==> HasGap(p, whole, p.definitions[ref], ref)
  }

  // ----- last bindings and last definitions -----

  lemma {:induction false} SamePaths(p: Program, whole: Paths.Graph, path: seq<Paths.Node>)
    requires Completes(whole, p)
    ensures Paths.IsPath(whole, path) <==> Paths.IsPath(p.graph, path)
  {
  }

  /** Along one path, the last definition is the last binding, or the last binding is not known. */
  lemma {:induction false} CarriedByAll(
      p: Program, whole: Paths.Graph, path: seq<Paths.Node>, symbol: Paths.Symbol, ref: Ref)
      returns (last: Ref)
    requires Completes(whole, p) && Paths.Carried(p.graph, path, Paths.Fact(symbol, ref))
    ensures Paths.Carried(whole, path, Paths.Fact(symbol, last)) && (last == ref || !IsKnown(p.definitions, last))
    decreases |path|
  {
    last := ref;
    if |path| > 1 {
      var n := path[|path| - 2];
      if symbol in Paths.Defines(whole, n) {
        last := whole.refs[n];
        assert Paths.Fact(symbol, last) in Paths.Generated(whole, n);
      } else {
        last := CarriedByAll(p, whole, path[..|path| - 1], symbol, ref);
      }
    }
  }

  lemma {:induction false} CarriedByTracked(
      p: Program, whole: Paths.Graph, path: seq<Paths.Node>, symbol: Paths.Symbol, ref: Ref)
    requires Completes(whole, p) && Paths.Carried(whole, path, Paths.Fact(symbol, ref)) && IsKnown(p.definitions, ref)
    ensures Paths.Carried(p.graph, path, Paths.Fact(symbol, ref))
    decreases |path|
  {
    if |path| > 1 {
      var n := path[|path| - 2];
      if symbol in Paths.Defines(whole, n) {
        assert Paths.Fact(symbol, whole.refs[n]) in Paths.Generated(whole, n);
        assert ref == whole.refs[n];
        assert Paths.Fact(symbol, ref) in Paths.Generated(p.graph, n);
      } else {
        CarriedByTracked(p, whole, path[..|path| - 1], symbol, ref);
      }
    }
  }

  lemma {:induction false} LastIsBound(p: Program, whole: Paths.Graph, at: Ref, symbol: Paths.Symbol,
                                       ref: Ref) returns (last: Ref)
    requires Completes(whole, p) && LastOnPath(p, at, symbol, ref)
    ensures LastBinding(p, whole, at, symbol, last) && (last == ref || !IsKnown(p.definitions, last))
  {
    hide Paths.Carried;
    var n := p.place[at];
    var path :| Paths.IsPath(p.graph, path) && path[|path| - 1] == n
      && Paths.Carried(p.graph, path, Paths.Fact(symbol, ref));
    SamePaths(p, whole, path);
    last := CarriedByAll(p, whole, path, symbol, ref);
  }

  lemma {:induction false} KnownIsTracked(p: Program, whole: Paths.Graph, at: Ref, symbol: Paths.Symbol, ref: Ref)
    requires Completes(whole, p) && LastBinding(p, whole, at, symbol, ref) && IsKnown(p.definitions, ref)
    ensures LastOnPath(p, at, symbol, ref)
  {
    hide Paths.Carried;
    var n := p.place[at];
    var path :| Paths.IsPath(whole, path) && path[|path| - 1] == n
      && Paths.Carried(whole, path, Paths.Fact(symbol, ref));
    SamePaths(p, whole, path);
    CarriedByTracked(p, whole, path, symbol, ref);
  }

  // ----- without a gap -----

  lemma {:induction false} GapInside(p: Program, whole: Paths.Graph, e: Expression, at: Ref, a: Atom, ref: Ref)
    requires Paths.WellFormed(whole)
    requires a in e && a.Variable? && LastBinding(p, whole, at, VARIABLE + a.symbol, ref)
    ensures RefGap(p, whole, ref) ==> HasGap(p, whole, e, at)
  {
    hide LastBinding;
    if !IsKnown(p.definitions, ref) {
      assert GapBelow(p, whole, e, at, 0);
    } else if HasGap(p, whole, p.definitions[ref], ref) {
      var k: nat :| GapBelow(p, whole, p.definitions[ref], ref, k);
      assert GapBelow(p, whole, e, at, k + 1);
    }
  }

  lemma {:induction false} GapBehind(p: Program, whole: Paths.Graph, e: Expression, at: Ref)
    requires Paths.WellFormed(whole) && e != []
    ensures HasGap(p, whole, e[1..], at) ==> HasGap(p, whole, e, at)
  {
    hide LastBinding;
    if HasGap(p, whole, e[1..], at) {
      var k: nat :| GapBelow(p, whole, e[1..], at, k);
      assert GapBelow(p, whole, e, at, k);
    }
  }

  /** Without a gap the paths of the analyser yield the strings there really are. */
  lemma {:induction false} NoGapAgrees(p: Program, whole: Paths.Graph, e: Expression, at: Ref, s: string, k: nat)
    requires Completes(whole, p) && !HasGap(p, whole, e, at)
    ensures WholeResolves(p, whole, e, at, s, k) <==> PathResolves(p, e, at, s, k)
    decreases k, |e|, 1
  {
    hide LastBinding, LastOnPath, HasGap;
    if e != [] {
      GapBehind(p, whole, e, at);
      forall n | 0 <= n <= |s|
        ensures AtomWholeResolves(p, whole, e[0], at, s[..n], k) <==> AtomPathResolves(p, e[0], at, s[..n], k)
        ensures WholeResolves(p, whole, e[1..], at, s[n..], k) <==> PathResolves(p, e[1..], at, s[n..], k)
      {
        AtomNoGapAgrees(p, whole, e, at, s[..n], k);
        NoGapAgrees(p, whole, e[1..], at, s[n..], k);
      }
    }
  }

  lemma {:induction false} AtomNoGapAgrees(p: Program, whole: Paths.Graph, e: Expression, at: Ref, s: string, k: nat)
    requires Completes(whole, p) && e != [] && !HasGap(p, whole, e, at)
    ensures AtomWholeResolves(p, whole, e[0], at, s, k) <==> AtomPathResolves(p, e[0], at, s, k)
    decreases k, 0, 0
  {
    hide LastBinding, LastOnPath, HasGap;
    if e[0].Variable? && k > 0 {
      var symbol := VARIABLE + e[0].symbol;
      forall ref | LastBinding(p, whole, at, symbol, ref)
        ensures IsKnown(p.definitions, ref) && LastOnPath(p, at, symbol, ref)
        ensures WholeResolves(p, whole, p.definitions[ref], ref, s, k - 1) <==>
          PathResolves(p, p.definitions[ref], ref, s, k - 1)
      {
        GapInside(p, whole, e, at, e[0], ref);
        KnownIsTracked(p, whole, at, symbol, ref);
        NoGapAgrees(p, whole, p.definitions[ref], ref, s, k - 1);
      }
      forall ref | LastOnPath(p, at, symbol, ref) ensures LastBinding(p, whole, at, symbol, ref) {
        var last := LastIsBound(p, whole, at, symbol, ref);
        assert IsKnown(p.definitions, last);
      }
    }
  }

  // ----- strings through the gaps -----

  lemma {:induction false} WholeDeeper(
      p: Program, whole: Paths.Graph, e: Expression, at: Ref, s: string, k: nat, m: nat)
    requires Paths.WellFormed(whole) && WholeResolves(p, whole, e, at, s, k) && k <= m
    ensures WholeResolves(p, whole, e, at, s, m)
    decreases k, |e|, 1
  {
    hide LastBinding;
    if e != [] {
      var n :| 0 <= n <= |s| && AtomWholeResolves(p, whole, e[0], at, s[..n], k)
        && WholeResolves(p, whole, e[1..], at, s[n..], k);
      AtomWholeDeeper(p, whole, e[0], at, s[..n], k, m);
      WholeDeeper(p, whole, e[1..], at, s[n..], k, m);
    }
  }

  lemma {:induction false} AtomWholeDeeper(p: Program, whole: Paths.Graph, a: Atom, at: Ref, s: string, k: nat, m: nat)
    requires Paths.WellFormed(whole) && AtomWholeResolves(p, whole, a, at, s, k) && k <= m
    ensures AtomWholeResolves(p, whole, a, at, s, m)
    decreases k, 0, 0
  {
    hide LastBinding;
    match a
    case Variable(symbol) =>
      var ref :| LastBinding(p, whole, at, VARIABLE + symbol, ref) &&
        (!IsKnown(p.definitions, ref) || WholeResolves(p, whole, p.definitions[ref], ref, s, k - 1));
      if IsKnown(p.definitions, ref) {
        WholeDeeper(p, whole, p.definitions[ref], ref, s, k - 1, m - 1);
      }
    case _ =>
  }

  /** What the analyser's paths yield is among the strings there really are. */
  lemma {:induction false} PathsAreReal(p: Program, whole: Paths.Graph, e: Expression, at: Ref, s: string, k: nat)
    requires Completes(whole, p) && PathResolves(p, e, at, s, k)
    ensures WholeResolves(p, whole, e, at, s, k)
    decreases k, |e|, 1
  {
    hide LastBinding, LastOnPath;
    if e != [] {
      var n :| 0 <= n <= |s| && AtomPathResolves(p, e[0], at, s[..n], k) && PathResolves(p, e[1..], at, s[n..], k);
      AtomPathsAreReal(p, whole, e[0], at, s[..n], k);
      PathsAreReal(p, whole, e[1..], at, s[n..], k);
    }
  }

  lemma {:induction false} AtomPathsAreReal(p: Program, whole: Paths.Graph, a: Atom, at: Ref, s: string, k: nat)
    requires Completes(whole, p) && AtomPathResolves(p, a, at, s, k)
    ensures AtomWholeResolves(p, whole, a, at, s, k)
    decreases k, 0, 0
  {
    hide LastBinding, LastOnPath;
    match a
    case Variable(symbol) =>
      var ref :| LastOnPath(p, at, VARIABLE + symbol, ref) &&
        IsKnown(p.definitions, ref) && PathResolves(p, p.definitions[ref], ref, s, k - 1);
      var last := LastIsBound(p, whole, at, VARIABLE + symbol, ref);
      if last == ref {
        PathsAreReal(p, whole, p.definitions[ref], ref, s, k - 1);
      }
    case _ =>
  }

  ghost predicate AtomWholeResolvable(p: Program, whole: Paths.Graph, a: Atom, at: Ref, s: string)
    requires Paths.WellFormed(whole)
  {
    exists k: nat :: AtomWholeResolves(p, whole, a, at, s, k)
  }

  ghost predicate HasString(p: Program, whole: Paths.Graph, a: Atom, at: Ref)
    requires Paths.WellFormed(whole)
  {
    exists s :: AtomWholeResolvable(p, whole, a, at, s)
  }

  lemma {:induction false} WholeJoins(p: Program, whole: Paths.Graph, e: Expression, at: Ref, u: string, v: string)
    requires Paths.WellFormed(whole) && e != []
    requires AtomWholeResolvable(p, whole, e[0], at, u) && WholeResolvable(p, whole, e[1..], at, v)
    ensures WholeResolvable(p, whole, e, at, u + v)
  {
    hide AtomWholeResolves;
    var k: nat :| AtomWholeResolves(p, whole, e[0], at, u, k);
    var m: nat :| WholeResolves(p, whole, e[1..], at, v, m);
    var d := if k < m then m else k;
    AtomWholeDeeper(p, whole, e[0], at, u, k, d);
    WholeDeeper(p, whole, e[1..], at, v, m, d);
    var s, n := u + v, |u|;
    assert s[..n] == u && s[n..] == v;
    assert WholeResolves(p, whole, e, at, s, d);
  }

  lemma {:induction false} WholeString(p: Program, whole: Paths.Graph, e: Expression, at: Ref) returns (s: string)
    requires Paths.WellFormed(whole) && forall a | a in e :: HasString(p, whole, a, at)
    ensures WholeResolvable(p, whole, e, at, s)
    decreases |e|
  {
    hide AtomWholeResolvable;
    if e == [] {
      s := "";
      assert WholeResolves(p, whole, e, at, s, 0);
    } else {
      assert HasString(p, whole, e[0], at);
      var u :| AtomWholeResolvable(p, whole, e[0], at, u);
      var v := WholeString(p, whole, e[1..], at);
      WholeJoins(p, whole, e, at, u, v);
      s := u + v;
    }
  }

  /** What one operand can be stands in some string of the whole expression. */
  lemma {:induction false} Around(p: Program, whole: Paths.Graph, e: Expression, at: Ref, i: nat, m: string)
      returns (a: string, b: string)
    requires Paths.WellFormed(whole) && i < |e| && AtomWholeResolvable(p, whole, e[i], at, m)
    requires forall x | x in e :: HasString(p, whole, x, at)
    ensures WholeResolvable(p, whole, e, at, a + m + b)
    decreases |e|
  {
    hide AtomWholeResolvable, WholeResolvable;
    if i == 0 {
      a := "";
      b := WholeString(p, whole, e[1..], at);
      WholeJoins(p, whole, e, at, m, b);
      assert a + m + b == m + b;
    } else {
      assert HasString(p, whole, e[0], at);
      var u :| AtomWholeResolvable(p, whole, e[0], at, u);
      a, b := Around(p, whole, e[1..], at, i - 1, m);
      WholeJoins(p, whole, e, at, u, a + m + b);
      assert u + (a + m + b) == (u + a) + m + b;
      a := u + a;
    }
  }

  // ----- a verdict is reached only where every name has been followed -----

  lemma {:induction false} EvalAtomsAt(f: Flow, e: Expression, at: Ref, depth: nat, visited: Visited, i: nat)
    requires depth < MAX_EVAL_DEPTH && i < |e|
    ensures var (alternatives, exceeded) := EvalAtoms(f, e, at, depth, visited);
      var (values, over) := EvalAtom(f, e[i], at, depth, visited);
      alternatives[i] == values && (over ==> exceeded)
    decreases |e|
  {
    hide EvalAtom;
    if i > 0 {
      EvalAtomsAt(f, e[1..], at, depth, visited, i - 1);
    }
  }

  lemma {:induction false} OperandIsDone(f: Flow, e: Expression, at: Ref, depth: nat, visited: Visited, i: nat)
    requires i < |e| && IsDone(EvalExpression(f, e, at, depth, visited))
    ensures depth < MAX_EVAL_DEPTH && IsDone(EvalAtom(f, e[i], at, depth, visited))
  {
    hide EvalAtoms, EvalAtom, Dedupe, Clean;
    if depth >= MAX_EVAL_DEPTH {
      PlaceholderIsDirty(f.digest(e));
      assert false;
    }
    var (alternatives, exceeded) := EvalAtoms(f, e, at, depth, visited);
    AtomsAreExact(f, e, at, depth, visited);
    var all := Product(alternatives);
    DedupeIsTransparent(all);
    ProductIsDirty(alternatives);
    EvalAtomsAt(f, e, at, depth, visited, i);
    assert alternatives[i] in alternatives;
  }

  lemma {:induction false} DefinitionIsDone(f: Flow, refs: seq<Ref>, depth: nat, visited: Visited, ref: Ref)
    requires depth <= MAX_EVAL_DEPTH && ref in refs && IsKnown(f.definitions, ref)
    requires var (values, exceeded) := EvalDefinitions(f, refs, depth, visited); !exceeded && Clean(values)
    ensures IsDone(EvalExpression(f, f.definitions[ref], ref, depth, visited))
    decreases |refs|
  {
    hide EvalExpression, Clean;
    var (rest, _) := EvalDefinitions(f, refs[1..], depth, visited);
    if refs[0] in f.definitions {
      var (nested, _) := EvalExpression(f, f.definitions[refs[0]], refs[0], depth, visited);
      SourceIsTransparent(nested, refs[0]);
      AppendKeys(WithSource(nested, refs[0]), rest);
    }
    if ref == refs[0] {
      ExpressionIsExact(f, f.definitions[ref], ref, depth, visited);
    } else {
      DefinitionIsDone(f, refs[1..], depth, visited, ref);
    }
  }

  lemma {:induction false} NameIsDone(f: Flow, symbol: Symbol, at: Ref, depth: nat, visited: Visited, ref: Ref)
    requires depth < MAX_EVAL_DEPTH && IsDone(EvalAtom(f, Variable(symbol), at, depth, visited))
    requires ref in RefsOf(f, at, symbol) && IsKnown(f.definitions, ref)
    ensures IsDone(EvalExpression(f, f.definitions[ref], ref, depth + 1, visited + {(at, symbol)}))
  {
    hide EvalDefinitions, EvalExpression, Clean, Dedupe;
    PlaceholderIsDirty(symbol);
    var inner := visited + {(at, symbol)};
    var (values, _) := EvalDefinitions(f, RefsOf(f, at, symbol), depth + 1, inner);
    DedupeIsTransparent(values);
    DefinitionIsDone(f, RefsOf(f, at, symbol), depth + 1, inner, ref);
  }

  /** Every operand of an expression that has been evaluated has a string. */
  lemma {:induction false} DoneHasStrings(f: Flow, p: Program, whole: Paths.Graph, e: Expression, at: Ref, depth: nat,
                                          visited: Visited)
    requires Completes(whole, p) && FromPaths(f, p) && IsDone(EvalExpression(f, e, at, depth, visited))
    ensures forall a | a in e :: HasString(p, whole, a, at)
  {
    hide EvalExpression, EvalAtom, AtomResolves, AtomPathResolves, AtomWholeResolves, LastOnPath;
    forall a | a in e ensures HasString(p, whole, a, at) {
      var i :| 0 <= i < |e| && e[i] == a;
      OperandIsDone(f, e, at, depth, visited, i);
      AtomIsExact(f, a, at, depth, visited);
      var s := EvalAtom(f, a, at, depth, visited).0[0].text;
      assert HasText(EvalAtom(f, a, at, depth, visited).0, s);
      var k: nat :| AtomResolves(f, a, at, s, k);
      AtomResolvesOnPaths(f, p, a, at, s, k);
      AtomPathsAreReal(p, whole, a, at, s, k);
      assert AtomWholeResolvable(p, whole, a, at, s);
    }
  }

  /** Through a gap, any text m can get into the string. */
  lemma {:induction false} GapIsOpen(f: Flow, p: Program, whole: Paths.Graph, e: Expression, at: Ref,
      depth: nat, visited: Visited, k: nat, m: string) returns (a: string, b: string)
    requires Completes(whole, p) && FromPaths(f, p) && IsDone(EvalExpression(f, e, at, depth, visited))
    requires GapBelow(p, whole, e, at, k)
    ensures WholeResolvable(p, whole, e, at, a + m + b)
    decreases k
  {
    hide EvalExpression, EvalAtom, LastBinding, LastOnPath, IsDone;
    var x, ref :| x in e && x.Variable? && LastBinding(p, whole, at, VARIABLE + x.symbol, ref) &&
      (!IsKnown(p.definitions, ref) || (k > 0 && GapBelow(p, whole, p.definitions[ref], ref, k - 1)));
    var i :| 0 <= i < |e| && e[i] == x;
    DoneHasStrings(f, p, whole, e, at, depth, visited);
    a, b := "", "";
    if IsKnown(p.definitions, ref) {
      KnownIsTracked(p, whole, at, VARIABLE + x.symbol, ref);
      OperandIsDone(f, e, at, depth, visited, i);
      NameIsDone(f, x.symbol, at, depth, visited, ref);
      a, b := GapIsOpen(f, p, whole, p.definitions[ref], ref, depth + 1, visited + {(at, x.symbol)}, k - 1, m);
    }
    NameBinds(p, whole, x.symbol, at, ref, a + m + b);
    var left, right := Around(p, whole, e, at, i, a + m + b);
    assert left + (a + m + b) + right == (left + a) + m + (b + right);
    a, b := left + a, b + right;
  }

  lemma {:induction false} NameBinds(p: Program, whole: Paths.Graph, symbol: Symbol, at: Ref, ref: Ref, s: string)
    requires Paths.WellFormed(whole) && LastBinding(p, whole, at, VARIABLE + symbol, ref) && Binds(p, whole, ref, s)
    ensures AtomWholeResolvable(p, whole, Variable(symbol), at, s)
  {
    hide LastBinding;
    var k: nat := 0;
    if IsKnown(p.definitions, ref) {
      k :| WholeResolves(p, whole, p.definitions[ref], ref, s, k);
    }
    assert AtomWholeResolves(p, whole, Variable(symbol), at, s, k + 1);
  }

  // ----- the verdict -----

  /** Trimming keeps texts of any length in the middle of a string. */
  ghost predicate KeepsText(r: Reader) {
    forall n: nat :: KeepsLength(r, n)
  }

  ghost predicate KeepsLength(r: Reader, n: nat) {
    exists m :: Survives(r, m, n)
  }

  ghost predicate Survives(r: Reader, m: string, n: nat) {
    forall a, b :: |r.trim(a + m + b)| >= n
  }

  lemma {:induction false} RefNoGapAgrees(p: Program, whole: Paths.Graph, ref: Ref, s: string)
    requires Completes(whole, p) && !RefGap(p, whole, ref)
    ensures Binds(p, whole, ref, s) <==> IsKnown(p.definitions, ref) && PathResolvable(p, p.definitions[ref], ref, s)
  {
    hide WholeResolves, PathResolves, HasGap;
    forall k: nat
      ensures WholeResolves(p, whole, p.definitions[ref], ref, s, k) <==> PathResolves(p, p.definitions[ref], ref, s, k)
    {
      NoGapAgrees(p, whole, p.definitions[ref], ref, s, k);
    }
  }

  lemma {:induction false} NoGapIsExact(p: Program, whole: Paths.Graph, x: Execution, s: string)
    requires Completes(whole, p) && !ExecutionGap(p, whole, x)
    ensures WholeObtainable(p, whole, x, s) <==> ObtainableOnPaths(p, x, s)
  {
    hide WholeResolves, PathResolves, HasGap, LastBinding, LastOnPath, RefGap, Binds;
    match x
    case ExecuteImmediate(at, source) =>
      forall k: nat ensures WholeResolves(p, whole, source, at, s, k) <==> PathResolves(p, source, at, s, k) {
        NoGapAgrees(p, whole, source, at, s, k);
      }
    case Execute(at, name) =>
      forall ref | LastBinding(p, whole, at, PREPARED + name, ref)
        ensures IsKnown(p.definitions, ref) && LastOnPath(p, at, PREPARED + name, ref)
        ensures Binds(p, whole, ref, s) <==> PathResolvable(p, p.definitions[ref], ref, s)
      {
        UnknownIsGap(p, whole, ref);
        KnownIsTracked(p, whole, at, PREPARED + name, ref);
        RefNoGapAgrees(p, whole, ref, s);
      }
      forall ref | LastOnPath(p, at, PREPARED + name, ref) ensures LastBinding(p, whole, at, PREPARED + name, ref) {
        var last := LastIsBound(p, whole, at, PREPARED + name, ref);
        assert IsKnown(p.definitions, last);
      }
  }

  lemma {:induction false} UnknownIsGap(p: Program, whole: Paths.Graph, ref: Ref)
    requires Paths.WellFormed(whole)
    ensures !IsKnown(p.definitions, ref) ==> RefGap(p, whole, ref)
  {
  }

  lemma {:induction false} PrepareIsDone(f: Flow, prepares: seq<Ref>, ref: Ref)
    requires ref in prepares && IsKnown(f.definitions, ref)
    requires var (values, exceeded) := EvalPrepares(f, prepares); !exceeded && Clean(values)
    ensures IsDone(EvalExpression(f, f.definitions[ref], ref, 0, {}))
  {
    hide EvalExpression, Clean;
    var (rest, _) := EvalPrepares(f, prepares[1..]);
    if prepares[0] in f.definitions {
      AppendKeys(EvalExpression(f, f.definitions[prepares[0]], prepares[0], 0, {}).0, rest);
    }
    if ref == prepares[0] {
      ExpressionIsExact(f, f.definitions[ref], ref, 0, {});
    } else {
      PrepareIsDone(f, prepares[1..], ref);
    }
  }

  /** Through a gap, any text can get into what is executed. */
  lemma {:induction false} ExecutionGapIsOpen(f: Flow, p: Program, whole: Paths.Graph, x: Execution, site: Site,
                                              m: string)
      returns (a: string, b: string)
    requires Completes(whole, p) && FromPaths(f, p) && SiteOf(p, x, site)
    requires IsDone(ValuesForExecute(f, site)) && ExecutionGap(p, whole, x)
    ensures WholeObtainable(p, whole, x, a + m + b)
  {
    hide EvalExpression, GapBelow, LastBinding, LastOnPath, WholeResolvable, Dedupe;
    match x
    case ExecuteImmediate(at, source) =>
      var k: nat :| GapBelow(p, whole, source, at, k);
      a, b := GapIsOpen(f, p, whole, source, at, 0, {}, k, m);
    case Execute(at, name) =>
      var ref :| LastBinding(p, whole, at, PREPARED + name, ref) && RefGap(p, whole, ref);
      a, b := "", "";
      if IsKnown(p.definitions, ref) {
        KnownIsTracked(p, whole, at, PREPARED + name, ref);
        DedupeIsTransparent(EvalPrepares(f, site.prepares).0);
        PrepareIsDone(f, site.prepares, ref);
        var k: nat :| GapBelow(p, whole, p.definitions[ref], ref, k);
        a, b := GapIsOpen(f, p, whole, p.definitions[ref], ref, 0, {}, k, m);
      }
      assert Binds(p, whole, ref, a + m + b);
  }

  lemma {:induction false} Longest(variants: set<Variant>) returns (n: nat)
    ensures forall v | v in variants :: |v.text| < n
  {
    n := 0;
    var todo := variants;
    while todo != {}
      invariant todo <= variants && forall v | v in variants - todo :: |v.text| < n
      decreases todo
    {
      var v :| v in todo;
      todo := todo - {v};
      n := if |v.text| < n then n else |v.text| + 1;
    }
  }

  lemma {:induction false} ReconstructedIsDone(f: Flow, site: Site, r: Reader)
    ensures var (values, exceeded) := ValuesForExecute(f, site);
      Reconstructed(ResolutionStatus(r, BuildVariants(r, values), exceeded)) ==> IsDone((values, exceeded))
  {
    hide ValuesForExecute;
    var (values, exceeded) := ValuesForExecute(f, site);
    var variants := BuildVariants(r, values);
    if Reconstructed(ResolutionStatus(r, variants, exceeded)) {
      forall v | v in values ensures v.placeholders == {} {
        assert Variant(r.trim(v.text), v.placeholders, r.kindKnown(r.trim(v.text)), v.sources) in variants;
      }
    }
  }

  /** A statement reported as reconstructed has exactly the strings there really are as its variants, if
      and only if no binding whose text is not known can be last on a path for a name that it leads
      to. */
  method ReconstructWhole(p: Program, ghost whole: Paths.Graph, x: Execution, r: Reader, digest: Expression -> string)
      returns (variants: set<Variant>, status: Status)
    requires Completes(whole, p)
    ensures Reconstructed(status) && !ExecutionGap(p, whole, x) ==>
      forall t :: IsVariant(variants, t) <==> WholeTrims(p, whole, x, r, t)
    ensures Reconstructed(status) && ExecutionGap(p, whole, x) && KeepsText(r) ==>
      exists t :: WholeTrims(p, whole, x, r, t) && !IsVariant(variants, t)
  {
    hide FromPaths, SiteOf, Obtainable, ObtainableOnPaths, WholeObtainable, ExecutionGap, IsVariant, ResolutionStatus;
    hide ValuesForExecute, BuildVariants;
    var f := BuildFlow(p, digest);
    var site := FindSite(p, x);
    variants, status := Reconstruct(f, site, r);
    if Reconstructed(status) {
      ReconstructedIsDone(f, site, r);
      if !ExecutionGap(p, whole, x) {
        forall s ensures Obtainable(f, site, s) <==> WholeObtainable(p, whole, x, s) {
          ObtainableIsOnPaths(f, p, x, site, s);
          NoGapIsExact(p, whole, x, s);
        }
      } else if KeepsText(r) {
        ghost var n := Longest(variants);
        assert KeepsLength(r, n);
        ghost var m :| Survives(r, m, n);
        ghost var a, b := ExecutionGapIsOpen(f, p, whole, x, site, m);
        TooLong(variants, n, r.trim(a + m + b));
        assert WholeTrims(p, whole, x, r, r.trim(a + m + b));
      }
    }
  }

  lemma {:induction false} TooLong(variants: set<Variant>, n: nat, t: string)
    requires (forall v | v in variants :: |v.text| < n) && |t| >= n
    ensures !IsVariant(variants, t)
  {
  }

  // ----- an input -----

  /** SET V = 'A'; SELECT ... INTO V; EXECUTE IMMEDIATE V. */
  function SelectInto(): Program {
    var graph := Paths.Graph(
      {Paths.Arc("entry", "set"), Paths.Arc("set", "select"), Paths.Arc("select", "execute")}, "entry",
      map["set" := {"variable V"}], map["set" := "set", "select" := "select"], {});
    Program(graph, map["set" := "set", "execute" := "execute"], map["set" := [Text("A")]])
  }

  function SelectIntoWhole(): Paths.Graph {
    SelectInto().graph.(defs := map["set" := {"variable V"}, "select" := {"variable V"}])
  }

  /** What reaches a node with a single predecessor. */
  lemma {:induction false} ReachesThrough(g: Paths.Graph, m: Paths.Node, n: Paths.Node, x: Paths.Fact)
    requires Paths.WellFormed(g) && Paths.Arc(m, n) in g.arcs
    requires forall a | a in g.arcs && a.target == n :: a.source == m
    requires Paths.Reachable(g, m)
    ensures Paths.Reachable(g, n)
    ensures Paths.Reaches(g, n, x) <==>
      x in Paths.Generated(g, m) || (x.symbol !in Paths.Defines(g, m) && Paths.Reaches(g, m, x))
  {
    Paths.ExtendReachable(g, m, n);
    if Paths.Reaches(g, n, x) {
      var path :| Paths.IsPath(g, path) && path[|path| - 1] == n && Paths.Carried(g, path, x);
      var last := |path| - 1;
      assert Paths.Arc(path[last - 1], path[last]) in g.arcs;
      assert Paths.IsPath(g, path[..last]);
      assert path[..last][last - 1] == m;
    } else if x.symbol !in Paths.Defines(g, m) && Paths.Reaches(g, m, x) {
      Paths.ExtendReaches(g, m, n, {x}, x);
    } else if x in Paths.Generated(g, m) {
      Paths.ExtendReaches(g, m, n, {}, x);
    }
  }

  lemma {:induction false} NeverBack(g: Paths.Graph, path: seq<Paths.Node>)
    requires Paths.WellFormed(g) && Paths.IsPath(g, path)
    ensures path[|path| - 1] == g.entry ==> |path| == 1
  {
    if |path| > 1 {
      assert Paths.Arc(path[|path| - 2], path[|path| - 1]) in g.arcs;
    }
  }

  lemma {:induction false} AtEntry(g: Paths.Graph, x: Paths.Fact)
    requires Paths.WellFormed(g)
    ensures Paths.Reachable(g, g.entry)
    ensures x in g.initial <==> Paths.Reaches(g, g.entry, x)
  {
    var start := [g.entry];
    assert Paths.IsPath(g, start) && start[|start| - 1] == g.entry;
    assert Paths.Carried(g, start, x) <==> x in g.initial;
    if Paths.Reaches(g, g.entry, x) {
      var path :| Paths.IsPath(g, path) && path[|path| - 1] == g.entry && Paths.Carried(g, path, x);
      NeverBack(g, path);
    }
  }

  lemma {:induction false} LineReaches(g: Paths.Graph, x: Paths.Fact)
    requires g.arcs == SelectInto().graph.arcs && g.entry == "entry" && g.initial == {} && Paths.WellFormed(g)
    requires Paths.Defines(g, "entry") == {}
    ensures Paths.Reaches(g, "execute", x) <==>
      || x in Paths.Generated(g, "select")
      || (x.symbol !in Paths.Defines(g, "select") && x in Paths.Generated(g, "set"))
  {
    hide Paths.Reaches, Paths.Reachable, Paths.Generated;
    AtEntry(g, x);
    ReachesThrough(g, "entry", "set", x);
    ReachesThrough(g, "set", "select", x);
    ReachesThrough(g, "select", "execute", x);
    NothingGenerated(g, x);
  }

  lemma {:induction false} NothingGenerated(g: Paths.Graph, x: Paths.Fact)
    requires Paths.WellFormed(g) && Paths.Defines(g, "entry") == {}
    ensures x !in Paths.Generated(g, "entry")
  {
  }

  /** The definitions of V that are known where it is executed: of the analyser, and all of them. */
  lemma {:induction false} SelectIntoReaches(x: Paths.Fact)
    ensures var g, whole := SelectInto().graph, SelectIntoWhole();
      && Paths.WellFormed(g) && Paths.WellFormed(whole)
      && (Paths.Reaches(g, "execute", x) <==> x == Paths.Fact("variable V", "set"))
      && (Paths.Reaches(whole, "execute", x) <==> x == Paths.Fact("variable V", "select"))
  {
    hide Paths.Reaches;
    LineReaches(SelectInto().graph, x);
    LineReaches(SelectIntoWhole(), x);
  }

  lemma {:induction false} OneOperand(p: Program, a: Atom, at: Ref, s: string, k: nat)
    requires Paths.WellFormed(p.graph)
    ensures PathResolves(p, [a], at, s, k) <==> AtomPathResolves(p, a, at, s, k)
  {
    hide AtomPathResolves;
    assert [a][1..] == [] && s[..|s|] == s && s[|s|..] == "";
    assert PathResolves(p, [a][1..], at, s[|s|..], k);
    forall n | 0 <= n <= |s| && PathResolves(p, [a][1..], at, s[n..], k) ensures n == |s| {
    }
  }

  lemma {:induction false} SingleName(p: Program, s: string)
    requires p == SelectInto() && Paths.WellFormed(p.graph)
    requires forall ref :: LastOnPath(p, "execute", VARIABLE + "V", ref) <==> ref == "set"
    ensures PathResolvable(p, [Variable("V")], "execute", s) <==> s == "A"
  {
    hide LastOnPath;
    forall k: nat ensures PathResolves(p, [Variable("V")], "execute", s, k) <==> k > 0 && s == "A" {
      OneOperand(p, Variable("V"), "execute", s, k);
      assert LastOnPath(p, "execute", VARIABLE + Variable("V").symbol, "set");
      if k > 0 {
        OneOperand(p, Text("A"), "set", s, k - 1);
        assert PathResolves(p, p.definitions["set"], "set", s, k - 1) <==> s == "A";
      }
    }
    assert PathResolves(p, [Variable("V")], "execute", s, 1) <==> s == "A";
  }

  lemma {:induction false} SelectIntoCompletes()
    ensures Completes(SelectIntoWhole(), SelectInto())
  {
  }

  /** The names of V and their last definitions. */
  lemma {:induction false} SelectIntoLast(ref: Ref)
    ensures Paths.WellFormed(SelectInto().graph) && Paths.WellFormed(SelectIntoWhole())
    ensures Completes(SelectIntoWhole(), SelectInto())
    ensures LastOnPath(SelectInto(), "execute", VARIABLE + "V", ref) <==> ref == "set"
    ensures LastBinding(SelectInto(), SelectIntoWhole(), "execute", VARIABLE + "V", ref) <==> ref == "select"
  {
    hide Paths.Reaches, Completes;
    SelectIntoCompletes();
    assert VARIABLE + "V" == "variable V";
    SelectIntoReaches(Paths.Fact("variable V", ref));
  }

  /** The analyser reconstructs the old text 'A' for V, and only that; any text may have been selected. */
  lemma {:induction false} SelectIntoIsMissed(s: string)
    ensures var p, whole, x := SelectInto(), SelectIntoWhole(), ExecuteImmediate("execute", [Variable("V")]);
      && Completes(whole, p) && ExecutionGap(p, whole, x)
      && (ObtainableOnPaths(p, x, s) <==> s == "A") && WholeObtainable(p, whole, x, s)
  {
    hide LastBinding, LastOnPath, Completes, SelectIntoWhole;
    var p, whole, e := SelectInto(), SelectIntoWhole(), [Variable("V")];
    SelectIntoLast("select");
    forall ref ensures LastOnPath(p, "execute", VARIABLE + "V", ref) <==> ref == "set" {
      SelectIntoLast(ref);
    }
    assert e[0] in e && e[0].symbol == "V" && !IsKnown(p.definitions, "select");
    assert GapBelow(p, whole, e, "execute", 0);
    SingleName(p, s);
    NameBinds(p, whole, "V", "execute", "select", s);
    assert WholeResolves(p, whole, e[1..], "execute", "", 0);
    WholeJoins(p, whole, e, "execute", s, "");
    assert s + "" == s;
  }
}
