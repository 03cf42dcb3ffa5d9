/** Dynamic SQL reconstruction from the control-flow graph: what its paths can make of the text. */
module DynamicSqlPaths {
  import opened DynamicSql
  import Paths = ReachingDefinitions

  // ----- from the graph -----

  /** A procedure: its graph, where its statements stand in it, and the expressions of its
      definitions.  In the graph, variables and prepared statements are two families of symbols. */
  datatype Program = Program(graph: Paths.Graph, place: map<Ref, Paths.Node>, definitions: map<Ref, Expression>)

  const VARIABLE := "variable "
  const PREPARED := "prepared "

  /** ref is the last definition of the symbol along some path to the statement. */
  ghost predicate LastOnPath(p: Program, at: Ref, symbol: Paths.Symbol, ref: Ref)
    requires Paths.WellFormed(p.graph)
  {
    at in p.place && Paths.Reaches(p.graph, p.place[at], Paths.Fact(symbol, ref))
  }

  /** The look-up map holds the last definitions along the paths of the graph. */
  ghost predicate FromPaths(f: Flow, p: Program)
    requires Paths.WellFormed(p.graph)
  {
    && f.definitions == p.definitions
    && forall at, symbol, ref :: ref in RefsOf(f, at, symbol) <==> LastOnPath(p, at, VARIABLE + symbol, ref)
  }

  method Listed(refs: set<Ref>) returns (r: seq<Ref>)
    ensures forall ref :: ref in r <==> ref in refs
  {
    r := [];
    var todo := refs;
    while todo != {}
      invariant todo <= refs && forall ref :: ref in r <==> ref in refs - todo
      decreases todo
    {
      var ref :| ref in todo;
      r, todo := r + [ref], todo - {ref};
    }
  }

  function Known(incoming: map<Paths.Node, Paths.State>, p: Program, at: Ref): Paths.State {
    if at in p.place && p.place[at] in incoming then incoming[p.place[at]] else {}
  }

  lemma {:induction false} KnownIsLast(incoming: map<Paths.Node, Paths.State>, p: Program, at: Ref,
                                       symbol: Paths.Symbol, ref: Ref)
    requires Paths.WellFormed(p.graph)
    requires forall n :: n in incoming <==> Paths.Reachable(p.graph, n)
    requires forall n, x | n in incoming :: x in incoming[n] <==> Paths.Reaches(p.graph, n, x)
    ensures Paths.Fact(symbol, ref) in Known(incoming, p, at) <==> LastOnPath(p, at, symbol, ref)
  {
  }

  /** Solves the graph and collects, for every statement and variable, the definitions that reach it. */
  method BuildFlow(p: Program, digest: Expression -> string) returns (f: Flow)
    requires Paths.WellFormed(p.graph)
    ensures FromPaths(f, p)
  {
    hide LastOnPath;
    var states := Paths.Solve(p.graph);
    var keys := set at, x | at in p.place && x in Known(states, p, at) && VARIABLE <= x.symbol :: (at, x.symbol[|VARIABLE|..]);
    var variables: map<(Ref, Symbol), seq<Ref>> := map[];
    var todo := keys;
    while todo != {}
      invariant todo <= keys && variables.Keys == keys - todo
      invariant forall key, ref | key in variables ::
        ref in variables[key] <==> Paths.Fact(VARIABLE + key.1, ref) in Known(states, p, key.0)
      decreases todo
    {
      var key :| key in todo;
      var refs := set x | x in Known(states, p, key.0) && x.symbol == VARIABLE + key.1 :: x.ref;
      var listed := Listed(refs);
      variables, todo := variables[key := listed], todo - {key};
    }
    f := Flow(variables, p.definitions, digest);
    forall at, symbol, ref ensures ref in RefsOf(f, at, symbol) <==> LastOnPath(p, at, VARIABLE + symbol, ref) {
      KnownIsLast(states, p, at, VARIABLE + symbol, ref);
      if Paths.Fact(VARIABLE + symbol, ref) in Known(states, p, at) {
        var x := Paths.Fact(VARIABLE + symbol, ref);
        assert VARIABLE <= x.symbol && x.symbol[|VARIABLE|..] == symbol;
        assert (at, symbol) in keys;
      }
    }
  }

  // ----- strings obtainable along paths -----

  /** Like Resolves, with the definitions read off the paths of the graph. */
  ghost predicate PathResolves(p: Program, e: Expression, at: Ref, s: string, k: nat)
    requires Paths.WellFormed(p.graph)
    decreases k, |e|, 1
  {
    if e == [] then s == ""
    else exists n | 0 <= n <= |s| ::
      AtomPathResolves(p, e[0], at, s[..n], k) && PathResolves(p, e[1..], at, s[n..], k)
  }

  ghost predicate AtomPathResolves(p: Program, a: Atom, at: Ref, s: string, k: nat)
    requires Paths.WellFormed(p.graph)
    decreases k, 0, 0
  {
    match a
    case Text(text) => s == text
    case Opaque(_) => false
    case Variable(symbol) =>
      k > 0 && exists ref | LastOnPath(p, at, VARIABLE + symbol, ref) ::
        IsKnown(p.definitions, ref) && PathResolves(p, p.definitions[ref], ref, s, k - 1)
  }

  ghost predicate PathResolvable(p: Program, e: Expression, at: Ref, s: string)
    requires Paths.WellFormed(p.graph)
  {
    exists k: nat :: PathResolves(p, e, at, s, k)
  }

  lemma {:induction false} ResolvesOnPaths(f: Flow, p: Program, e: Expression, at: Ref, s: string, k: nat)
    requires Paths.WellFormed(p.graph) && FromPaths(f, p)
    ensures Resolves(f, e, at, s, k) <==> PathResolves(p, e, at, s, k)
    decreases k, |e|, 1
  {
    hide LastOnPath;
    if e != [] {
      forall n | 0 <= n <= |s|
        ensures AtomResolves(f, e[0], at, s[..n], k) <==> AtomPathResolves(p, e[0], at, s[..n], k)
        ensures Resolves(f, e[1..], at, s[n..], k) <==> PathResolves(p, e[1..], at, s[n..], k)
      {
        AtomResolvesOnPaths(f, p, e[0], at, s[..n], k);
        ResolvesOnPaths(f, p, e[1..], at, s[n..], k);
      }
    }
  }

  lemma {:induction false} AtomResolvesOnPaths(f: Flow, p: Program, a: Atom, at: Ref, s: string, k: nat)
    requires Paths.WellFormed(p.graph) && FromPaths(f, p)
    ensures AtomResolves(f, a, at, s, k) <==> AtomPathResolves(p, a, at, s, k)
    decreases k, 0, 0
  {
    hide LastOnPath;
    if a.Variable? && k > 0 {
      forall ref | ref in p.definitions
        ensures Resolves(f, f.definitions[ref], ref, s, k - 1) <==> PathResolves(p, p.definitions[ref], ref, s, k - 1)
      {
        ResolvesOnPaths(f, p, p.definitions[ref], ref, s, k - 1);
      }
    }
  }

  /** A statement that executes dynamic SQL: its own expression, or what was prepared under a name. */
  datatype Execution = ExecuteImmediate(at: Ref, source: Expression) | Execute(at: Ref, name: Symbol)

  /** s can be the text executed, along the paths of the graph. */
  ghost predicate ObtainableOnPaths(p: Program, x: Execution, s: string)
    requires Paths.WellFormed(p.graph)
  {
    match x
    case ExecuteImmediate(at, source) => PathResolvable(p, source, at, s)
    case Execute(at, name) =>
      exists ref :: LastOnPath(p, at, PREPARED + name, ref)
        && IsKnown(p.definitions, ref) && PathResolvable(p, p.definitions[ref], ref, s)
  }

  ghost predicate SiteOf(p: Program, x: Execution, site: Site)
    requires Paths.WellFormed(p.graph)
  {
    match x
    case ExecuteImmediate(at, source) => site == Immediate(at, source)
    case Execute(at, name) => site.Prepared? && forall ref :: ref in site.prepares <==> LastOnPath(p, at, PREPARED + name, ref)
  }

  lemma {:induction false} ObtainableIsOnPaths(f: Flow, p: Program, x: Execution, site: Site, s: string)
    requires Paths.WellFormed(p.graph) && FromPaths(f, p) && SiteOf(p, x, site)
    ensures Obtainable(f, site, s) <==> ObtainableOnPaths(p, x, s)
  {
    hide LastOnPath, Resolves, PathResolves;
    forall e, at ensures Resolvable(f, e, at, s) <==> PathResolvable(p, e, at, s) {
      forall k: nat ensures Resolves(f, e, at, s, k) <==> PathResolves(p, e, at, s, k) {
        ResolvesOnPaths(f, p, e, at, s, k);
      }
    }
  }

  /** The site to evaluate: for EXECUTE, every PREPARE of the name that reaches it. */
  method FindSite(p: Program, x: Execution) returns (site: Site)
    requires Paths.WellFormed(p.graph)
    ensures SiteOf(p, x, site)
  {
    hide LastOnPath;
    match x {
      case ExecuteImmediate(at, source) => site := Immediate(at, source);
      case Execute(at, name) =>
        var states := Paths.Solve(p.graph);
        var prepares := Listed(set y | y in Known(states, p, at) && y.symbol == PREPARED + name :: y.ref);
        forall ref ensures ref in prepares <==> LastOnPath(p, at, PREPARED + name, ref) {
          KnownIsLast(states, p, at, PREPARED + name, ref);
          assert Paths.Fact(PREPARED + name, ref).ref == ref;
        }
        site := Prepared(prepares);
    }
  }

  ghost predicate TrimsOnPaths(p: Program, x: Execution, r: Reader, t: string)
    requires Paths.WellFormed(p.graph)
  {
    exists s | ObtainableOnPaths(p, x, s) :: r.trim(s) == t
  }

  // ----- statements that must be reconstructed -----

  /** The strings of one operand. */
  ghost predicate AtomPathResolvable(p: Program, a: Atom, at: Ref, s: string)
    requires Paths.WellFormed(p.graph)
  {
    exists k: nat :: AtomPathResolves(p, a, at, s, k)
  }

  ghost predicate AreStringsOf(p: Program, e: Expression, at: Ref, strings: seq<set<string>>)
    requires Paths.WellFormed(p.graph)
  {
    && |strings| == |e|
    && forall i, s | 0 <= i < |e| :: s in strings[i] <==> AtomPathResolvable(p, e[i], at, s)
  }

  function Combined(strings: seq<set<string>>): nat {
    if strings == [] then 1 else |strings[0]| * Combined(strings[1..])
  }

  /** The operands of e have at most 10 combinations of strings. */
  ghost predicate FewCombinations(p: Program, e: Expression, at: Ref)
    requires Paths.WellFormed(p.graph)
  {
    exists strings :: AreStringsOf(p, e, at, strings) && Combined(strings) <= 10
  }

  /** Every name in e has a definition on some path, every definition on a path is known, no operand is
      opaque and no expression has more than 10 combinations, through at most k definitions in a row. */
  ghost predicate Followable(p: Program, e: Expression, at: Ref, k: nat)
    requires Paths.WellFormed(p.graph)
    decreases k, 1
  {
    e != [] && FewCombinations(p, e, at) && forall a | a in e :: AtomFollowable(p, a, at, k)
  }

  ghost predicate AtomFollowable(p: Program, a: Atom, at: Ref, k: nat)
    requires Paths.WellFormed(p.graph)
    decreases k, 0
  {
    match a
    case Text(_) => true
    case Opaque(_) => false
    case Variable(symbol) =>
      && (exists ref :: LastOnPath(p, at, VARIABLE + symbol, ref))
      && k > 0
      && forall ref | LastOnPath(p, at, VARIABLE + symbol, ref) ::
           IsKnown(p.definitions, ref) && Followable(p, p.definitions[ref], ref, k - 1)
  }

  /** Fewer than 12 definitions in a row are followed from the statement, the PREPARE not counted. */
  ghost predicate ExecutionFollowable(p: Program, x: Execution)
    requires Paths.WellFormed(p.graph)
  {
    match x
    case ExecuteImmediate(at, source) => Followable(p, source, at, 11)
    case Execute(at, name) =>
      && (exists ref :: LastOnPath(p, at, PREPARED + name, ref))
      && forall ref | LastOnPath(p, at, PREPARED + name, ref) ::
           IsKnown(p.definitions, ref) && Followable(p, p.definitions[ref], ref, 11)
  }

  lemma {:induction false} FollowableDeeper(p: Program, e: Expression, at: Ref, k: nat, m: nat)
    requires Paths.WellFormed(p.graph) && Followable(p, e, at, k) && k <= m
    ensures Followable(p, e, at, m)
    decreases k, 1
  {
    hide LastOnPath, FewCombinations;
    forall a | a in e ensures AtomFollowable(p, a, at, m) {
      AtomFollowableDeeper(p, a, at, k, m);
    }
  }

  lemma {:induction false} AtomFollowableDeeper(p: Program, a: Atom, at: Ref, k: nat, m: nat)
    requires Paths.WellFormed(p.graph) && AtomFollowable(p, a, at, k) && k <= m
    ensures AtomFollowable(p, a, at, m)
    decreases k, 0
  {
    hide LastOnPath, FewCombinations;
    if a.Variable? {
      forall ref | LastOnPath(p, at, VARIABLE + a.symbol, ref) ensures Followable(p, p.definitions[ref], ref, m - 1) {
        FollowableDeeper(p, p.definitions[ref], ref, k - 1, m - 1);
      }
    }
  }

  /** The least number of definitions in a row that a name needs. */
  lemma {:induction false} LeastDepth(p: Program, symbol: Symbol, at: Ref, k: nat) returns (least: nat)
    requires Paths.WellFormed(p.graph) && AtomFollowable(p, Variable(symbol), at, k)
    ensures 0 < least <= k && AtomFollowable(p, Variable(symbol), at, least)
    ensures !AtomFollowable(p, Variable(symbol), at, least - 1)
  {
    hide LastOnPath, FewCombinations, Followable;
    least := k;
    while least > 1 && AtomFollowable(p, Variable(symbol), at, least - 1)
      invariant 0 < least <= k && AtomFollowable(p, Variable(symbol), at, least)
    {
      least := least - 1;
    }
  }

  /** The names under evaluation need more than k definitions in a row, so that none of them is met again. */
  ghost predicate Above(p: Program, visited: Visited, k: nat)
    requires Paths.WellFormed(p.graph)
  {
    forall v | v in visited :: !AtomFollowable(p, Variable(v.1), v.0, k)
  }

  lemma {:induction false} StaysAbove(p: Program, visited: Visited, k: nat, m: nat)
    requires Paths.WellFormed(p.graph) && Above(p, visited, k) && m <= k
    ensures Above(p, visited, m)
  {
    hide AtomFollowable;
    forall v | v in visited ensures !AtomFollowable(p, Variable(v.1), v.0, m) {
      if AtomFollowable(p, Variable(v.1), v.0, m) {
        AtomFollowableDeeper(p, Variable(v.1), v.0, m, k);
      }
    }
  }

  /** What can be followed is evaluated to the end. */
  lemma {:induction false} FollowableIsDone(f: Flow, p: Program, e: Expression, at: Ref, depth: nat, visited: Visited,
                                            k: nat)
    requires Paths.WellFormed(p.graph) && FromPaths(f, p) && Followable(p, e, at, k)
    requires depth + k < 12 && Above(p, visited, k)
    ensures IsDone(EvalExpression(f, e, at, depth, visited))
    decreases k, 1, |e|
  {
    hide LastOnPath, FromPaths, AtomFollowable, Above, EvalAtoms, Dedupe, Product, Clean;
    var (alternatives, exceeded) := EvalAtoms(f, e, at, depth, visited);
    AtomsAreDone(f, p, e, at, depth, visited, k);
    AtomsAreExact(f, e, at, depth, visited);
    var strings :| AreStringsOf(p, e, at, strings) && Combined(strings) <= 10;
    CombinationsCount(f, p, e, at, alternatives, strings);
    ProductSize(alternatives);
    ProductIsExact(f, e, at, alternatives);
    ProductIsDirty(alternatives);
    DedupeIsTransparent(Product(alternatives));
  }

  lemma {:induction false} AtomsAreDone(f: Flow, p: Program, e: Expression, at: Ref, depth: nat, visited: Visited,
                                        k: nat)
    requires Paths.WellFormed(p.graph) && FromPaths(f, p) && forall a | a in e :: AtomFollowable(p, a, at, k)
    requires depth + k < 12 && Above(p, visited, k)
    ensures var (alternatives, exceeded) := EvalAtoms(f, e, at, depth, visited);
      !exceeded && forall a | a in alternatives :: Clean(a) && NoTwoAlike(a)
    decreases k, 0, |e|
  {
    hide LastOnPath, FromPaths, AtomFollowable, Above, EvalAtom, Clean;
    if e != [] {
      AtomIsDone(f, p, e[0], at, depth, visited, k);
      AtomsAreDone(f, p, e[1..], at, depth, visited, k);
    }
  }

  lemma {:induction false} AtomIsDone(f: Flow, p: Program, a: Atom, at: Ref, depth: nat, visited: Visited, k: nat)
    requires Paths.WellFormed(p.graph) && FromPaths(f, p) && AtomFollowable(p, a, at, k)
    requires depth + k < 12 && Above(p, visited, k)
    ensures IsDone(EvalAtom(f, a, at, depth, visited)) && NoTwoAlike(EvalAtom(f, a, at, depth, visited).0)
    decreases k, 0, 0
  {
    hide LastOnPath, EvalDefinitions, Dedupe, Followable;
    match a
    case Text(_) =>
    case Variable(symbol) =>
      var refs, inner := RefsOf(f, at, symbol), visited + {(at, symbol)};
      var least := LeastDepth(p, symbol, at, k);
      StaysAbove(p, visited, k, least - 1);
      assert refs != [] && (at, symbol) !in visited;
      DefinitionsAreDone(f, p, refs, depth + 1, inner, least - 1);
      var values := EvalDefinitions(f, refs, depth + 1, inner).0;
      DedupeIsTransparent(values);
      DedupeKeepsApart(values);
  }

  lemma {:induction false} DefinitionsAreDone(f: Flow, p: Program, refs: seq<Ref>, depth: nat, visited: Visited, k: nat)
    requires Paths.WellFormed(p.graph) && FromPaths(f, p) && depth + k < 12 && Above(p, visited, k)
    requires forall ref | ref in refs :: IsKnown(p.definitions, ref) && Followable(p, p.definitions[ref], ref, k)
    ensures var (values, exceeded) := EvalDefinitions(f, refs, depth, visited);
      !exceeded && Clean(values) && (refs != [] ==> values != [])
    decreases k, 2, |refs|
  {
    hide LastOnPath, EvalExpression, Followable, Above, Clean;
    if refs != [] {
      var ref := refs[0];
      assert ref in refs;
      FollowableIsDone(f, p, p.definitions[ref], ref, depth, visited, k);
      DefinitionsAreDone(f, p, refs[1..], depth, visited, k);
      var nested := EvalExpression(f, p.definitions[ref], ref, depth, visited).0;
      SourceIsTransparent(nested, ref);
      AppendKeys(WithSource(nested, ref), EvalDefinitions(f, refs[1..], depth, visited).0);
    } else {
      NothingIsClean();
    }
  }

  lemma {:induction false} NothingIsClean()
    ensures Clean([])
  {
  }

  /** Values that are all different are as many as their texts. */
  lemma {:induction false} DistinctCount(values: seq<Value>, strings: set<string>)
    requires Clean(values) && NoTwoAlike(values) && forall s :: HasText(values, s) <==> s in strings
    ensures |values| == |strings|
  {
    if values == [] {
      assert strings == {} by {
        forall s ensures s !in strings {
          assert !HasText(values, s);
        }
      }
    } else {
      var v, rest := values[0], values[1..];
      assert values == [v] + rest && v in values;
      AppendKeys([v], rest);
      forall s ensures HasText(rest, s) <==> s in strings - {v.text} {
        assert HasText([v], s) <==> s == v.text by {
          assert v in [v];
        }
      }
      assert HasText(values, v.text);
      DistinctCount(rest, strings - {v.text});
    }
  }

  lemma {:induction false} CombinationsCount(f: Flow, p: Program, e: Expression, at: Ref, alternatives: seq<seq<Value>>,
                                             strings: seq<set<string>>)
    requires Paths.WellFormed(p.graph) && FromPaths(f, p) && AtomsExact(f, e, at, alternatives)
    requires AreStringsOf(p, e, at, strings) && forall a | a in alternatives :: Clean(a) && NoTwoAlike(a)
    ensures Count(alternatives) == Combined(strings)
    decreases |e|
  {
    hide AtomResolves, AtomPathResolves, Clean, NoTwoAlike, HasText, FromPaths;
    if e != [] {
      CombinationsCount(f, p, e[1..], at, alternatives[1..], strings[1..]);
      forall s ensures HasText(alternatives[0], s) <==> s in strings[0] {
        forall k: nat ensures AtomResolves(f, e[0], at, s, k) <==> AtomPathResolves(p, e[0], at, s, k) {
          AtomResolvesOnPaths(f, p, e[0], at, s, k);
        }
      }
      assert alternatives[0] in alternatives;
      DistinctCount(alternatives[0], strings[0]);
    }
  }

  /** With more than 10 combinations the budget is exceeded. */
  lemma {:induction false} ManyCombinationsExceed(f: Flow, p: Program, e: Expression, at: Ref, depth: nat,
                                                  visited: Visited, k: nat,
                               strings: seq<set<string>>)
    requires Paths.WellFormed(p.graph) && FromPaths(f, p) && e != [] && forall a | a in e :: AtomFollowable(p, a, at, k)
    requires depth + k < 12 && Above(p, visited, k)
    requires AreStringsOf(p, e, at, strings) && Combined(strings) > 10
    ensures EvalExpression(f, e, at, depth, visited).1
  {
    hide LastOnPath, FromPaths, AtomFollowable, Above, EvalAtoms, Dedupe, Product, Clean;
    var (alternatives, exceeded) := EvalAtoms(f, e, at, depth, visited);
    AtomsAreDone(f, p, e, at, depth, visited, k);
    AtomsAreExact(f, e, at, depth, visited);
    CombinationsCount(f, p, e, at, alternatives, strings);
    ProductSize(alternatives);
  }

  /** Behind 12 definitions in a row everything is a placeholder. */
  lemma {:induction false} DeepIsPlaceholder(f: Flow, e: Expression, at: Ref, depth: nat, visited: Visited)
    requires depth >= 12
    ensures EvalExpression(f, e, at, depth, visited) == ([Placeholder(f.digest(e))], false)
  {
  }

  lemma {:induction false} PreparesAreDone(f: Flow, p: Program, prepares: seq<Ref>)
    requires Paths.WellFormed(p.graph) && FromPaths(f, p)
    requires forall ref | ref in prepares :: IsKnown(p.definitions, ref) && Followable(p, p.definitions[ref], ref, 11)
    ensures var (values, exceeded) := EvalPrepares(f, prepares);
      !exceeded && Clean(values) && (prepares != [] ==> values != [])
  {
    hide EvalExpression, Followable, Clean, LastOnPath;
    if prepares != [] {
      var ref := prepares[0];
      assert ref in prepares;
      FollowableIsDone(f, p, p.definitions[ref], ref, 0, {}, 11);
      PreparesAreDone(f, p, prepares[1..]);
      AppendKeys(EvalExpression(f, p.definitions[ref], ref, 0, {}).0, EvalPrepares(f, prepares[1..]).0);
    } else {
      NothingIsClean();
    }
  }

  /** A statement whose names can all be followed is evaluated to the end. */
  lemma {:induction false} ExecutionIsDone(f: Flow, p: Program, x: Execution, site: Site)
    requires Paths.WellFormed(p.graph) && FromPaths(f, p) && SiteOf(p, x, site) && ExecutionFollowable(p, x)
    ensures IsDone(ValuesForExecute(f, site))
  {
    hide EvalExpression, Followable, LastOnPath, FromPaths, Dedupe, Clean;
    match x
    case ExecuteImmediate(at, source) => FollowableIsDone(f, p, source, at, 0, {}, 11);
    case Execute(at, name) =>
      PreparesAreDone(f, p, site.prepares);
      DedupeIsTransparent(EvalPrepares(f, site.prepares).0);
  }

  /** From the graph to the verdict: a statement reported as reconstructed has exactly the strings
      obtainable along the paths of the graph, trimmed, as its variants; and a statement whose names can all
      be followed is reported as reconstructed exactly if every one of them is of a known kind.  The graph of the analyser knows
      assignments, declaration defaults and PREPARE only; UntrackedBindings is about all the others. */
  method ReconstructOnPaths(p: Program, x: Execution, r: Reader, digest: Expression -> string)
      returns (variants: set<Variant>, status: Status)
    requires Paths.WellFormed(p.graph)
    ensures Reconstructed(status) ==> forall t :: IsVariant(variants, t) <==> TrimsOnPaths(p, x, r, t)
    ensures ExecutionFollowable(p, x) ==>
      (Reconstructed(status) <==> forall s | ObtainableOnPaths(p, x, s) :: r.kindKnown(r.trim(s)))
  {
    hide FromPaths, SiteOf, Obtainable, ObtainableOnPaths, IsVariant, ValuesForExecute, ExecutionFollowable, Clean;
    var f := BuildFlow(p, digest);
    var site := FindSite(p, x);
    variants, status := Reconstruct(f, site, r);
    forall s ensures Obtainable(f, site, s) <==> ObtainableOnPaths(p, x, s) {
      ObtainableIsOnPaths(f, p, x, site, s);
    }
    if ExecutionFollowable(p, x) {
      ExecutionIsDone(f, p, x, site);
      DoneIsReconstructed(f, site, r);
    }
  }
}
