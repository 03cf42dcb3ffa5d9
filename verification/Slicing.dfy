/** The backward slice of a behaviour: a worklist over uses of symbols that follows reaching
    definitions, and the label that says whether the slice explains every symbol it meets. */
module Slicing {
  import opened Basics
  import Flow = ReachingDefinitions

  type Node = string
  type Symbol = string
  type Id = string

  /** A symbol read at a node. */
  datatype Use = Use(node: Node, symbol: Symbol)

  datatype Summary = Summary(id: Id, complete: bool)

  datatype Binding = Binding(id: Id, summary: Option<Id>, target: Symbol, complete: bool)

  /** What the slicer looks up: symbols used by a node, definitions reaching a use, parameters,
      declaration defaults, symbols undeclared in scope, query summaries and bindings. */
  datatype Facts = Facts(
    uses: map<Node, seq<Symbol>>,
    reaching: map<Use, seq<Node>>,
    parameters: set<Symbol>,
    defaults: map<Symbol, Node>,
    undeclared: set<Use>,
    summaries: map<Node, Summary>,
    bindings: map<Node, seq<Binding>>)

  /** What a slice is about: the nodes of its effects, the arms that control it (the last is its
      own), the arms whose condition holds a subquery, and the labels of its bundle and predicate. */
  datatype Bundle = Bundle(
    seeds: seq<Node>,
    controls: seq<Node>,
    subqueries: set<Node>,
    partial: bool,
    predicatePartial: bool,
    contradictory: bool)

  /** An entry of one of the sets that a slice collects. */
  datatype Entry =
    | LocalNode(node: Node)
    | ParameterSource(symbol: Symbol)
    | DefaultRef(node: Node)
    | SummaryRef(id: Id)
    | BindingRef(id: Id)
    | Dependency(symbol: Symbol, definition: Node, user: Node)
    | UnresolvedSymbol(symbol: Symbol)
    | Undeclared(use: Use)
    | NoDefinition(use: Use)
    | SummaryPartial(id: Id, symbol: Symbol, node: Node)
    | BindingPartial(id: Id, symbol: Symbol, node: Node)
    | NegatedArmSubquery(node: Node)
    | ArmSubquery(node: Node)
    | BundlePartial

  datatype Slice = Slice(visited: set<Use>, entries: set<Entry>, complete: bool)

  // ----- look-ups -----

  function UsesAt(f: Facts, n: Node): seq<Symbol> {
    if n in f.uses then f.uses[n] else []
  }

  function Definitions(f: Facts, u: Use): seq<Node> {
    if u in f.reaching then f.reaching[u] else []
  }

  function BindingsAt(f: Facts, n: Node): seq<Binding> {
    if n in f.bindings then f.bindings[n] else []
  }

  /** The declaration whose default explains a use with no reaching definition. */
  function DefaultOf(f: Facts, u: Use): Option<Node> {
    if Definitions(f, u) == [] && u.symbol !in f.parameters && u.symbol in f.defaults
    then Some(f.defaults[u.symbol]) else None
  }

  // ----- where the definitions come from -----

  /** Initial definitions that stand for parameters. */
  predicate IsParameter(r: Node) {
    "parameter:" <= r
  }

  /** d is the last definition of the symbol along some path to the use. */
  ghost predicate DefinedBy(g: Flow.Graph, place: map<Node, Flow.Node>, u: Use, d: Node)
    requires Flow.WellFormed(g)
  {
    u.node in place && !IsParameter(d) && Flow.Reaches(g, place[u.node], Flow.Fact(u.symbol, d))
  }

  /** The definitions that reach a use, from the solved states. */
  method DefinitionsReaching(ghost g: Flow.Graph, incoming: map<Flow.Node, Flow.State>, place: map<Node, Flow.Node>, u: Use)
      returns (ds: seq<Node>)
    requires Flow.WellFormed(g)
    requires forall n :: n in incoming <==> Flow.Reachable(g, n)
    requires forall n, x | n in incoming :: x in incoming[n] <==> Flow.Reaches(g, n, x)
    ensures forall d :: d in ds <==> DefinedBy(g, place, u, d)
  {
    ds := [];
    if u.node in place && place[u.node] in incoming {
      var refs := set x | x in incoming[place[u.node]] && x.symbol == u.symbol && !IsParameter(x.ref) :: x.ref;
      var todo := refs;
      while todo != {}
        invariant todo <= refs && forall d :: d in ds <==> d in refs - todo
        decreases todo
      {
        var d :| d in todo;
        ds, todo := ds + [d], todo - {d};
      }
      forall d ensures d in ds <==> DefinedBy(g, place, u, d) {
        assert d in refs <==> !IsParameter(d) && Flow.Fact(u.symbol, d) in incoming[place[u.node]];
      }
    }
  }

  /** Solves the graph once and looks up every use. */
  method ReachingMap(g: Flow.Graph, place: map<Node, Flow.Node>, uses: set<Use>) returns (reaching: map<Use, seq<Node>>)
    requires Flow.WellFormed(g)
    ensures reaching.Keys == uses
    ensures forall u, d | u in uses :: d in reaching[u] <==> DefinedBy(g, place, u, d)
  {
    hide DefinedBy;
    var incoming := Flow.Solve(g);
    reaching := map[];
    var todo := uses;
    while todo != {}
      invariant todo <= uses && reaching.Keys == uses - todo
      invariant forall u, d | u in reaching :: d in reaching[u] <==> DefinedBy(g, place, u, d)
      decreases todo
    {
      var u :| u in todo;
      var ds := DefinitionsReaching(g, incoming, place, u);
      reaching, todo := reaching[u := ds], todo - {u};
    }
  }

  // ----- the slice as a set -----

  /** v is one of the other symbols used by a definition, or a default, that explains u. */
  ghost predicate Follows(f: Facts, u: Use, v: Use) {
    v.symbol in UsesAt(f, v.node) &&
      ((v.node in Definitions(f, u) && v.symbol != u.symbol) || DefaultOf(f, u) == Some(v.node))
  }

  ghost predicate IsRoot(f: Facts, b: Bundle, u: Use) {
    u.symbol in UsesAt(f, u.node) && (u.node in b.seeds || u.node in b.controls)
  }

  ghost predicate IsChain(f: Facts, b: Bundle, c: seq<Use>) {
    && c != [] && IsRoot(f, b, c[0])
    && forall i :: 0 < i < |c| ==> Follows(f, c[i - 1], c[i])
  }

  /** u is in the least set that holds the uses of the bundle and is closed under Follows. */
  ghost predicate InSlice(f: Facts, b: Bundle, u: Use) {
    exists c :: IsChain(f, b, c) && c[|c| - 1] == u
  }

  lemma {:induction false} RootInSlice(f: Facts, b: Bundle, u: Use)
    requires IsRoot(f, b, u)
    ensures InSlice(f, b, u)
  {
    assert IsChain(f, b, [u]) && [u][0] == u;
  }

  lemma {:induction false} FollowInSlice(f: Facts, b: Bundle, u: Use, v: Use)
    requires InSlice(f, b, u) && Follows(f, u, v)
    ensures InSlice(f, b, v)
  {
    var c :| IsChain(f, b, c) && c[|c| - 1] == u;
    var longer := c + [v];
    forall i | 0 < i < |longer| ensures Follows(f, longer[i - 1], longer[i]) {
      assert longer[i - 1] == c[i - 1];
      assert i < |c| ==> longer[i] == c[i];
    }
    assert IsChain(f, b, longer) && longer[|longer| - 1] == v;
  }

  ghost predicate HoldsRoots(f: Facts, b: Bundle, s: set<Use>) {
    forall u :: IsRoot(f, b, u) ==> u in s
  }

  ghost predicate Closed(f: Facts, s: set<Use>) {
    forall u, v :: u in s && Follows(f, u, v) ==> v in s
  }

  /** Every set that holds the roots and is closed holds the slice. */
  lemma {:induction false} SliceIsLeast(f: Facts, b: Bundle, s: set<Use>, u: Use)
    requires HoldsRoots(f, b, s) && Closed(f, s) && InSlice(f, b, u)
    ensures u in s
  {
    var c :| IsChain(f, b, c) && c[|c| - 1] == u;
    ChainStaysIn(f, b, s, c);
  }

  lemma {:induction false} ChainStaysIn(f: Facts, b: Bundle, s: set<Use>, c: seq<Use>)
    requires HoldsRoots(f, b, s) && Closed(f, s) && IsChain(f, b, c)
    ensures c[|c| - 1] in s
    decreases |c|
  {
    if |c| > 1 {
      var shorter := c[..|c| - 1];
      assert IsChain(f, b, shorter);
      ChainStaysIn(f, b, s, shorter);
      assert Follows(f, c[|c| - 2], c[|c| - 1]);
    }
  }

  // ----- what a use contributes -----

  /** What a binding of node n contributes to the explanation of symbol s. */
  predicate OfBinding(n: Node, s: Symbol, b: Binding, e: Entry) {
    || e == BindingRef(b.id)
    || (b.summary != None && e == SummaryRef(b.summary.value))
    || (!b.complete && (e == UnresolvedSymbol(s) || e == BindingPartial(b.id, s, n)))
  }

  predicate OfBindings(f: Facts, n: Node, s: Symbol, e: Entry) {
    exists b | b in BindingsAt(f, n) :: OfBinding(n, s, b, e)
  }

  predicate OfSummary(f: Facts, n: Node, s: Symbol, e: Entry) {
    n in f.summaries &&
      (|| e == SummaryRef(f.summaries[n].id)
       || (!f.summaries[n].complete && (e == UnresolvedSymbol(s) || e == SummaryPartial(f.summaries[n].id, s, n))))
  }

  predicate OfDefinition(f: Facts, u: Use, n: Node, e: Entry) {
    || e == LocalNode(n) || e == Dependency(u.symbol, n, u.node)
    || OfSummary(f, n, u.symbol, e) || OfBindings(f, n, u.symbol, e)
  }

  /** No definition reaches u, it is not a parameter and has no declaration default. */
  predicate Unexplained(f: Facts, u: Use) {
    Definitions(f, u) == [] && u.symbol !in f.parameters && u.symbol !in f.defaults
  }

  predicate OfUse(f: Facts, u: Use, e: Entry) {
    || (u in f.undeclared && (e == UnresolvedSymbol(u.symbol) || e == Undeclared(u)))
    || (exists n | n in Definitions(f, u) :: OfDefinition(f, u, n, e))
    || (Definitions(f, u) == [] && u.symbol in f.parameters && e == ParameterSource(u.symbol))
    || (DefaultOf(f, u) != None && (e == DefaultRef(DefaultOf(f, u).value) || e == LocalNode(DefaultOf(f, u).value)))
    || (Unexplained(f, u) && (e == UnresolvedSymbol(u.symbol) || e == NoDefinition(u)))
  }

  /** The bindings of every node in the slice count, whatever symbol led there. */
  predicate OfLocalNode(f: Facts, n: Node, e: Entry) {
    exists b | b in BindingsAt(f, n) :: OfBinding(n, b.target, b, e)
  }

  /** The entries present before the worklist runs. */
  predicate OfBundle(b: Bundle, e: Entry) {
    match e
    case LocalNode(n) => n in b.seeds || n in b.controls
    case NegatedArmSubquery(n) => n in b.subqueries && b.controls != [] && n in b.controls[..|b.controls| - 1]
    case ArmSubquery(n) => n in b.subqueries && n in b.controls && n !in b.controls[..|b.controls| - 1]
    case _ => false
  }

  predicate ShowsGap(e: Entry) {
    !(e.LocalNode? || e.ParameterSource? || e.DefaultRef? || e.SummaryRef? || e.BindingRef? || e.Dependency?)
  }

  // ----- the methods -----

  /** The entries for the bindings of n; symbol is what led to n, or None to use each
      binding's own target. */
  method BindingEntries(f: Facts, n: Node, symbol: Option<Symbol>) returns (es: set<Entry>)
    ensures forall e :: e in es <==>
      exists b | b in BindingsAt(f, n) :: OfBinding(n, if symbol != None then symbol.value else b.target, b, e)
  {
    es := {};
    var bs := BindingsAt(f, n);
    for i := 0 to |bs|
      invariant forall e :: e in es <==>
        exists b | b in bs[..i] :: OfBinding(n, if symbol != None then symbol.value else b.target, b, e)
    {
      var s := if symbol != None then symbol.value else bs[i].target;
      assert bs[..i + 1] == bs[..i] + [bs[i]];
      es := es + {BindingRef(bs[i].id)};
      if bs[i].summary != None {
        es := es + {SummaryRef(bs[i].summary.value)};
      }
      if !bs[i].complete {
        es := es + {UnresolvedSymbol(s), BindingPartial(bs[i].id, s, n)};
      }
    }
    assert bs[..|bs|] == bs;
  }

  /** The uses of node n, except of one symbol, in the order of its symbols. */
  method UsesOf(f: Facts, n: Node, except: Option<Symbol>) returns (us: seq<Use>)
    ensures forall u :: u in us <==> u.node == n && u.symbol in UsesAt(f, n) && Some(u.symbol) != except
  {
    us := [];
    var ss := UsesAt(f, n);
    for i := 0 to |ss|
      invariant forall u :: u in us <==> u.node == n && u.symbol in ss[..i] && Some(u.symbol) != except
    {
      assert ss[..i + 1] == ss[..i] + [ss[i]];
      if Some(ss[i]) != except {
        us := us + [Use(n, ss[i])];
      }
    }
    assert ss[..|ss|] == ss;
  }

  method VisitDefinition(f: Facts, u: Use, n: Node) returns (es: set<Entry>, next: seq<Use>)
    ensures forall e :: e in es <==> OfDefinition(f, u, n, e)
    ensures forall v :: v in next <==> v.node == n && v.symbol in UsesAt(f, n) && v.symbol != u.symbol
  {
    es := {LocalNode(n), Dependency(u.symbol, n, u.node)};
    if n in f.summaries {
      es := es + {SummaryRef(f.summaries[n].id)};
      if !f.summaries[n].complete {
        es := es + {UnresolvedSymbol(u.symbol), SummaryPartial(f.summaries[n].id, u.symbol, n)};
      }
    }
    var bound := BindingEntries(f, n, Some(u.symbol));
    es := es + bound;
    next := UsesOf(f, n, Some(u.symbol));
  }

  method VisitDefinitions(f: Facts, u: Use) returns (es: set<Entry>, next: seq<Use>)
    ensures forall e :: e in es <==> exists n | n in Definitions(f, u) :: OfDefinition(f, u, n, e)
    ensures forall v :: v in next <==> v.node in Definitions(f, u) && v.symbol in UsesAt(f, v.node) && v.symbol != u.symbol
  {
    hide OfDefinition;
    es, next := {}, [];
    var ds := Definitions(f, u);
    for i := 0 to |ds|
      invariant forall e :: e in es <==> exists n | n in ds[..i] :: OfDefinition(f, u, n, e)
      invariant forall v :: v in next <==> v.node in ds[..i] && v.symbol in UsesAt(f, v.node) && v.symbol != u.symbol
    {
      assert ds[..i + 1] == ds[..i] + [ds[i]];
      var more, after := VisitDefinition(f, u, ds[i]);
      es := es + more;
      next := next + after;
    }
    assert ds[..|ds|] == ds;
  }

  method Visit(f: Facts, u: Use) returns (es: set<Entry>, next: seq<Use>)
    ensures forall e :: e in es <==> OfUse(f, u, e)
    ensures forall v :: v in next <==> Follows(f, u, v)
  {
    hide OfDefinition;
    es, next := {}, [];
    if u in f.undeclared {
      es := {UnresolvedSymbol(u.symbol), Undeclared(u)};
    }
    if Definitions(f, u) == [] {
      if u.symbol in f.parameters {
        es := es + {ParameterSource(u.symbol)};
      } else if u.symbol in f.defaults {
        var n := f.defaults[u.symbol];
        es := es + {DefaultRef(n), LocalNode(n)};
        next := UsesOf(f, n, None);
      } else {
        es := es + {UnresolvedSymbol(u.symbol), NoDefinition(u)};
      }
    } else {
      var more;
      more, next := VisitDefinitions(f, u);
      es := es + more;
    }
  }

  method Roots(f: Facts, b: Bundle) returns (queue: seq<Use>)
    ensures forall u :: u in queue <==> IsRoot(f, b, u)
  {
    queue := [];
    var ns := b.seeds + b.controls;
    for i := 0 to |ns|
      invariant forall u :: u in queue <==> u.node in ns[..i] && u.symbol in UsesAt(f, u.node)
    {
      assert ns[..i + 1] == ns[..i] + [ns[i]];
      var us := UsesOf(f, ns[i], None);
      queue := queue + us;
    }
    assert ns[..|ns|] == ns;
  }

  method BundleEntries(b: Bundle) returns (es: set<Entry>)
    ensures forall e :: e in es <==> OfBundle(b, e)
  {
    es := set n | n in b.seeds + b.controls :: LocalNode(n);
    var own := if b.controls == [] then [] else b.controls[..|b.controls| - 1];
    for i := 0 to |b.controls|
      invariant forall e :: e in es <==>
        match e
        case LocalNode(n) => n in b.seeds || n in b.controls
        case NegatedArmSubquery(n) => n in b.subqueries && n in b.controls[..i] && n in own
        case ArmSubquery(n) => n in b.subqueries && n in b.controls[..i] && n !in own
        case _ => false
    {
      var n := b.controls[i];
      assert b.controls[..i + 1] == b.controls[..i] + [n];
      if n in b.subqueries {
        es := es + {if n in own then NegatedArmSubquery(n) else ArmSubquery(n)};
      }
    }
    assert b.controls[..|b.controls|] == b.controls;
  }

  // ----- the worklist -----

  ghost function Universe(f: Facts): set<Use> {
    set n, s | n in f.uses && s in f.uses[n] :: Use(n, s)
  }

  ghost predicate OfUses(f: Facts, us: set<Use>, e: Entry) {
    exists u | u in us :: OfUse(f, u, e)
  }

  /** Everything met so far is in the slice, and whatever it leads to is met or waiting. */
  ghost predicate Explored(f: Facts, b: Bundle, visited: set<Use>, queue: seq<Use>) {
    && (forall u :: u in visited || u in queue ==> InSlice(f, b, u))
    && (forall u :: IsRoot(f, b, u) ==> u in visited || u in queue)
    && (forall u, v :: u in visited && Follows(f, u, v) ==> v in visited || v in queue)
  }

  lemma {:induction false} ExploreOne(f: Facts, b: Bundle, visited: set<Use>, u: Use, rest: seq<Use>, next: seq<Use>)
    requires Explored(f, b, visited, [u] + rest) && forall v :: v in next <==> Follows(f, u, v)
    ensures Explored(f, b, visited + {u}, rest + next)
  {
    hide Follows, IsRoot, InSlice;
    assert u in [u] + rest;
    forall v | v in next ensures InSlice(f, b, v) {
      FollowInSlice(f, b, u, v);
    }
    forall v | v in rest ensures v in [u] + rest {
    }
  }

  lemma {:induction false} SkipOne(f: Facts, b: Bundle, visited: set<Use>, u: Use, rest: seq<Use>)
    requires Explored(f, b, visited, [u] + rest) && u in visited
    ensures Explored(f, b, visited, rest)
  {
    hide Follows, IsRoot, InSlice;
    forall v | v in rest ensures v in [u] + rest {
    }
  }

  lemma {:induction false} InUniverse(f: Facts, b: Bundle, u: Use)
    requires InSlice(f, b, u)
    ensures u in Universe(f)
  {
    var c :| IsChain(f, b, c) && c[|c| - 1] == u;
    if |c| > 1 {
      assert Follows(f, c[|c| - 2], c[|c| - 1]);
    }
  }

  lemma {:induction false} Shrinks(f: Facts, visited: set<Use>, u: Use)
    requires u in Universe(f) && u !in visited
    ensures |Universe(f) - (visited + {u})| < |Universe(f) - visited|
  {
    assert Universe(f) - visited == (Universe(f) - (visited + {u})) + {u};
  }

  method FollowUses(f: Facts, b: Bundle) returns (visited: set<Use>, es: set<Entry>)
    ensures forall u :: u in visited <==> InSlice(f, b, u)
    ensures forall e :: e in es <==> OfBundle(b, e) || OfUses(f, visited, e)
  {
    hide OfUse, OfBundle, Follows, IsRoot, InSlice;
    var queue := Roots(f, b);
    es := BundleEntries(b);
    visited := {};
    forall u | u in queue ensures InSlice(f, b, u) {
      RootInSlice(f, b, u);
    }
    while queue != []
      invariant Explored(f, b, visited, queue)
      invariant forall e :: e in es <==> OfBundle(b, e) || OfUses(f, visited, e)
      decreases |Universe(f) - visited|, |queue|
    {
      var u, rest := queue[0], queue[1..];
      assert queue == [u] + rest;
      if u in visited {
        SkipOne(f, b, visited, u, rest);
        queue := rest;
      } else {
        InUniverse(f, b, u);
        Shrinks(f, visited, u);
        var more, next := Visit(f, u);
        ExploreOne(f, b, visited, u, rest, next);
        es, visited, queue := es + more, visited + {u}, rest + next;
      }
    }
    forall u | InSlice(f, b, u) ensures u in visited {
      SliceIsLeast(f, b, visited, u);
    }
  }

  // ----- the slice of a bundle -----

  /** n is a node of the bundle, or a definition or default that explains a use in the slice. */
  ghost predicate IsLocal(f: Facts, b: Bundle, n: Node) {
    n in b.seeds || n in b.controls || exists u :: InSlice(f, b, u) && (n in Definitions(f, u) || DefaultOf(f, u) == Some(n))
  }

  ghost predicate OfSlice(f: Facts, b: Bundle, e: Entry) {
    || OfBundle(b, e)
    || (exists u :: InSlice(f, b, u) && OfUse(f, u, e))
    || (exists n :: IsLocal(f, b, n) && OfLocalNode(f, n, e))
    || (b.partial && e == BundlePartial)
  }

  lemma {:induction false} LocalNodesAreEntries(f: Facts, b: Bundle, n: Node)
    ensures IsLocal(f, b, n) <==> OfBundle(b, LocalNode(n)) || exists u :: InSlice(f, b, u) && OfUse(f, u, LocalNode(n))
  {
    hide InSlice;
    forall u ensures OfUse(f, u, LocalNode(n)) <==> n in Definitions(f, u) || DefaultOf(f, u) == Some(n) {
      if n in Definitions(f, u) {
        assert OfDefinition(f, u, n, LocalNode(n));
      }
    }
  }

  /** The bindings of a set of nodes. */
  method LocalBindings(f: Facts, nodes: set<Node>) returns (es: set<Entry>)
    ensures forall e :: e in es <==> exists n | n in nodes :: OfLocalNode(f, n, e)
  {
    es := {};
    var todo := nodes;
    while todo != {}
      invariant todo <= nodes
      invariant forall e :: e in es <==> exists n | n in nodes - todo :: OfLocalNode(f, n, e)
      decreases todo
    {
      var n :| n in todo;
      var more := BindingEntries(f, n, None);
      assert forall e :: e in more <==> OfLocalNode(f, n, e);
      assert nodes - (todo - {n}) == (nodes - todo) + {n};
      es, todo := es + more, todo - {n};
    }
    assert nodes - {} == nodes;
  }

  /** Visits exactly the slice, collects exactly what its uses and nodes contribute, and is
      labelled complete iff nothing collected shows a gap and bundle and predicate are sound. */
  method SliceBundle(f: Facts, b: Bundle) returns (r: Slice)
    ensures forall u :: u in r.visited <==> InSlice(f, b, u)
    ensures forall e :: e in r.entries <==> OfSlice(f, b, e)
    ensures r.complete <==> (forall e | e in r.entries :: !ShowsGap(e)) && !b.predicatePartial && !b.contradictory
  {
    hide OfUse, OfBundle, InSlice, OfLocalNode;
    var visited, es := FollowUses(f, b);
    var nodes := set e | e in es && e.LocalNode? :: e.node;
    forall n ensures n in nodes <==> IsLocal(f, b, n) {
      LocalNodesAreEntries(f, b, n);
      assert n in nodes <==> LocalNode(n) in es;
    }
    var bound := LocalBindings(f, nodes);
    es := es + bound;
    if b.partial {
      es := es + {BundlePartial};
    }
    var gap := exists e | e in es :: ShowsGap(e);
    r := Slice(visited, es, !(gap || b.partial || b.predicatePartial || b.contradictory));
    assert ShowsGap(BundlePartial);
  }

  // ----- what the label means -----

  predicate BindingsComplete(f: Facts, n: Node) {
    forall b | b in BindingsAt(f, n) :: b.complete
  }

  /** Everything that defines u is fully summarised, and something does. */
  predicate Resolved(f: Facts, u: Use) {
    && u !in f.undeclared
    && (Definitions(f, u) == [] ==> u.symbol in f.parameters || u.symbol in f.defaults)
    && forall n | n in Definitions(f, u) :: (n in f.summaries ==> f.summaries[n].complete) && BindingsComplete(f, n)
  }

  lemma {:induction false} UnresolvedShows(f: Facts, u: Use)
    ensures (exists e :: OfUse(f, u, e) && ShowsGap(e)) <==> !Resolved(f, u)
  {
    if !Resolved(f, u) {
      var e := UnresolvedSymbol(u.symbol);
      if u !in f.undeclared && Definitions(f, u) != [] {
        var n :| n in Definitions(f, u) && ((n in f.summaries && !f.summaries[n].complete) || !BindingsComplete(f, n));
        assert OfDefinition(f, u, n, e);
      }
      assert OfUse(f, u, e) && ShowsGap(e);
    }
  }

  lemma {:induction false} UnboundShows(f: Facts, n: Node)
    ensures (exists e :: OfLocalNode(f, n, e) && ShowsGap(e)) <==> !BindingsComplete(f, n)
  {
    if !BindingsComplete(f, n) {
      var b :| b in BindingsAt(f, n) && !b.complete;
      assert OfBinding(n, b.target, b, UnresolvedSymbol(b.target));
      assert OfLocalNode(f, n, UnresolvedSymbol(b.target)) && ShowsGap(UnresolvedSymbol(b.target));
    }
  }

  lemma {:induction false} SubqueryShows(b: Bundle)
    ensures (exists e :: OfBundle(b, e) && ShowsGap(e)) <==> (exists n | n in b.controls :: n in b.subqueries)
  {
    if n :| n in b.controls && n in b.subqueries {
      var e := if n in b.controls[..|b.controls| - 1] then NegatedArmSubquery(n) else ArmSubquery(n);
      assert OfBundle(b, e) && ShowsGap(e);
    }
  }

  lemma {:induction false} PartialShows()
    ensures ShowsGap(BundlePartial)
  {
  }

  /** A slice may be called complete exactly when every use in it ends in a parameter, a default
      or fully summarised definitions, every binding at one of its nodes is complete, no
      controlling condition holds a subquery, and bundle and predicate are sound. */
  lemma {:induction false} CompleteMeans(f: Facts, b: Bundle, complete: bool)
    requires complete <==> (forall e :: OfSlice(f, b, e) ==> !ShowsGap(e)) && !b.predicatePartial && !b.contradictory
    ensures complete <==>
      && (forall u :: InSlice(f, b, u) ==> Resolved(f, u))
      && (forall n :: IsLocal(f, b, n) ==> BindingsComplete(f, n))
      && (forall n | n in b.controls :: n !in b.subqueries)
      && !b.partial && !b.predicatePartial && !b.contradictory
  {
    hide InSlice, IsLocal, OfUse, OfBundle, OfLocalNode, Resolved, BindingsComplete, ShowsGap;
    SubqueryShows(b);
    forall u ensures (exists e :: OfUse(f, u, e) && ShowsGap(e)) <==> !Resolved(f, u) {
      UnresolvedShows(f, u);
    }
    forall n ensures (exists e :: OfLocalNode(f, n, e) && ShowsGap(e)) <==> !BindingsComplete(f, n) {
      UnboundShows(f, n);
    }
    PartialShows();
  }

  // ----- definitions that read what they define -----

  /** v is a symbol used by a definition, or a default, that explains u. */
  ghost predicate Influences(f: Facts, v: Use, u: Use) {
    v.symbol in UsesAt(f, v.node) && (v.node in Definitions(f, u) || DefaultOf(f, u) == Some(v.node))
  }

  ghost predicate IsInfluence(f: Facts, b: Bundle, c: seq<Use>) {
    && c != [] && IsRoot(f, b, c[0])
    && forall i :: 0 < i < |c| ==> Influences(f, c[i], c[i - 1])
  }

  /** u influences the bundle through any chain of definitions. */
  ghost predicate Influential(f: Facts, b: Bundle, u: Use) {
    exists c :: IsInfluence(f, b, c) && c[|c| - 1] == u
  }

  /** Wherever the slice meets a definition that reads the symbol it defines, that read is in
      the slice on another account. */
  ghost predicate SelfReadsCovered(f: Facts, b: Bundle) {
    forall u, n :: InSlice(f, b, u) && n in Definitions(f, u) && u.symbol in UsesAt(f, n) ==> InSlice(f, b, Use(n, u.symbol))
  }

  /** The slice holds every influence on the bundle exactly when self reads are covered. */
  lemma {:induction false} SliceHoldsAllInfluences(f: Facts, b: Bundle)
    ensures (forall u :: InSlice(f, b, u) ==> Influential(f, b, u))
    ensures (forall u :: Influential(f, b, u) ==> InSlice(f, b, u)) <==> SelfReadsCovered(f, b)
  {
    hide InSlice, Influential, IsChain, IsInfluence;
    forall u | InSlice(f, b, u) ensures Influential(f, b, u) {
      SliceIsInfluential(f, b, u);
    }
    if SelfReadsCovered(f, b) {
      forall u | Influential(f, b, u) ensures InSlice(f, b, u) {
        CoveredInfluence(f, b, u);
      }
    } else {
      var u, n :| InSlice(f, b, u) && n in Definitions(f, u) && u.symbol in UsesAt(f, n) && !InSlice(f, b, Use(n, u.symbol));
      SliceIsInfluential(f, b, u);
      ExtendInfluence(f, b, u, Use(n, u.symbol));
    }
  }

  /** No definition reads the symbol for which it is looked up. */
  ghost predicate NoSelfReads(f: Facts) {
    forall u, n | n in Definitions(f, u) :: u.symbol !in UsesAt(f, n)
  }

  /** When no reaching definition reads the symbol that it defines, the slice holds exactly the
      influences on the bundle. */
  lemma {:induction false} SliceIsInfluences(f: Facts, b: Bundle)
    requires NoSelfReads(f)
    ensures forall u :: InSlice(f, b, u) <==> Influential(f, b, u)
  {
    hide InSlice, Influential;
    SliceHoldsAllInfluences(f, b);
  }

  lemma {:induction false} SliceIsInfluential(f: Facts, b: Bundle, u: Use)
    requires InSlice(f, b, u)
    ensures Influential(f, b, u)
  {
    var c :| IsChain(f, b, c) && c[|c| - 1] == u;
    forall i | 0 < i < |c| ensures Influences(f, c[i], c[i - 1]) {
      assert Follows(f, c[i - 1], c[i]);
    }
    assert IsInfluence(f, b, c);
  }

  lemma {:induction false} ExtendInfluence(f: Facts, b: Bundle, u: Use, v: Use)
    requires Influential(f, b, u) && Influences(f, v, u)
    ensures Influential(f, b, v)
  {
    hide Influences, IsRoot;
    var c :| IsInfluence(f, b, c) && c[|c| - 1] == u;
    var longer := c + [v];
    forall i | 0 < i < |longer| ensures Influences(f, longer[i], longer[i - 1]) {
      assert longer[i - 1] == c[i - 1];
      assert i < |c| ==> longer[i] == c[i];
    }
    assert IsInfluence(f, b, longer) && longer[|longer| - 1] == v;
  }

  lemma {:induction false} CoveredInfluence(f: Facts, b: Bundle, u: Use)
    requires SelfReadsCovered(f, b) && Influential(f, b, u)
    ensures InSlice(f, b, u)
  {
    var c :| IsInfluence(f, b, c) && c[|c| - 1] == u;
    CoveredChain(f, b, c);
  }

  lemma {:induction false} CoveredChain(f: Facts, b: Bundle, c: seq<Use>)
    requires SelfReadsCovered(f, b) && IsInfluence(f, b, c)
    ensures InSlice(f, b, c[|c| - 1])
    decreases |c|
  {
    hide InSlice;
    if |c| == 1 {
      RootInSlice(f, b, c[0]);
    } else {
      var shorter := c[..|c| - 1];
      assert IsInfluence(f, b, shorter);
      CoveredChain(f, b, shorter);
      var u, v := c[|c| - 2], c[|c| - 1];
      assert Influences(f, v, u);
      if Follows(f, u, v) {
        FollowInSlice(f, b, u, v);
      } else {
        assert v == Use(v.node, u.symbol);
      }
    }
  }

  /** SET x = p (at a); SET x = x + 1 (at i); INSERT x (at e). */
  function Increment(): Facts {
    Facts(map["e" := ["x"], "i" := ["x"], "a" := ["p"]],
          map[Use("e", "x") := ["i"], Use("i", "x") := ["a"]], {"p"}, map[], {}, map[], map[])
  }

  function Insert(): Bundle {
    Bundle(["e"], [], {}, false, false, false)
  }

  /** The slice of the insert is complete although it meets neither the first assignment nor p. */
  lemma {:induction false} IncrementIsMissed()
    ensures forall u :: InSlice(Increment(), Insert(), u) <==> u == Use("e", "x")
    ensures forall e :: OfSlice(Increment(), Insert(), e) ==> !ShowsGap(e)
    ensures Influential(Increment(), Insert(), Use("a", "p"))
  {
    hide InSlice, Influential, OfSlice, ShowsGap;
    var f, b := Increment(), Insert();
    assert IsRoot(f, b, Use("e", "x"));
    RootInSlice(f, b, Use("e", "x"));
    forall u | InSlice(f, b, u) ensures u == Use("e", "x") {
      assert Closed(f, {Use("e", "x")});
      SliceIsLeast(f, b, {Use("e", "x")}, u);
    }
    assert BindingsComplete(f, "i");
    CompleteMeans(f, b, forall e :: OfSlice(f, b, e) ==> !ShowsGap(e));
    SliceIsInfluential(f, b, Use("e", "x"));
    ExtendInfluence(f, b, Use("e", "x"), Use("i", "x"));
    ExtendInfluence(f, b, Use("i", "x"), Use("a", "p"));
  }
}
