/** Edge-sensitive reaching definitions: the worklist solver finds exactly what the paths carry. */
module Dataflow {
  import opened Basics

  type Node = string
  type Symbol = string
  type Ref = string

  /** One name that a node binds, with the node that binds it. */
  datatype Site = Site(symbol: Symbol, ref: Ref)

  datatype Edge = Edge(id: string, source: Node, target: Node, isHandler: bool)

  /** fallible holds the nodes whose binding may fail before it takes effect: SELECT INTO,
      FETCH, EXECUTE and EXECUTE IMMEDIATE. */
  datatype Graph = Graph(nodes: set<Node>, edges: seq<Edge>, entry: Node,
                         sites: map<Node, seq<Site>>, fallible: set<Node>)

  type State = map<Symbol, set<Ref>>

  predicate WellFormed(g: Graph) {
    && g.entry in g.nodes
    && forall e | e in g.edges :: e.source in g.nodes && e.target in g.nodes
  }

  function SitesAt(g: Graph, n: Node): seq<Site> {
    if n in g.sites then g.sites[n] else []
  }

  function Get(m: State, s: Symbol): set<Ref> {
    if s in m then m[s] else {}
  }

  // ----- the reference: definitions along a path -----

  /** The definition of s that a list of sites leaves in place. */
  function SiteFor(sites: seq<Site>, s: Symbol): Option<Ref> {
    if sites == [] then None
    else
      var last := sites[|sites| - 1];
      if last.symbol == s then Some(last.ref) else SiteFor(sites[..|sites| - 1], s)
  }

  /** The definition of s that takes effect when control leaves along e.  Along a handler
      edge a binding that may fail has not happened. */
  function EdgeDefinition(g: Graph, e: Edge, s: Symbol): Option<Ref> {
    if e.isHandler && e.source in g.fallible then None else SiteFor(SitesAt(g, e.source), s)
  }

  ghost predicate IsPath(g: Graph, p: seq<Edge>, n: Node) {
    if p == [] then n == g.entry
    else
      var e := p[|p| - 1];
      e in g.edges && e.target == n && IsPath(g, p[..|p| - 1], e.source)
  }

  /** The last definition of s along p. */
  ghost function LastDefinition(g: Graph, p: seq<Edge>, s: Symbol): Option<Ref> {
    if p == [] then None
    else
      var d := EdgeDefinition(g, p[|p| - 1], s);
      if d != None then d else LastDefinition(g, p[..|p| - 1], s)
  }

  /** Some path from the entry to n has d as its last definition of s. */
  ghost predicate Reaches(g: Graph, n: Node, s: Symbol, d: Ref) {
    exists p :: IsPath(g, p, n) && LastDefinition(g, p, s) == Some(d)
  }

  ghost predicate Reachable(g: Graph, n: Node) {
    exists p :: IsPath(g, p, n)
  }

  lemma {:induction false} ExtendPath(g: Graph, p: seq<Edge>, e: Edge)
    requires IsPath(g, p, e.source) && e in g.edges
    ensures IsPath(g, p + [e], e.target)
    ensures forall s :: (
      var d := EdgeDefinition(g, e, s);
      LastDefinition(g, p + [e], s) == if d != None then d else LastDefinition(g, p, s))
  {
    assert (p + [e])[..|p|] == p;
  }

  // ----- states -----

  ghost predicate In(m: State, s: Symbol, d: Ref) {
    s in m && d in m[s]
  }

  /** No symbol is kept with an empty set of definitions. */
  predicate Proper(m: State) {
    forall s | s in m :: m[s] != {}
  }

  ghost predicate Leq(a: State, b: State) {
    forall s, d :: In(a, s, d) ==> In(b, s, d)
  }

  lemma {:induction false} Extensional(a: State, b: State)
    requires Proper(a) && Proper(b) && Leq(a, b) && Leq(b, a)
    ensures a == b
  {
    forall s ensures s in a <==> s in b {
      if s in a {
        var d :| d in a[s];
        assert In(a, s, d);
      }
      if s in b {
        var d :| d in b[s];
        assert In(b, s, d);
      }
    }
    forall s | s in a ensures a[s] == b[s] {
      forall d ensures d in a[s] <==> d in b[s] {
        assert In(a, s, d) <==> In(b, s, d);
      }
    }
  }

  // ----- transfer and merge -----

  function ApplySites(m: State, sites: seq<Site>): State {
    if sites == [] then m
    else
      var last := sites[|sites| - 1];
      ApplySites(m, sites[..|sites| - 1])[last.symbol := {last.ref}]
  }

  function Transfer(g: Graph, m: State, e: Edge): State {
    if e.isHandler && e.source in g.fallible then m else ApplySites(m, SitesAt(g, e.source))
  }

  lemma {:induction false} ApplySitesIn(m: State, sites: seq<Site>, s: Symbol, d: Ref)
    requires Proper(m)
    ensures Proper(ApplySites(m, sites))
    ensures In(ApplySites(m, sites), s, d) <==>
      (if SiteFor(sites, s) != None then SiteFor(sites, s) == Some(d) else In(m, s, d))
  {
    if sites != [] {
      ApplySitesIn(m, sites[..|sites| - 1], s, d);
    }
  }

  lemma {:induction false} TransferIn(g: Graph, m: State, e: Edge)
    requires Proper(m)
    ensures Proper(Transfer(g, m, e))
    ensures forall s, d :: In(Transfer(g, m, e), s, d) <==>
      (if EdgeDefinition(g, e, s) != None then EdgeDefinition(g, e, s) == Some(d) else In(m, s, d))
  {
    ApplySitesIn(m, SitesAt(g, e.source), "", "");
    forall s, d ensures In(Transfer(g, m, e), s, d) <==>
      (if EdgeDefinition(g, e, s) != None then EdgeDefinition(g, e, s) == Some(d) else In(m, s, d))
    {
      ApplySitesIn(m, SitesAt(g, e.source), s, d);
    }
  }

  method TransferForEdge(g: Graph, m: State, e: Edge) returns (r: State)
    ensures r == Transfer(g, m, e)
  {
    if e.isHandler && e.source in g.fallible {
      return m;
    }
    r := m;
    var sites := SitesAt(g, e.source);
    for i := 0 to |sites|
      invariant r == ApplySites(m, sites[..i])
    {
      r := r[sites[i].symbol := {sites[i].ref}];
      assert sites[..i + 1][..i] == sites[..i];
    }
    assert sites[..|sites|] == sites;
  }

  /** Some edge into n carries d as a definition of s. */
  ghost predicate Arrives(g: Graph, edgeState: map<Edge, State>, n: Node, s: Symbol, d: Ref) {
    exists e :: e in g.edges && e.target == n && e in edgeState && In(edgeState[e], s, d)
  }

  /** m holds exactly what arrives at n. */
  ghost predicate IsMerge(g: Graph, edgeState: map<Edge, State>, n: Node, m: State) {
    && Proper(m)
    && forall s, d :: In(m, s, d) <==> Arrives(g, edgeState, n, s, d)
  }

  method MergePredecessorStates(g: Graph, edgeState: map<Edge, State>, n: Node) returns (m: State)
    requires forall e | e in g.edges :: e in edgeState && Proper(edgeState[e])
    ensures IsMerge(g, edgeState, n, m)
  {
    m := map[];
    for i := 0 to |g.edges|
      invariant Proper(m)
      invariant forall s, d :: In(m, s, d) <==>
        exists j :: 0 <= j < i && g.edges[j].target == n && In(edgeState[g.edges[j]], s, d)
    {
      var e := g.edges[i];
      if e.target == n {
        var st := edgeState[e];
        ghost var before := m;
        m := map s | s in m.Keys + st.Keys :: Get(m, s) + Get(st, s);
        assert forall s, d :: In(m, s, d) <==> In(before, s, d) || In(st, s, d);
      }
    }
    forall s, d ensures In(m, s, d) <==> Arrives(g, edgeState, n, s, d) {
      if Arrives(g, edgeState, n, s, d) {
        var e :| e in g.edges && e.target == n && In(edgeState[e], s, d);
        var j :| 0 <= j < |g.edges| && g.edges[j] == e;
      }
    }
  }

  // ----- invariants of the solver -----

  type EdgeStates = map<Edge, State>

  ghost predicate Keyed(g: Graph, es: EdgeStates) {
    forall e | e in g.edges :: e in es && Proper(es[e])
  }

  /** Everything an edge carries is the last definition along some path that ends with it. */
  ghost predicate Sound(g: Graph, es: EdgeStates)
    requires Keyed(g, es)
  {
    forall e, s, d | e in g.edges && In(es[e], s, d) :: CarriedBy(g, e, s, d)
  }

  ghost predicate CarriedBy(g: Graph, e: Edge, s: Symbol, d: Ref) {
    exists p :: IsPath(g, p, e.source) && LastDefinition(g, p + [e], s) == Some(d)
  }

  /** What control carries along e, given what the edges into its source carry. */
  ghost predicate Passes(g: Graph, es: EdgeStates, e: Edge, s: Symbol, d: Ref) {
    var own := EdgeDefinition(g, e, s);
    if own != None then own == Some(d) else Arrives(g, es, e.source, s, d)
  }

  /** An edge never carries more than its source passes on; an untouched edge carries nothing. */
  ghost predicate Behind(g: Graph, es: EdgeStates, init: set<Edge>)
    requires Keyed(g, es)
  {
    && (forall e, s, d | e in g.edges && e in init && In(es[e], s, d) :: Passes(g, es, e, s, d))
    && (forall e | e in g.edges && e !in init :: es[e] == map[])
  }

  /** Nothing is left to propagate out of n. */
  ghost predicate Settled(g: Graph, es: EdgeStates, init: set<Edge>, n: Node)
    requires Keyed(g, es)
  {
    && (forall e | e in g.edges && e.source == n :: e in init)
    && (forall e, s, d | e in g.edges && e.source == n && Passes(g, es, e, s, d) :: In(es[e], s, d))
  }

  ghost predicate Touched(g: Graph, init: set<Edge>, reachable: set<Node>) {
    && g.entry in reachable
    && (forall e | e in g.edges && e in init :: e.target in reachable)
    && (forall n | n in reachable :: Reachable(g, n))
  }

  /** A settled solution carries the last definition of every path. */
  lemma {:induction false} Complete(g: Graph, es: EdgeStates, init: set<Edge>, reachable: set<Node>, p: seq<Edge>,
                                    n: Node)
    requires Keyed(g, es) && Touched(g, init, reachable)
    requires forall n | n in reachable :: Settled(g, es, init, n)
    requires IsPath(g, p, n)
    ensures n in reachable
    ensures forall s, d :: LastDefinition(g, p, s) == Some(d) ==> Arrives(g, es, n, s, d)
    decreases |p|
  {
    if p != [] {
      var e, q := p[|p| - 1], p[..|p| - 1];
      Complete(g, es, init, reachable, q, e.source);
      forall s, d | LastDefinition(g, p, s) == Some(d)
        ensures Arrives(g, es, n, s, d)
      {
        assert Passes(g, es, e, s, d);
        assert In(es[e], s, d);
      }
    }
  }

  lemma {:induction false} ArrivalsReach(g: Graph, es: EdgeStates, n: Node, s: Symbol, d: Ref)
    requires Keyed(g, es) && Sound(g, es) && Arrives(g, es, n, s, d)
    ensures Reaches(g, n, s, d)
  {
    var e :| e in g.edges && e.target == n && In(es[e], s, d);
    var p :| IsPath(g, p, e.source) && LastDefinition(g, p + [e], s) == Some(d);
    ExtendPath(g, p, e);
  }

  // ----- termination -----

  ghost function Facts(sites: seq<Site>): set<(Symbol, Ref)> {
    set i | 0 <= i < |sites| :: (sites[i].symbol, sites[i].ref)
  }

  ghost function AllFacts(g: Graph): set<(Symbol, Ref)> {
    set n, f | n in g.sites && f in Facts(g.sites[n]) :: f
  }

  /** Everything the solver can ever record: that an edge was touched, or a definition on it. */
  ghost function Universe(g: Graph): set<(Edge, Option<(Symbol, Ref)>)> {
    (set e | e in g.edges :: (e, None)) + (set e, f | e in g.edges && f in AllFacts(g) :: (e, Some(f)))
  }

  ghost function Recorded(g: Graph, es: EdgeStates, init: set<Edge>): set<(Edge, Option<(Symbol, Ref)>)>
    requires Keyed(g, es)
  {
    set u | u in Universe(g) &&
            (if u.1 == None then u.0 in init else In(es[u.0], u.1.value.0, u.1.value.1))
  }

  lemma {:induction false} SiteIsFact(sites: seq<Site>, s: Symbol)
    ensures SiteFor(sites, s) != None ==> (s, SiteFor(sites, s).value) in Facts(sites)
  {
    if sites != [] {
      var n := |sites| - 1;
      SiteIsFact(sites[..n], s);
      assert forall i | 0 <= i < n :: sites[..n][i] == sites[i];
    }
  }

  lemma {:induction false} LastIsFact(g: Graph, p: seq<Edge>, s: Symbol)
    ensures LastDefinition(g, p, s) != None ==> (s, LastDefinition(g, p, s).value) in AllFacts(g)
  {
    if p != [] {
      SiteIsFact(SitesAt(g, p[|p| - 1].source), s);
      LastIsFact(g, p[..|p| - 1], s);
    }
  }

  /** Overwriting the state of an edge with a larger or a first state records something new. */
  lemma {:induction false} Progress(g: Graph, es: EdgeStates, init: set<Edge>, e: Edge, m: State)
    requires Keyed(g, es) && e in g.edges && Proper(m) && Leq(es[e], m)
    requires forall s, d | In(m, s, d) :: CarriedBy(g, e, s, d)
    requires e !in init || m != es[e]
    ensures Keyed(g, es[e := m])
    ensures Recorded(g, es, init) < Recorded(g, es[e := m], init + {e})
  {
    var now := es[e := m];
    assert Recorded(g, es, init) <= Recorded(g, now, init + {e});
    if e !in init {
      assert (e, None) in Recorded(g, now, init + {e}) - Recorded(g, es, init);
    } else {
      if Leq(m, es[e]) {
        Extensional(m, es[e]);
      }
      var s, d :| In(m, s, d) && !In(es[e], s, d);
      var p :| IsPath(g, p, e.source) && LastDefinition(g, p + [e], s) == Some(d);
      LastIsFact(g, p + [e], s);
      assert (e, Some((s, d))) in Recorded(g, now, init + {e}) - Recorded(g, es, init);
    }
  }

  // ----- one update -----

  /** Growing one edge keeps every arrival and every invariant that does not speak of its target. */
  lemma {:induction false} Grow(g: Graph, es: EdgeStates, init: set<Edge>, e: Edge, m: State)
    requires Keyed(g, es) && e in g.edges && Proper(m) && Leq(es[e], m)
    ensures Keyed(g, es[e := m])
    ensures forall n, s, d | Arrives(g, es, n, s, d) :: Arrives(g, es[e := m], n, s, d)
    ensures forall n, s, d | n != e.target && Arrives(g, es[e := m], n, s, d) :: Arrives(g, es, n, s, d)
  {
    var now := es[e := m];
    forall n, s, d | Arrives(g, es, n, s, d) ensures Arrives(g, now, n, s, d) {
      var x :| x in g.edges && x.target == n && x in es && In(es[x], s, d);
      assert In(now[x], s, d);
    }
  }

  lemma {:induction false} SoundUpdate(g: Graph, es: EdgeStates, e: Edge, incoming: State, m: State)
    requires Keyed(g, es) && Sound(g, es) && e in g.edges && Reachable(g, e.source)
    requires Proper(incoming) && m == Transfer(g, incoming, e)
    requires forall s, d | In(incoming, s, d) :: Arrives(g, es, e.source, s, d)
    ensures forall s, d | In(m, s, d) :: CarriedBy(g, e, s, d)
  {
    TransferIn(g, incoming, e);
    forall s, d | In(m, s, d) ensures CarriedBy(g, e, s, d) {
      if EdgeDefinition(g, e, s) != None {
        var p :| IsPath(g, p, e.source);
        ExtendPath(g, p, e);
      } else {
        ArrivalsReach(g, es, e.source, s, d);
        var p :| IsPath(g, p, e.source) && LastDefinition(g, p, s) == Some(d);
        ExtendPath(g, p, e);
      }
    }
  }

  // ----- the solver -----

  datatype Work = Work(es: EdgeStates, init: set<Edge>, queue: seq<Node>, queued: set<Node>, reachable: set<Node>)

  ghost predicate Invariant(g: Graph, w: Work) {
    && Keyed(g, w.es) && Sound(g, w.es) && Behind(g, w.es, w.init)
    && Touched(g, w.init, w.reachable)
    && w.queued == (set n | n in w.queue) && w.queued <= w.reachable <= g.nodes
  }

  ghost predicate SettledExcept(g: Graph, w: Work, unsettled: set<Node>)
    requires Keyed(g, w.es)
  {
    forall n | n in w.reachable && n !in unsettled :: Settled(g, w.es, w.init, n)
  }

  /** Nodes that are not queued see the same arrivals as before. */
  ghost predicate SameArrivals(g: Graph, was: EdgeStates, w: Work) {
    forall n, s, d | n !in w.queued :: Arrives(g, was, n, s, d) <==> Arrives(g, w.es, n, s, d)
  }

  ghost predicate Advanced(g: Graph, was: Work, w: Work)
    requires Keyed(g, was.es) && Keyed(g, w.es)
  {
    w == was || Recorded(g, was.es, was.init) < Recorded(g, w.es, w.init)
  }

  /** The edge e out of the current node carries no more than the merged state sends along it. */
  ghost predicate Within(g: Graph, w: Work, e: Edge, merged: State)
    requires Keyed(g, w.es) && e in g.edges
  {
    e in w.init ==> Leq(w.es[e], Transfer(g, merged, e))
  }

  /** What holds while the edges out of the current node are being served. */
  ghost predicate Serving(g: Graph, was: Work, w: Work, current: Node, merged: State) {
    && Invariant(g, w) && Keyed(g, was.es)
    && was.queued <= w.queued && was.reachable <= w.reachable
    && current in w.reachable
    && SettledExcept(g, w, w.queued + {current})
    && SameArrivals(g, was.es, w)
    && Advanced(g, was, w)
    && Proper(merged)
    && (forall s, d | In(merged, s, d) :: Arrives(g, w.es, current, s, d))
    && (forall s, d | current !in w.queued && Arrives(g, w.es, current, s, d) :: In(merged, s, d))
    && (forall e | e in g.edges && e.source == current :: Within(g, w, e, merged))
  }

  function Enqueue(w: Work, e: Edge, m: State): Work {
    var target := e.target;
    Work(w.es[e := m], w.init + {e},
         if target in w.queued then w.queue else w.queue + [target],
         w.queued + {target}, w.reachable + {target})
  }

  /** What serving edge e assumes and what it sends. */
  ghost predicate Sends(g: Graph, w: Work, current: Node, merged: State, e: Edge, m: State) {
    && WellFormed(g) && Invariant(g, w) && current in w.reachable
    && e in g.edges && e.source == current
    && Proper(merged) && m == Transfer(g, merged, e)
    && (forall s, d | In(merged, s, d) :: Arrives(g, w.es, current, s, d))
    && Within(g, w, e, merged)
    && (e !in w.init || m != w.es[e])
  }

  lemma {:induction false} ServeGrows(g: Graph, w: Work, current: Node, merged: State, e: Edge, m: State)
    requires Sends(g, w, current, merged, e, m)
    ensures Proper(m) && Leq(w.es[e], m)
    ensures forall s, d | In(m, s, d) :: CarriedBy(g, e, s, d)
  {
    TransferIn(g, merged, e);
    SoundUpdate(g, w.es, e, merged, m);
  }

  lemma {:induction false} ServeBehind(g: Graph, w: Work, current: Node, merged: State, e: Edge, m: State)
    requires Sends(g, w, current, merged, e, m)
    ensures Keyed(g, w.es[e := m]) && Behind(g, w.es[e := m], w.init + {e})
  {
    var es, init := w.es[e := m], w.init + {e};
    ServeGrows(g, w, current, merged, e, m);
    TransferIn(g, merged, e);
    Grow(g, w.es, w.init, e, m);
    forall x, s, d | x in g.edges && x in init && In(es[x], s, d) ensures Passes(g, es, x, s, d) {
      if x != e {
        assert Passes(g, w.es, x, s, d);
      }
    }
  }

  lemma {:induction false} ServeInvariant(g: Graph, w: Work, current: Node, merged: State, e: Edge, m: State)
    requires Sends(g, w, current, merged, e, m)
    ensures Invariant(g, Enqueue(w, e, m))
  {
    var now := Enqueue(w, e, m);
    ServeGrows(g, w, current, merged, e, m);
    ServeBehind(g, w, current, merged, e, m);
    assert Sound(g, now.es);
    var p :| IsPath(g, p, current);
    ExtendPath(g, p, e);
    assert Touched(g, now.init, now.reachable);
    if e.target !in w.queued {
      assert forall n | n in w.queue :: n in now.queue;
      assert now.queue[|w.queue|] == e.target;
    }
  }

  lemma {:induction false} ServeSettled(g: Graph, w: Work, current: Node, merged: State, e: Edge, m: State)
    requires Sends(g, w, current, merged, e, m)
    requires SettledExcept(g, w, w.queued + {current})
    ensures var now := Enqueue(w, e, m);
            Keyed(g, now.es) && SettledExcept(g, now, now.queued + {current})
  {
    var now := Enqueue(w, e, m);
    ServeGrows(g, w, current, merged, e, m);
    Grow(g, w.es, w.init, e, m);
    forall n | n in now.reachable && n !in now.queued + {current} ensures Settled(g, now.es, now.init, n) {
      assert Settled(g, w.es, w.init, n);
      forall x, s, d | x in g.edges && x.source == n && Passes(g, now.es, x, s, d) ensures In(now.es[x], s, d) {
        assert Passes(g, w.es, x, s, d);
      }
    }
  }

  lemma {:induction false} ServeEdge(g: Graph, was: Work, w: Work, current: Node, merged: State, e: Edge)
    requires WellFormed(g) && Serving(g, was, w, current, merged)
    requires e in g.edges && e.source == current
    requires e !in w.init || Transfer(g, merged, e) != w.es[e]
    ensures Serving(g, was, Enqueue(w, e, Transfer(g, merged, e)), current, merged)
  {
    hide Transfer, Settled, Sound, Behind, Touched, Recorded, Universe;
    var m := Transfer(g, merged, e);
    ServeGrows(g, w, current, merged, e, m);
    ServeInvariant(g, w, current, merged, e, m);
    ServeSettled(g, w, current, merged, e, m);
    Progress(g, w.es, w.init, e, m);
    Grow(g, w.es, w.init, e, m);
  }

  /** Edge e, if it leaves the current node, carries what the merged state sends along it. */
  ghost predicate Served(g: Graph, es: EdgeStates, init: set<Edge>, current: Node, merged: State, e: Edge)
    requires e in es
  {
    e.source == current ==> e in init && es[e] == Transfer(g, merged, e)
  }

  lemma {:induction false} AllServed(g: Graph, es: EdgeStates, init: set<Edge>, current: Node, merged: State)
    requires Keyed(g, es) && Proper(merged)
    requires forall e | e in g.edges :: Served(g, es, init, current, merged, e)
    requires forall s, d | Arrives(g, es, current, s, d) :: In(merged, s, d)
    ensures Settled(g, es, init, current)
  {
    forall e, s, d | e in g.edges && e.source == current && Passes(g, es, e, s, d) ensures In(es[e], s, d) {
      assert Served(g, es, init, current, merged, e);
      TransferIn(g, merged, e);
    }
    forall e | e in g.edges && e.source == current ensures e in init {
      assert Served(g, es, init, current, merged, e);
    }
  }

  /** Sends the merged state along one edge out of the current node. */
  method Serve(g: Graph, ghost start: Work, before: Work, current: Node, merged: State, e: Edge) returns (w: Work)
    requires WellFormed(g) && Serving(g, start, before, current, merged) && e in g.edges
    ensures Serving(g, start, w, current, merged)
    ensures Served(g, w.es, w.init, current, merged, e)
    ensures forall x | x != e && x in before.es :: x in w.es && w.es[x] == before.es[x]
    ensures before.init <= w.init
  {
    w := before;
    if e.source == current {
      var propagated := TransferForEdge(g, merged, e);
      if e !in w.init || propagated != w.es[e] {
        ServeEdge(g, start, w, current, merged, e);
        w := Enqueue(w, e, propagated);
      }
    }
  }

  /** Sends the merged state of the current node along each edge out of it and queues the
      targets whose incoming state changed. */
  method Propagate(g: Graph, start: Work, current: Node, merged: State) returns (w: Work)
    requires WellFormed(g) && Serving(g, start, start, current, merged)
    ensures Serving(g, start, w, current, merged)
    ensures current in w.queued || Settled(g, w.es, w.init, current)
  {
    w := start;
    for i := 0 to |g.edges|
      invariant Serving(g, start, w, current, merged)
      invariant forall j | 0 <= j < i :: Served(g, w.es, w.init, current, merged, g.edges[j])
    {
      w := Serve(g, start, w, current, merged, g.edges[i]);
    }
    if current !in w.queued {
      AllServed(g, w.es, w.init, current, merged);
    }
  }

  ghost predicate Current(g: Graph, w: Work, inState: map<Node, State>) {
    && inState.Keys == g.nodes && w.reachable <= g.nodes
    && (forall n | n in w.reachable && n !in w.queued :: IsMerge(g, w.es, n, inState[n]))
    && (forall n | n in g.nodes && n !in w.reachable :: inState[n] == map[])
  }

  /** Taking the head off the queue and merging at it starts a round. */
  lemma {:induction false} StartRound(g: Graph, w: Work, merged: State)
    requires WellFormed(g) && Invariant(g, w) && w.queue != [] && SettledExcept(g, w, w.queued)
    requires IsMerge(g, w.es, w.queue[0], merged)
    ensures var next := w.(queue := w.queue[1..], queued := set n | n in w.queue[1..]);
            Serving(g, next, next, w.queue[0], merged) && w.queued <= next.queued + {w.queue[0]}
  {
    var next := w.(queue := w.queue[1..], queued := set n | n in w.queue[1..]);
    forall n | n in w.queued ensures n in next.queued + {w.queue[0]} {
      var i :| 0 <= i < |w.queue| && w.queue[i] == n;
      if i > 0 {
        assert w.queue[1..][i - 1] == n;
      }
    }
    forall e | e in g.edges && e.source == w.queue[0] ensures Within(g, next, e, merged) {
      TransferIn(g, merged, e);
      if e in w.init {
        forall s, d | In(w.es[e], s, d) ensures In(Transfer(g, merged, e), s, d) {
          assert Passes(g, w.es, e, s, d);
        }
      }
    }
  }

  /** After a round every node that is not queued is settled and holds what arrives at it. */
  lemma {:induction false} EndRound(g: Graph, was: Work, rest: Work, w: Work, current: Node, merged: State,
                                    inState: map<Node, State>)
    requires Invariant(g, was) && Current(g, was, inState) && current in was.queued
    requires rest.es == was.es && rest.reachable == was.reachable && was.queued <= rest.queued + {current}
    requires Serving(g, rest, w, current, merged)
    requires current in w.queued || Settled(g, w.es, w.init, current)
    ensures Current(g, w, inState[current := merged]) && SettledExcept(g, w, w.queued)
  {
    var now := inState[current := merged];
    forall n | n in w.reachable && n !in w.queued ensures IsMerge(g, w.es, n, now[n]) {
      if n != current {
        NotYetReached(g, was, inState, n);
      }
    }
  }

  /** A node that no touched edge leads to sees nothing arrive. */
  lemma {:induction false} NotYetReached(g: Graph, w: Work, inState: map<Node, State>, n: Node)
    requires Invariant(g, w) && Current(g, w, inState) && n in g.nodes && n !in w.queued
    ensures IsMerge(g, w.es, n, inState[n])
  {
    if n !in w.reachable {
      forall s, d ensures !Arrives(g, w.es, n, s, d) {
        assert forall e | e in g.edges && e.target == n :: e !in w.init;
      }
    }
  }

  lemma {:induction false} AtTheEnd(g: Graph, w: Work, inState: map<Node, State>, n: Node, s: Symbol, d: Ref)
    requires Invariant(g, w) && SettledExcept(g, w, {}) && Current(g, w, inState)
    requires w.queue == [] && n in g.nodes
    ensures In(inState[n], s, d) <==> Reaches(g, n, s, d)
  {
    NotYetReached(g, w, inState, n);
    if In(inState[n], s, d) {
      ArrivalsReach(g, w.es, n, s, d);
    }
    if Reaches(g, n, s, d) {
      var p :| IsPath(g, p, n) && LastDefinition(g, p, s) == Some(d);
      Complete(g, w.es, w.init, w.reachable, p, n);
    }
  }

  function InitialWork(g: Graph): Work {
    Work(map e | e in g.edges :: map[], {}, [g.entry], {g.entry}, {g.entry})
  }

  lemma {:induction false} Initially(g: Graph, inState: map<Node, State>)
    requires WellFormed(g) && inState == map n | n in g.nodes :: map[]
    ensures var w := InitialWork(g);
            Invariant(g, w) && SettledExcept(g, w, w.queued) && Current(g, w, inState)
  {
    assert IsPath(g, [], g.entry);
  }

  /** A round either records something new or shortens the queue. */
  lemma {:induction false} RoundDecreases(g: Graph, rest: Work, w: Work)
    requires Keyed(g, rest.es) && Keyed(g, w.es) && Advanced(g, rest, w)
    ensures w == rest ||
      Universe(g) - Recorded(g, w.es, w.init) < Universe(g) - Recorded(g, rest.es, rest.init)
  {
    var a, b := Recorded(g, rest.es, rest.init), Recorded(g, w.es, w.init);
    if w != rest {
      var u :| u in b && u !in a;
      assert u in Universe(g) - a;
    }
  }

  /** The solver terminates on every finite graph, cyclic or not, and its state at a node
      holds exactly the definitions that are last along some path from the entry. */
  method Solve(g: Graph) returns (inState: map<Node, State>, edgeState: EdgeStates)
    requires WellFormed(g)
    ensures inState.Keys == g.nodes
    ensures forall n, s, d | n in g.nodes :: In(inState[n], s, d) <==> Reaches(g, n, s, d)
  {
    inState := map n | n in g.nodes :: map[];
    var w := InitialWork(g);
    Initially(g, inState);
    while w.queue != []
      invariant Invariant(g, w) && SettledExcept(g, w, w.queued) && Current(g, w, inState)
      decreases Universe(g) - Recorded(g, w.es, w.init), |w.queue|
    {
      var current := w.queue[0];
      var merged := MergePredecessorStates(g, w.es, current);
      var rest := w.(queue := w.queue[1..], queued := set n | n in w.queue[1..]);
      StartRound(g, w, merged);
      ghost var was := w;
      w := Propagate(g, rest, current, merged);
      EndRound(g, was, rest, w, current, merged, inState);
      RoundDecreases(g, rest, w);
      inState := inState[current := merged];
    }
    edgeState := w.es;
    forall n, s, d | n in g.nodes ensures In(inState[n], s, d) <==> Reaches(g, n, s, d) {
      AtTheEnd(g, w, inState, n, s, d);
    }
  }
}
