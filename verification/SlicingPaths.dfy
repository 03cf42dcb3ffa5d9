/** Slices from the control-flow graph: what a slice and its label say about the paths. */
module SlicingPaths {
  import opened Basics
  import opened Slicing
  import Flow = ReachingDefinitions

  /** A procedure: its graph, where its nodes stand in it, and everything that the slicer looks up
      besides reaching definitions. */
  datatype Procedure = Procedure(graph: Flow.Graph, place: map<Node, Flow.Node>, facts: Facts)

  ghost predicate WellFormed(p: Procedure) {
    Flow.WellFormed(p.graph)
  }

  /** n is the last definition of the symbol along some path to the use. */
  ghost predicate LastOnPath(p: Procedure, u: Use, n: Node)
    requires WellFormed(p)
  {
    DefinedBy(p.graph, p.place, u, n)
  }

  ghost predicate Undefined(p: Procedure, u: Use)
    requires WellFormed(p)
  {
    forall n :: !LastOnPath(p, u, n)
  }

  /** The default at n explains a use to which no path brings a definition. */
  ghost predicate DefaultExplains(p: Procedure, u: Use, n: Node)
    requires WellFormed(p)
  {
    Undefined(p, u) && u.symbol !in p.facts.parameters && u.symbol in p.facts.defaults && p.facts.defaults[u.symbol] == n
  }

  /** v is one of the other symbols used by a definition that some path brings to u, or by a default. */
  ghost predicate PathFollows(p: Procedure, u: Use, v: Use)
    requires WellFormed(p)
  {
    v.symbol in UsesAt(p.facts, v.node) &&
      ((LastOnPath(p, u, v.node) && v.symbol != u.symbol) || DefaultExplains(p, u, v.node))
  }

  ghost predicate IsPathChain(p: Procedure, b: Bundle, c: seq<Use>)
    requires WellFormed(p)
  {
    && c != [] && IsRoot(p.facts, b, c[0])
    && forall i :: 0 < i < |c| ==> PathFollows(p, c[i - 1], c[i])
  }

  /** u is in the least set that holds the uses of the bundle and is closed under PathFollows. */
  ghost predicate InPathSlice(p: Procedure, b: Bundle, u: Use)
    requires WellFormed(p)
  {
    exists c :: IsPathChain(p, b, c) && c[|c| - 1] == u
  }

  /** Every definition that some path brings to u is fully summarised, and if there is none, u is a
      parameter or has a default. */
  ghost predicate PathResolved(p: Procedure, u: Use)
    requires WellFormed(p)
  {
    && u !in p.facts.undeclared
    && (Undefined(p, u) ==> u.symbol in p.facts.parameters || u.symbol in p.facts.defaults)
    && forall n | LastOnPath(p, u, n) ::
         (n in p.facts.summaries ==> p.facts.summaries[n].complete) && BindingsComplete(p.facts, n)
  }

  /** The slice holds a use of the parameter to which no path brings a definition. */
  ghost predicate Named(p: Procedure, b: Bundle, s: Symbol)
    requires WellFormed(p)
  {
    s in p.facts.parameters && exists u :: InPathSlice(p, b, u) && u.symbol == s && Undefined(p, u)
  }

  ghost predicate PathLocal(p: Procedure, b: Bundle, n: Node)
    requires WellFormed(p)
  {
    n in b.seeds || n in b.controls ||
      exists u :: InPathSlice(p, b, u) && (LastOnPath(p, u, n) || DefaultExplains(p, u, n))
  }

  // ----- looking up what the paths bring -----

  function Solved(p: Procedure, reaching: map<Use, seq<Node>>): Facts {
    p.facts.(reaching := reaching)
  }

  predicate IsUse(f: Facts, u: Use) {
    u.symbol in UsesAt(f, u.node)
  }

  /** The look-up agrees with the paths for every use there is. */
  ghost predicate Agrees(p: Procedure, reaching: map<Use, seq<Node>>)
    requires WellFormed(p)
  {
    forall u, n | IsUse(p.facts, u) :: n in Definitions(Solved(p, reaching), u) <==> LastOnPath(p, u, n)
  }

  lemma {:induction false} UseAgrees(p: Procedure, reaching: map<Use, seq<Node>>, u: Use)
    requires WellFormed(p) && Agrees(p, reaching) && IsUse(p.facts, u)
    ensures var f := Solved(p, reaching);
      && (Definitions(f, u) == [] <==> Undefined(p, u))
      && (Resolved(f, u) <==> PathResolved(p, u))
      && (forall n :: DefaultOf(f, u) == Some(n) <==> DefaultExplains(p, u, n))
      && (forall v :: Follows(f, u, v) <==> PathFollows(p, u, v))
  {
    hide LastOnPath;
    var f := Solved(p, reaching);
    if Definitions(f, u) != [] {
      assert Definitions(f, u)[0] in Definitions(f, u);
    }
    assert forall n :: BindingsAt(f, n) == BindingsAt(p.facts, n) && UsesAt(f, n) == UsesAt(p.facts, n);
  }

  lemma {:induction false} ChainAgrees(p: Procedure, reaching: map<Use, seq<Node>>, b: Bundle, c: seq<Use>)
    requires WellFormed(p) && Agrees(p, reaching)
    ensures IsChain(Solved(p, reaching), b, c) <==> IsPathChain(p, b, c)
    ensures IsChain(Solved(p, reaching), b, c) ==> IsUse(p.facts, c[|c| - 1])
  {
    hide LastOnPath, Agrees, DefaultExplains;
    var f := Solved(p, reaching);
    assert forall n :: UsesAt(f, n) == UsesAt(p.facts, n);
    if IsChain(f, b, c) || IsPathChain(p, b, c) {
      forall i | 0 <= i < |c| ensures IsUse(p.facts, c[i]) {
        assert i > 0 ==> Follows(f, c[i - 1], c[i]) || PathFollows(p, c[i - 1], c[i]);
      }
      forall i | 0 < i < |c| ensures Follows(f, c[i - 1], c[i]) <==> PathFollows(p, c[i - 1], c[i]) {
        UseAgrees(p, reaching, c[i - 1]);
      }
    }
  }

  lemma {:induction false} SliceAgrees(p: Procedure, reaching: map<Use, seq<Node>>, b: Bundle, u: Use)
    requires WellFormed(p) && Agrees(p, reaching)
    ensures InSlice(Solved(p, reaching), b, u) <==> InPathSlice(p, b, u)
    ensures InSlice(Solved(p, reaching), b, u) ==> IsUse(p.facts, u)
  {
    hide IsChain, IsPathChain, Agrees;
    forall c ensures IsChain(Solved(p, reaching), b, c) <==> IsPathChain(p, b, c)
      ensures IsChain(Solved(p, reaching), b, c) ==> c != [] && IsUse(p.facts, c[|c| - 1])
    {
      ChainAgrees(p, reaching, b, c);
      ChainIsNotEmpty(Solved(p, reaching), b, c);
    }
  }

  lemma {:induction false} ChainIsNotEmpty(f: Facts, b: Bundle, c: seq<Use>)
    ensures IsChain(f, b, c) ==> c != []
  {
  }

  lemma {:induction false} LocalAgrees(p: Procedure, reaching: map<Use, seq<Node>>, b: Bundle, n: Node)
    requires WellFormed(p) && Agrees(p, reaching)
    ensures IsLocal(Solved(p, reaching), b, n) <==> PathLocal(p, b, n)
  {
    hide InSlice, InPathSlice, LastOnPath, DefaultExplains;
    var f := Solved(p, reaching);
    forall u ensures InSlice(f, b, u) <==> InPathSlice(p, b, u)
      ensures InSlice(f, b, u) ==>
        ((n in Definitions(f, u) || DefaultOf(f, u) == Some(n)) <==> (LastOnPath(p, u, n) || DefaultExplains(p, u, n)))
    {
      SliceAgrees(p, reaching, b, u);
      if IsUse(p.facts, u) {
        UseAgrees(p, reaching, u);
      }
    }
  }

  // ----- the slice of a bundle, from the graph -----

  /** Visits exactly the uses that definitions along the paths of the graph lead to.  The slice is
      complete exactly when each of them ends, along every path, in a parameter, a default or fully
      summarised definitions, every binding at one of its nodes is complete, no controlling
      condition holds a subquery, and bundle and predicate are sound.  It names a parameter as a source
      exactly if it holds a use of it to which no path brings a definition. */
  method SliceOnPaths(p: Procedure, b: Bundle) returns (r: Slice)
    requires WellFormed(p)
    ensures forall u :: u in r.visited <==> InPathSlice(p, b, u)
    ensures r.complete <==>
      && (forall u :: InPathSlice(p, b, u) ==> PathResolved(p, u))
      && (forall n :: PathLocal(p, b, n) ==> BindingsComplete(p.facts, n))
      && (forall n | n in b.controls :: n !in b.subqueries)
      && !b.partial && !b.predicatePartial && !b.contradictory
    ensures forall s :: ParameterSource(s) in r.entries <==> Named(p, b, s)
  {
    hide InSlice, InPathSlice, IsLocal, PathLocal, Resolved, PathResolved, OfSlice, ShowsGap, LastOnPath, Undefined;
    var uses := set n, s | n in p.facts.uses && s in p.facts.uses[n] :: Use(n, s);
    var reaching := ReachingMap(p.graph, p.place, uses);
    assert Agrees(p, reaching) by {
      UsesAgree(p, reaching, uses);
    }
    var f := Solved(p, reaching);
    r := SliceBundle(f, b);
    CompleteMeans(f, b, r.complete);
    forall u ensures InSlice(f, b, u) <==> InPathSlice(p, b, u)
      ensures InSlice(f, b, u) ==> (Resolved(f, u) <==> PathResolved(p, u))
    {
      SliceAgrees(p, reaching, b, u);
      if IsUse(p.facts, u) {
        UseAgrees(p, reaching, u);
      }
    }
    forall n ensures IsLocal(f, b, n) <==> PathLocal(p, b, n)
      ensures BindingsComplete(f, n) <==> BindingsComplete(p.facts, n)
    {
      LocalAgrees(p, reaching, b, n);
    }
    forall s ensures ParameterSource(s) in r.entries <==> Named(p, b, s) {
      NamedAgrees(p, reaching, b, s);
    }
  }

  lemma {:induction false} NamedAgrees(p: Procedure, reaching: map<Use, seq<Node>>, b: Bundle, s: Symbol)
    requires WellFormed(p) && Agrees(p, reaching)
    ensures OfSlice(Solved(p, reaching), b, ParameterSource(s)) <==> Named(p, b, s)
  {
    hide InSlice, InPathSlice, LastOnPath, Undefined, IsLocal, Agrees;
    var f := Solved(p, reaching);
    forall u ensures InSlice(f, b, u) <==> InPathSlice(p, b, u)
      ensures InSlice(f, b, u) ==> (Definitions(f, u) == [] <==> Undefined(p, u))
    {
      SliceAgrees(p, reaching, b, u);
      if IsUse(p.facts, u) {
        UseAgrees(p, reaching, u);
      }
    }
  }

  lemma {:induction false} UsesAgree(p: Procedure, reaching: map<Use, seq<Node>>, uses: set<Use>)
    requires WellFormed(p) && reaching.Keys == uses
    requires uses == set n, s | n in p.facts.uses && s in p.facts.uses[n] :: Use(n, s)
    requires forall u, d | u in uses :: d in reaching[u] <==> DefinedBy(p.graph, p.place, u, d)
    ensures Agrees(p, reaching)
  {
    hide DefinedBy;
    forall u | IsUse(p.facts, u) ensures u in uses {
      assert u == Use(u.node, u.symbol);
    }
  }
}
