/** Which parameters a slice should name as its sources, and which it names. */
module ParameterSources {
  import opened Basics
  import opened Slicing
  import opened SlicingPaths
  import Flow = ReachingDefinitions

  /** No node before the last one of the path defines the symbol. */
  ghost predicate Unset(g: Flow.Graph, path: seq<Flow.Node>, s: Symbol) {
    forall i | 0 <= i < |path| - 1 :: s !in Flow.Defines(g, path[i])
  }

  ghost predicate PathTo(p: Procedure, u: Use, path: seq<Flow.Node>) {
    u.node in p.place && Flow.IsPath(p.graph, path) && path[|path| - 1] == p.place[u.node]
  }

  /** Along some path the symbol still has at u the value that it has on entry. */
  ghost predicate ArrivesUnset(p: Procedure, u: Use) {
    exists path :: PathTo(p, u, path) && Unset(p.graph, path, u.symbol)
  }

  ghost predicate IsReachable(p: Procedure, u: Use) {
    exists path :: PathTo(p, u, path)
  }

  /** The value of the parameter on entry arrives at one of its uses in the slice. */
  ghost predicate Owed(p: Procedure, b: Bundle, s: Symbol)
    requires WellFormed(p)
  {
    s in p.facts.parameters && exists u :: InPathSlice(p, b, u) && u.symbol == s && ArrivesUnset(p, u)
  }

  /** Nodes are not named like parameters. */
  ghost predicate NodesAreNodes(p: Procedure) {
    forall n | n in p.graph.refs :: !IsParameter(p.graph.refs[n])
  }

  /** A path along which the symbol is defined has a last definition. */
  lemma {:induction false} LastOrUnset(p: Procedure, u: Use, path: seq<Flow.Node>) returns (d: Node)
    requires WellFormed(p) && NodesAreNodes(p) && !Unset(p.graph, path, u.symbol)
    ensures Flow.Carried(p.graph, path, Flow.Fact(u.symbol, d)) && !IsParameter(d)
    decreases |path|
  {
    var n := path[|path| - 2];
    if u.symbol in Flow.Defines(p.graph, n) {
      d := p.graph.refs[n];
      assert Flow.Fact(u.symbol, d) in Flow.Generated(p.graph, n);
    } else {
      var shorter := path[..|path| - 1];
      var i :| 0 <= i < |path| - 1 && u.symbol in Flow.Defines(p.graph, path[i]);
      assert shorter[i] == path[i];
      d := LastOrUnset(p, u, shorter);
    }
  }

  lemma {:induction false} UnsetOrDefined(p: Procedure, u: Use, path: seq<Flow.Node>)
    requires WellFormed(p) && NodesAreNodes(p) && PathTo(p, u, path)
    ensures ArrivesUnset(p, u) || !Undefined(p, u)
  {
    hide Flow.Carried, Unset;
    if !Unset(p.graph, path, u.symbol) {
      var d := LastOrUnset(p, u, path);
      assert LastOnPath(p, u, d);
    }
  }

  /** A use to which no path brings a definition gets the value on entry, unless it is not reachable at
      all. */
  lemma {:induction false} UndefinedIsUnset(p: Procedure, u: Use)
    requires WellFormed(p) && NodesAreNodes(p) && Undefined(p, u) && IsReachable(p, u)
    ensures ArrivesUnset(p, u)
  {
    hide ArrivesUnset, PathTo, Undefined;
    var path :| PathTo(p, u, path);
    UnsetOrDefined(p, u, path);
  }

  /** The value on entry never shares a use with a definition, or else arrives at another use of the
      same parameter alone. */
  ghost predicate NoneMasked(p: Procedure, b: Bundle)
    requires WellFormed(p)
  {
    forall u | InPathSlice(p, b, u) && u.symbol in p.facts.parameters && ArrivesUnset(p, u) && !Undefined(p, u) ::
      Named(p, b, u.symbol)
  }

  /** A slice names every parameter whose value arrives at one of its uses exactly when no such value is
      masked by a definition that reaches the same use.  It names others only for unreachable uses. */
  lemma {:induction false} OwedAreNamedIff(p: Procedure, b: Bundle)
    requires WellFormed(p) && NodesAreNodes(p)
    ensures (forall s :: Owed(p, b, s) ==> Named(p, b, s)) <==> NoneMasked(p, b)
    ensures (forall u :: InPathSlice(p, b, u) ==> IsReachable(p, u)) ==> forall s :: Named(p, b, s) ==> Owed(p, b, s)
  {
    hide InPathSlice, ArrivesUnset, Undefined, IsReachable;
    if NoneMasked(p, b) {
      forall s | Owed(p, b, s) ensures Named(p, b, s) {
        var u :| InPathSlice(p, b, u) && u.symbol == s && ArrivesUnset(p, u);
      }
    }
    if forall s :: Owed(p, b, s) ==> Named(p, b, s) {
      forall u | InPathSlice(p, b, u) && u.symbol in p.facts.parameters && ArrivesUnset(p, u)
        ensures Named(p, b, u.symbol)
      {
        assert Owed(p, b, u.symbol);
      }
    }
    if forall u :: InPathSlice(p, b, u) ==> IsReachable(p, u) {
      forall s | Named(p, b, s) ensures Owed(p, b, s) {
        var u :| InPathSlice(p, b, u) && u.symbol == s && Undefined(p, u);
        UndefinedIsUnset(p, u);
      }
    }
  }

  // ----- an input -----

  /** IF ... THEN SET P = ...; END IF; INSERT P; with P an IN parameter. */
  function Branch(): Procedure {
    var graph := Flow.Graph(
      {Flow.Arc("entry", "if"), Flow.Arc("if", "set"), Flow.Arc("if", "insert"), Flow.Arc("set", "insert")}, "entry",
      map["set" := {"P"}], map["set" := "set"], {Flow.Fact("P", "parameter:P")});
    Procedure(graph, map["set" := "set", "insert" := "insert"],
              Facts(map["insert" := ["P"]], map[], {"P"}, map[], {}, map[], map[]))
  }

  function InsertP(): Bundle {
    Bundle(["insert"], [], {}, false, false, false)
  }

  lemma {:induction false} BranchPaths()
    ensures WellFormed(Branch()) && NodesAreNodes(Branch())
    ensures ArrivesUnset(Branch(), Use("insert", "P")) && LastOnPath(Branch(), Use("insert", "P"), "set")
  {
    var p, u := Branch(), Use("insert", "P");
    assert PathTo(p, u, ["entry", "if", "insert"]) && Unset(p.graph, ["entry", "if", "insert"], "P");
    var path := ["entry", "if", "set", "insert"];
    assert Flow.IsPath(p.graph, path) && path[|path| - 1] == "insert";
    assert path[|path| - 2] == "set" && Flow.Fact("P", "set") in Flow.Generated(p.graph, "set");
    assert Flow.Carried(p.graph, path, Flow.Fact("P", "set"));
  }

  /** Every use in the slice of the INSERT is resolved, and P is not named, although its value on entry
      can be what is inserted. */
  lemma {:induction false} AssignedParameterIsMissed()
    ensures var p, b := Branch(), InsertP();
      && WellFormed(p) && (forall u :: InPathSlice(p, b, u) ==> PathResolved(p, u))
      && Owed(p, b, "P") && !Named(p, b, "P")
  {
    hide LastOnPath, ArrivesUnset;
    BranchPaths();
    var p, b, u := Branch(), InsertP(), Use("insert", "P");
    assert IsPathChain(p, b, [u]) && [u][|[u]| - 1] == u;
    forall v | InPathSlice(p, b, v) ensures v == u {
      var c :| IsPathChain(p, b, c) && c[|c| - 1] == v;
      assert |c| > 1 ==> PathFollows(p, c[|c| - 2], c[|c| - 1]);
      assert IsUse(p.facts, v);
    }
  }
}
