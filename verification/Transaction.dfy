/** Transaction survival of a data change: the search for the first boundaries behind it. */
module Transaction {
  import opened Basics

  type Node = string
  type Ref = string

  datatype PathOutcome =
    | ExplicitCommit | CommitOnReturn | ExplicitRollback
    | CallerContractCommit | CallerContractRollback
    | NormalExitCallerControlled | ExceptionalEscape
    | NoTerminalPath

  datatype Role = Commit | Rollback | Ordinary

  datatype Successor = Successor(target: Node, isHandler: bool)

  /** The graph as the search reads it.  A node without an entry in astRef is synthetic. */
  datatype Graph = Graph(nodes: set<Node>, successors: map<Node, seq<Successor>>,
                         normalExit: Node, exceptionalExit: Node,
                         astRef: map<Node, Ref>, roles: map<Ref, Role>)

  /** COMMIT ON RETURN YES, and whether a caller transaction contract was supplied. */
  datatype Policy = Policy(commitOnReturn: bool, callerContract: bool)

  datatype Boundary = Boundary(outcome: PathOutcome, ref: Ref)

  predicate WellFormed(g: Graph) {
    forall n | n in g.successors :: forall s | s in g.successors[n] :: s.target in g.nodes
  }

  function SuccessorsOf(g: Graph, n: Node): seq<Successor> {
    if n in g.successors then g.successors[n] else []
  }

  function RoleOf(g: Graph, n: Node): Role {
    if n in g.astRef && g.astRef[n] in g.roles then g.roles[g.astRef[n]] else Ordinary
  }

  /** The boundary that control meets at n.  The data change itself is never a COMMIT or ROLLBACK. */
  function BoundaryAt(g: Graph, policy: Policy, n: Node, isSource: bool): Option<Boundary> {
    if n == g.normalExit then
      Some(Boundary(if policy.commitOnReturn then CommitOnReturn
                    else if policy.callerContract then CallerContractCommit
                    else NormalExitCallerControlled, n))
    else if n == g.exceptionalExit then
      Some(Boundary(if policy.callerContract then CallerContractRollback else ExceptionalEscape, n))
    else if isSource then None
    else match RoleOf(g, n)
      case Commit => Some(Boundary(ExplicitCommit, g.astRef[n]))
      case Rollback => Some(Boundary(ExplicitRollback, g.astRef[n]))
      case Ordinary => None
  }

  // ----- the reference: paths up to their first boundary -----

  /** Control can go from a to b.  A handler edge out of the data change itself stands for
      its failure and is not followed. */
  predicate Follows(g: Graph, a: Node, isSource: bool, b: Node) {
    exists s :: s in SuccessorsOf(g, a) && s.target == b && !(isSource && s.isHandler)
  }

  /** p starts at the data change and meets no boundary before its last node. */
  ghost predicate OpenPath(g: Graph, policy: Policy, source: Node, p: seq<Node>) {
    && p != [] && p[0] == source
    && forall i | 0 <= i < |p| - 1 ::
         BoundaryAt(g, policy, p[i], i == 0) == None && Follows(g, p[i], i == 0, p[i + 1])
  }

  /** b is the first boundary on some path from the data change. */
  ghost predicate FirstBoundary(g: Graph, policy: Policy, source: Node, b: Boundary) {
    exists p :: OpenPath(g, policy, source, p) && BoundaryAt(g, policy, p[|p| - 1], |p| == 1) == Some(b)
  }

  // ----- where paths end -----

  predicate AtNormalExit(g: Graph, p: seq<Node>) {
    p != [] && p[|p| - 1] == g.normalExit
  }

  predicate AtExceptionalExit(g: Graph, p: seq<Node>) {
    p != [] && p[|p| - 1] == g.exceptionalExit != g.normalExit
  }

  /** p ends at a statement with that role; the statement of the data change itself has none. */
  predicate AtRole(g: Graph, p: seq<Node>, role: Role) {
    |p| > 1 &&
      var n := p[|p| - 1];
      && n != g.normalExit && n != g.exceptionalExit
      && n in g.astRef && g.astRef[n] in g.roles && g.roles[g.astRef[n]] == role
  }

  /** p ends at an exit, a COMMIT or a ROLLBACK. */
  predicate Ends(g: Graph, p: seq<Node>) {
    AtNormalExit(g, p) || AtExceptionalExit(g, p) || AtRole(g, p, Commit) || AtRole(g, p, Rollback)
  }

  /** p does not end at position i, and an edge leads on, from the data change itself one other than to
      its handlers. */
  predicate GoesOn(g: Graph, p: seq<Node>, i: nat)
    requires i + 1 < |p|
  {
    && !Ends(g, p[..i + 1]) && p[i] in g.successors
    && exists s | s in g.successors[p[i]] :: s.target == p[i + 1] && (i == 0 ==> !s.isHandler)
  }

  /** p leads from the data change to the first exit, COMMIT or ROLLBACK on it. */
  ghost predicate EndingPath(g: Graph, source: Node, p: seq<Node>) {
    && p != [] && p[0] == source && Ends(g, p)
    && forall i | 0 <= i < |p| - 1 :: GoesOn(g, p, i)
  }

  /** What an ending path means for the data change. */
  ghost predicate Means(g: Graph, policy: Policy, p: seq<Node>, o: PathOutcome) {
    match o
    case ExplicitCommit => AtRole(g, p, Commit)
    case ExplicitRollback => AtRole(g, p, Rollback)
    case CommitOnReturn => AtNormalExit(g, p) && policy.commitOnReturn
    case CallerContractCommit => AtNormalExit(g, p) && !policy.commitOnReturn && policy.callerContract
    case NormalExitCallerControlled => AtNormalExit(g, p) && !policy.commitOnReturn && !policy.callerContract
    case CallerContractRollback => AtExceptionalExit(g, p) && policy.callerContract
    case ExceptionalEscape => AtExceptionalExit(g, p) && !policy.callerContract
    case NoTerminalPath => false
  }

  lemma {:induction false} BoundaryMeans(g: Graph, policy: Policy, p: seq<Node>)
    requires p != []
    ensures var b := BoundaryAt(g, policy, p[|p| - 1], |p| == 1);
      && (b == None <==> !Ends(g, p))
      && (b != None ==> forall o :: Means(g, policy, p, o) <==> o == b.value.outcome)
  {
  }

  lemma {:induction false} StepMeans(g: Graph, policy: Policy, p: seq<Node>, i: nat)
    requires i + 1 < |p|
    ensures GoesOn(g, p, i) <==> BoundaryAt(g, policy, p[i], i == 0) == None && Follows(g, p[i], i == 0, p[i + 1])
  {
    hide BoundaryAt, Ends;
    var q := p[..i + 1];
    assert q[|q| - 1] == p[i] && (|q| == 1 <==> i == 0);
    BoundaryMeans(g, policy, q);
  }

  lemma {:induction false} OpenPathEnds(g: Graph, policy: Policy, source: Node, p: seq<Node>)
    ensures EndingPath(g, source, p) <==>
      OpenPath(g, policy, source, p) && BoundaryAt(g, policy, p[|p| - 1], |p| == 1) != None
  {
    hide BoundaryAt, Ends, Follows;
    if p != [] {
      BoundaryMeans(g, policy, p);
      if EndingPath(g, source, p) {
        forall i | 0 <= i < |p| - 1
          ensures BoundaryAt(g, policy, p[i], i == 0) == None && Follows(g, p[i], i == 0, p[i + 1])
        {
          assert GoesOn(g, p, i);
          StepMeans(g, policy, p, i);
        }
      }
      if OpenPath(g, policy, source, p) {
        forall i | 0 <= i < |p| - 1 ensures GoesOn(g, p, i) {
          assert BoundaryAt(g, policy, p[i], i == 0) == None && Follows(g, p[i], i == 0, p[i + 1]);
          StepMeans(g, policy, p, i);
        }
      }
    }
  }

  /** Every first boundary is how some path from the data change ends. */
  lemma {:induction false} BoundaryIsMet(g: Graph, policy: Policy, source: Node, b: Boundary) returns (p: seq<Node>)
    requires FirstBoundary(g, policy, source, b)
    ensures EndingPath(g, source, p) && Means(g, policy, p, b.outcome)
  {
    hide BoundaryAt, EndingPath, Means;
    p :| OpenPath(g, policy, source, p) && BoundaryAt(g, policy, p[|p| - 1], |p| == 1) == Some(b);
    OpenPathEnds(g, policy, source, p);
    BoundaryMeans(g, policy, p);
  }

  /** Every path that ends does so in one way, and at a first boundary. */
  lemma {:induction false} EndIsBoundary(g: Graph, policy: Policy, source: Node, p: seq<Node>) returns (b: Boundary)
    requires EndingPath(g, source, p)
    ensures FirstBoundary(g, policy, source, b) && forall o :: Means(g, policy, p, o) <==> o == b.outcome
  {
    hide BoundaryAt, EndingPath, Means;
    OpenPathEnds(g, policy, source, p);
    BoundaryMeans(g, policy, p);
    b := BoundaryAt(g, policy, p[|p| - 1], |p| == 1).value;
  }

  // ----- the search -----

  type Visit = (Node, bool)

  ghost predicate Arrives(g: Graph, policy: Policy, source: Node, v: Visit) {
    exists p :: OpenPath(g, policy, source, p) && p[|p| - 1] == v.0 && (|p| == 1 <==> v.1)
  }

  /** v has been handled: its boundary is recorded, or its successors are on their way. */
  ghost predicate Handled(g: Graph, policy: Policy, v: Visit, seen: set<Visit>,
                          outcomes: set<PathOutcome>, boundaries: set<Ref>) {
    match BoundaryAt(g, policy, v.0, v.1)
    case Some(b) => b.outcome in outcomes && b.ref in boundaries
    case None => forall n | Follows(g, v.0, v.1, n) :: (n, false) in seen
  }

  ghost predicate Justified(g: Graph, policy: Policy, source: Node,
                            outcomes: set<PathOutcome>, boundaries: set<Ref>) {
    && (forall o | o in outcomes :: exists ref :: FirstBoundary(g, policy, source, Boundary(o, ref)))
    && (forall ref | ref in boundaries :: exists o :: FirstBoundary(g, policy, source, Boundary(o, ref)))
  }

  lemma {:induction false} ExtendArrival(g: Graph, policy: Policy, source: Node, v: Visit, n: Node)
    requires Arrives(g, policy, source, v) && BoundaryAt(g, policy, v.0, v.1) == None && Follows(g, v.0, v.1, n)
    ensures Arrives(g, policy, source, (n, false))
  {
    var p :| OpenPath(g, policy, source, p) && p[|p| - 1] == v.0 && (|p| == 1 <==> v.1);
    var q := p + [n];
    assert forall i | 0 <= i < |p| :: q[i] == p[i];
    assert OpenPath(g, policy, source, q) && q[|q| - 1] == n;
  }

  /** Once everything seen is handled, every open path has been followed to its end. */
  lemma {:induction false} FollowedToTheEnd(g: Graph, policy: Policy, source: Node, p: seq<Node>, seen: set<Visit>,
                                            outcomes: set<PathOutcome>, boundaries: set<Ref>)
    requires (source, true) in seen
    requires forall v | v in seen :: Handled(g, policy, v, seen, outcomes, boundaries)
    requires OpenPath(g, policy, source, p)
    ensures (p[|p| - 1], |p| == 1) in seen
  {
    if |p| > 1 {
      var n := |p| - 1;
      var q := p[..n];
      assert forall i | 0 <= i < n :: q[i] == p[i];
      FollowedToTheEnd(g, policy, source, q, seen, outcomes, boundaries);
      assert Handled(g, policy, (p[n - 1], n == 1), seen, outcomes, boundaries);
    }
  }

  function Elements(stack: seq<Visit>): set<Visit> {
    set v | v in stack
  }

  /** seen is everything visited or still on the stack. */
  ghost predicate Searching(g: Graph, policy: Policy, source: Node, visited: set<Visit>, seen: set<Visit>,
                            outcomes: set<PathOutcome>, boundaries: set<Ref>) {
    && visited <= seen && (source, true) in seen
    && (forall v | v in seen :: v.0 in g.nodes && Arrives(g, policy, source, v))
    && (forall v | v in visited :: Handled(g, policy, v, seen, outcomes, boundaries))
    && Justified(g, policy, source, outcomes, boundaries)
  }

  lemma {:induction false} RecordBoundary(g: Graph, policy: Policy, source: Node, visited: set<Visit>, seen: set<Visit>,
                       outcomes: set<PathOutcome>, boundaries: set<Ref>, v: Visit, b: Boundary)
    requires Searching(g, policy, source, visited, seen, outcomes, boundaries)
    requires v in seen && BoundaryAt(g, policy, v.0, v.1) == Some(b)
    ensures Searching(g, policy, source, visited + {v}, seen, outcomes + {b.outcome}, boundaries + {b.ref})
  {
    assert FirstBoundary(g, policy, source, b);
    assert b == Boundary(b.outcome, b.ref);
    forall x | x in visited + {v} ensures Handled(g, policy, x, seen, outcomes + {b.outcome}, boundaries + {b.ref}) {
      if x != v {
        assert Handled(g, policy, x, seen, outcomes, boundaries);
      }
    }
  }

  lemma {:induction false} Expand(g: Graph, policy: Policy, source: Node, visited: set<Visit>, seen: set<Visit>,
                                  more: set<Visit>,
               outcomes: set<PathOutcome>, boundaries: set<Ref>, v: Visit)
    requires Searching(g, policy, source, visited, seen, outcomes, boundaries)
    requires v in seen && BoundaryAt(g, policy, v.0, v.1) == None
    requires seen <= more && forall n | Follows(g, v.0, v.1, n) :: (n, false) in more
    requires forall x | x in more :: x in seen || (x.0 in g.nodes && Arrives(g, policy, source, x))
    ensures Searching(g, policy, source, visited + {v}, more, outcomes, boundaries)
  {
    forall x | x in visited + {v} ensures Handled(g, policy, x, more, outcomes, boundaries) {
      if x != v {
        assert Handled(g, policy, x, seen, outcomes, boundaries);
      }
    }
  }

  lemma {:induction false} SearchIsDone(g: Graph, policy: Policy, source: Node, visited: set<Visit>,
                     outcomes: set<PathOutcome>, boundaries: set<Ref>, b: Boundary)
    requires Searching(g, policy, source, visited, visited, outcomes, boundaries)
    requires FirstBoundary(g, policy, source, b)
    ensures b.outcome in outcomes && b.ref in boundaries
  {
    var p :| OpenPath(g, policy, source, p) && BoundaryAt(g, policy, p[|p| - 1], |p| == 1) == Some(b);
    FollowedToTheEnd(g, policy, source, p, visited, outcomes, boundaries);
    assert Handled(g, policy, (p[|p| - 1], |p| == 1), visited, outcomes, boundaries);
  }

  /** The search returns exactly the first boundaries over all paths from the data change. */
  method FirstBoundaries(g: Graph, policy: Policy, source: Node)
    returns (outcomes: set<PathOutcome>, boundaries: set<Ref>)
    requires WellFormed(g) && source in g.nodes
    ensures forall o :: o in outcomes <==> exists ref :: FirstBoundary(g, policy, source, Boundary(o, ref))
    ensures forall ref :: ref in boundaries <==> exists o :: FirstBoundary(g, policy, source, Boundary(o, ref))
  {
    outcomes, boundaries := {}, {};
    var stack: seq<Visit> := [(source, true)];
    var visited: set<Visit> := {};
    ghost var all := set n, b | n in g.nodes && b in {true, false} :: (n, b);
    assert OpenPath(g, policy, source, [source]) && Arrives(g, policy, source, (source, true));
    while stack != []
      invariant Searching(g, policy, source, visited, visited + Elements(stack), outcomes, boundaries)
      decreases all - visited, |stack|
    {
      var v := stack[|stack| - 1];
      ghost var seen := visited + Elements(stack);
      stack := stack[..|stack| - 1];
      assert seen == visited + {v} + Elements(stack);
      if v !in visited {
        assert v in all;
        ghost var before := visited;
        visited := visited + {v};
        match BoundaryAt(g, policy, v.0, v.1) {
          case Some(b) =>
            RecordBoundary(g, policy, source, before, seen, outcomes, boundaries, v, b);
            outcomes, boundaries := outcomes + {b.outcome}, boundaries + {b.ref};
          case None =>
            stack := PushSuccessors(g, policy, source, v, stack);
            Expand(g, policy, source, before, seen, visited + Elements(stack), outcomes, boundaries, v);
        }
      } else {
        assert seen == visited + Elements(stack);
      }
    }
    assert visited + Elements(stack) == visited;
    forall b | FirstBoundary(g, policy, source, b) ensures b.outcome in outcomes && b.ref in boundaries {
      SearchIsDone(g, policy, source, visited, outcomes, boundaries, b);
    }
  }

  /** Pushes the successors of v, last one first, so that the first is searched first. */
  method PushSuccessors(g: Graph, ghost policy: Policy, ghost source: Node, v: Visit, stack: seq<Visit>)
    returns (r: seq<Visit>)
    requires WellFormed(g)
    requires Arrives(g, policy, source, v) && BoundaryAt(g, policy, v.0, v.1) == None
    ensures |stack| <= |r| && stack == r[..|stack|]
    ensures forall n | Follows(g, v.0, v.1, n) :: (n, false) in r
    ensures forall x | x in r :: x in stack || (x.0 in g.nodes && Arrives(g, policy, source, x))
  {
    r := stack;
    var ss := SuccessorsOf(g, v.0);
    var i := |ss|;
    while i > 0
      invariant 0 <= i <= |ss|
      invariant |stack| <= |r| && stack == r[..|stack|]
      invariant forall j | i <= j < |ss| && !(v.1 && ss[j].isHandler) :: (ss[j].target, false) in r
      invariant forall x | x in r :: x in stack || (x.0 in g.nodes && Arrives(g, policy, source, x))
    {
      i := i - 1;
      if !(v.1 && ss[i].isHandler) {
        ExtendArrival(g, policy, source, v, ss[i].target);
        ghost var before := r;
        r := r + [(ss[i].target, false)];
        assert forall x | x in before :: x in r;
      }
    }
  }
}
