/** The control-flow graph builder, a continuation-passing compiler from procedure trees to
    edge sets: the paths of the graph are exactly the runs of the tree. */
module Cfg {
  import opened Basics
  import opened ProcedureTree

  /** Graph node names.  The builder derives them from digests and prefixes; the
      constructors stand for that injective naming. */
  datatype NodeRef = Entry | NormalExit | ExceptionalExit | Ast(id: NodeId) | HandlerExit(handler: NodeId)

  datatype EdgeKind =
    | EntryEdge | Sequential | IfArm | IfNoMatch | LoopBody | LoopExit
    | ReturnEdge | SignalEdge | ResignalEdge | LeaveEdge | IterateEdge
    | HandlerBody | HandlerFallthrough | Handles

  datatype Edge = Edge(source: NodeRef, target: NodeRef, kind: EdgeKind, branchIndex: Option<nat>)

  /** A region that a LEAVE or an ITERATE inside it may name. */
  datatype Context = Context(exit: NodeRef, tag: Option<string>, header: Option<NodeRef>)

  predicate IsExit(n: NodeRef) {
    n == NormalExit || n == ExceptionalExit
  }

  // ----- pure helpers of the builder -----

  /** The truth of a condition, when it compares two literals of one type. */
  function LiteralTruth(c: Condition): Option<bool> {
    match c
    case LiteralComparison(a, op, b) => if a.Number? == b.Number? then Some(Compare(a, op, b)) else None
    case _ => None
  }

  function ArmTruth(arm: Arm): (truth: Option<bool>)
    ensures truth == Some(true) <==> !CanEvaluateTo(arm, false)
    ensures truth == Some(false) <==> !CanEvaluateTo(arm, true)
  {
    if arm.isElse then Some(true) else LiteralTruth(arm.condition)
  }

  predicate IsCandidate(c: Context, target: Option<string>, iterate: bool) {
    (target == None || c.tag == target) && (iterate ==> c.header != None)
  }

  /** The graph node that a jump goes to, seen from the innermost context outwards. */
  function ResolveControlTarget(target: Option<string>, stack: seq<Context>, iterate: bool): NodeRef {
    if stack == [] then
      if !iterate && target != None then NormalExit else ExceptionalExit
    else
      var c := stack[|stack| - 1];
      if IsCandidate(c, target, iterate) then
        if iterate && c.header != None then c.header.value else c.exit
      else
        ResolveControlTarget(target, stack[..|stack| - 1], iterate)
  }

  // ----- what the builder adds -----

  function EntryOf(s: Stmt, k: NodeRef): NodeRef {
    if s.Declaration? then k else Ast(s.id)
  }

  function EntrySeq(ss: seq<Stmt>, k: NodeRef): NodeRef {
    if ss == [] then k else EntryOf(ss[0], EntrySeq(ss[1..], k))
  }

  function CompoundContext(s: Stmt, k: NodeRef): Context
    requires s.Compound?
  {
    Context(k, s.tag, None)
  }

  function LoopContext(s: Stmt, k: NodeRef): Context
    requires s.Loop?
  {
    Context(k, s.tag, Some(Ast(s.id)))
  }

  function Plain(source: NodeId, target: NodeRef, kind: EdgeKind): Edge {
    Edge(Ast(source), target, kind, None)
  }

  /** The edges from an IF to those of its first n arms that a run can take. */
  ghost function ArmChoices(id: NodeId, arms: seq<Arm>, n: nat): set<Edge>
    requires n <= |arms|
  {
    set i | 0 <= i < n && CanTake(arms, i) :: Edge(Ast(id), Ast(arms[i].id), IfArm, Some(i))
  }

  /** The edges that leave the node of s itself. */
  ghost function OwnEdges(s: Stmt, k: NodeRef, stack: seq<Context>): set<Edge> {
    match s
    case Declaration(_) => {}
    case Simple(id) => {Plain(id, k, Sequential)}
    case Return(id) => {Plain(id, NormalExit, ReturnEdge)}
    case Signal(id) => {Plain(id, ExceptionalExit, SignalEdge)}
    case Resignal(id) => {Plain(id, ExceptionalExit, ResignalEdge)}
    case Leave(id, target) => {Plain(id, ResolveControlTarget(target, stack, false), LeaveEdge)}
    case Iterate(id, target) => {Plain(id, ResolveControlTarget(target, stack, true), IterateEdge)}
    case Compound(id, tag, body) => {Plain(id, EntrySeq(body, k), Sequential)}
    case Loop(id, tag, kind, body) =>
      {Plain(id, EntrySeq(body, Ast(id)), LoopBody)} + (if kind != LOOP then {Plain(id, k, LoopExit)} else {})
    case If(id, arms) =>
      ArmChoices(id, arms, |arms|)
      + (if CanFallThrough(arms) then {Plain(id, k, IfNoMatch)} else {})
  }

  /** The edges that leave a node inside s. */
  ghost function InnerEdges(s: Stmt, k: NodeRef, stack: seq<Context>): set<Edge>
    decreases s, 0
  {
    match s
    case Compound(id, tag, body) => EdgesSeq(body, k, stack + [CompoundContext(s, k)])
    case Loop(id, tag, kind, body) => EdgesSeq(body, Ast(id), stack + [LoopContext(s, k)])
    case If(id, arms) => EdgesArms(arms, k, stack)
    case _ => {}
  }

  ghost function Edges(s: Stmt, k: NodeRef, stack: seq<Context>): set<Edge>
    decreases s, 1
  {
    OwnEdges(s, k, stack) + InnerEdges(s, k, stack)
  }

  ghost function EdgesSeq(ss: seq<Stmt>, k: NodeRef, stack: seq<Context>): set<Edge>
    decreases ss, 2
  {
    if ss == [] then {} else Edges(ss[0], EntrySeq(ss[1..], k), stack) + EdgesSeq(ss[1..], k, stack)
  }

  ghost function ArmEdges(arm: Arm, k: NodeRef, stack: seq<Context>): set<Edge>
    decreases arm, 3
  {
    {Plain(arm.id, EntrySeq(arm.body, k), Sequential)} + EdgesSeq(arm.body, k, stack)
  }

  ghost function EdgesArms(arms: seq<Arm>, k: NodeRef, stack: seq<Context>): set<Edge>
    decreases arms, 4
  {
    if arms == [] then {} else ArmEdges(arms[0], k, stack) + EdgesArms(arms[1..], k, stack)
  }

  ghost function ProgramEdges(body: seq<Stmt>): set<Edge> {
    {Edge(Entry, EntrySeq(body, NormalExit), EntryEdge, None)} + EdgesSeq(body, NormalExit, [])
  }

  // ----- paths -----

  ghost predicate Step(E: set<Edge>, a: NodeRef, b: NodeRef) {
    exists e :: e in E && e.source == a && e.target == b
  }

  ghost predicate IsPath(E: set<Edge>, p: seq<NodeRef>) {
    && p != []
    && forall i | 0 <= i < |p| - 1 :: Step(E, p[i], p[i + 1])
  }

  function Nodes(t: seq<NodeId>): (p: seq<NodeRef>)
    ensures |p| == |t| && forall i | 0 <= i < |t| :: p[i] == Ast(t[i])
  {
    seq(|t|, i requires 0 <= i < |t| => Ast(t[i]))
  }

  /** Where control goes when a statement with continuation k ends in o. */
  function Target(o: Outcome, k: NodeRef, stack: seq<Context>): NodeRef {
    match o
    case Normal => k
    case Returned => NormalExit
    case Raised => ExceptionalExit
    case Leaving(target) => ResolveControlTarget(target, stack, false)
    case Iterating(target) => ResolveControlTarget(target, stack, true)
  }

  lemma {:induction false} CompoundTarget(s: Stmt, k: NodeRef, stack: seq<Context>, o: Outcome)
    requires s.Compound?
    ensures Target(o, k, stack + [CompoundContext(s, k)])
         == Target(if StopsLeave(s.tag, o) then Normal else o, k, stack)
  {
    var c := CompoundContext(s, k);
    assert (stack + [c])[..|stack|] == stack;
  }

  lemma {:induction false} LoopTarget(s: Stmt, k: NodeRef, stack: seq<Context>, o: Outcome)
    requires s.Loop?
    ensures Target(o, Ast(s.id), stack + [LoopContext(s, k)])
         == if Repeats(s.tag, o) then Ast(s.id)
            else Target(if StopsLeave(s.tag, o) then Normal else o, k, stack)
  {
    var c := LoopContext(s, k);
    assert (stack + [c])[..|stack|] == stack;
  }

  // ----- every run is a path -----

  lemma {:induction false} ConcatPath(E: set<Edge>, t: seq<NodeId>, mid: NodeRef, q: seq<NodeRef>)
    requires IsPath(E, Nodes(t) + [mid]) && IsPath(E, q) && q[0] == mid
    ensures IsPath(E, Nodes(t) + q)
  {
    var p := Nodes(t) + q;
    forall i | 0 <= i < |p| - 1
      ensures Step(E, p[i], p[i + 1])
    {
      if i < |t| {
        assert p[i] == (Nodes(t) + [mid])[i] && p[i + 1] == (Nodes(t) + [mid])[i + 1];
      } else {
        assert p[i] == q[i - |t|] && p[i + 1] == q[i + 1 - |t|];
      }
    }
  }

  lemma {:induction false} PrependStep(E: set<Edge>, e: Edge, p: seq<NodeRef>)
    requires e in E && IsPath(E, p) && p[0] == e.target
    ensures IsPath(E, [e.source] + p)
  {
    var q := [e.source] + p;
    forall i | 0 <= i < |q| - 1
      ensures Step(E, q[i], q[i + 1])
    {
      if i > 0 {
        assert q[i] == p[i - 1] && q[i + 1] == p[i];
      }
    }
  }

  ghost function PathOf(t: seq<NodeId>, o: Outcome, k: NodeRef, stack: seq<Context>): seq<NodeRef> {
    Nodes(t) + [Target(o, k, stack)]
  }

  lemma {:induction false} RunIsPath(s: Stmt, k: NodeRef, stack: seq<Context>, E: set<Edge>, t: seq<NodeId>, o: Outcome)
    requires Edges(s, k, stack) <= E
    requires Runs(s, t, o)
    ensures IsPath(E, PathOf(t, o, k, stack)) && PathOf(t, o, k, stack)[0] == EntryOf(s, k)
    decreases |t|, s
  {
    match s
    case Declaration(_) =>
    case Compound(_, _, _) => RunCompoundIsPath(s, k, stack, E, t, o);
    case If(_, _) => RunIfIsPath(s, k, stack, E, t, o);
    case Loop(_, _, _, _) => RunLoopIsPath(s, k, stack, E, t, o);
    case _ =>
      var e :| e in OwnEdges(s, k, stack);
      PrependStep(E, e, [e.target]);
      assert PathOf(t, o, k, stack) == [Ast(s.id)] + [e.target];
  }

  lemma {:induction false} RunCompoundIsPath(s: Stmt, k: NodeRef, stack: seq<Context>, E: set<Edge>, t: seq<NodeId>,
                                             o: Outcome)
    requires s.Compound?
    requires Edges(s, k, stack) <= E
    requires Runs(s, t, o)
    ensures IsPath(E, PathOf(t, o, k, stack)) && PathOf(t, o, k, stack)[0] == Ast(s.id)
    decreases |t|, s, 0
  {
    hide Edges, EdgesSeq, IsPath, Target, StopsLeave;
    var ob :| RunsSeq(s.body, t[1..], ob) && o == (if StopsLeave(s.tag, ob) then Normal else ob);
    var inner := stack + [CompoundContext(s, k)];
    CompoundEdges(s, k, stack);
    CompoundTarget(s, k, stack, ob);
    RunSeqIsPath(s.body, k, inner, E, t[1..], ob);
    PrependStep(E, Plain(s.id, EntrySeq(s.body, k), Sequential), PathOf(t[1..], ob, k, inner));
    assert PathOf(t, o, k, stack) == [Ast(s.id)] + PathOf(t[1..], ob, k, inner);
  }

  lemma {:induction false} CompoundEdges(s: Stmt, k: NodeRef, stack: seq<Context>)
    requires s.Compound?
    ensures EdgesSeq(s.body, k, stack + [CompoundContext(s, k)]) <= Edges(s, k, stack)
    ensures Plain(s.id, EntrySeq(s.body, k), Sequential) in Edges(s, k, stack)
  {
    hide EdgesSeq;
  }

  lemma {:induction false} RunIfIsPath(s: Stmt, k: NodeRef, stack: seq<Context>, E: set<Edge>, t: seq<NodeId>,
                                       o: Outcome)
    requires s.If?
    requires Edges(s, k, stack) <= E
    requires Runs(s, t, o)
    ensures IsPath(E, PathOf(t, o, k, stack)) && PathOf(t, o, k, stack)[0] == Ast(s.id)
    decreases |t|, s, 0
  {
    hide Edges, EdgesSeq, IsPath, Target, CanTake, CanFallThrough;
    if t == [s.id] && o == Normal && CanFallThrough(s.arms) {
      NoArmIsPath(s, k, stack, E);
    } else {
      var i :| 0 <= i < |s.arms| && CanTake(s.arms, i) && t[1] == s.arms[i].id && RunsSeq(s.arms[i].body, t[2..], o);
      ArmEdgesIn(s, i, k, stack);
      RunSeqIsPath(s.arms[i].body, k, stack, E, t[2..], o);
      TakenArmIsPath(s, i, k, stack, E, t, o);
    }
  }

  lemma {:induction false} NoArmIsPath(s: Stmt, k: NodeRef, stack: seq<Context>, E: set<Edge>)
    requires s.If? && CanFallThrough(s.arms) && Edges(s, k, stack) <= E
    ensures var p := PathOf([s.id], Normal, k, stack); IsPath(E, p) && p[0] == Ast(s.id)
  {
    hide CanFallThrough, IsPath;
    OneNodePath(E, k);
    PrependStep(E, Plain(s.id, k, IfNoMatch), [k]);
    assert PathOf([s.id], Normal, k, stack) == [Ast(s.id)] + [k];
  }

  lemma {:induction false} OneNodePath(E: set<Edge>, k: NodeRef)
    ensures IsPath(E, [k])
  {
  }

  lemma {:induction false} TakenArmIsPath(s: Stmt, i: nat, k: NodeRef, stack: seq<Context>, E: set<Edge>,
                                          t: seq<NodeId>, o: Outcome)
    requires s.If? && i < |s.arms| && CanTake(s.arms, i) && Edges(s, k, stack) <= E
    requires |t| >= 2 && t[0] == s.id && t[1] == s.arms[i].id
    requires var q := PathOf(t[2..], o, k, stack); IsPath(E, q) && q[0] == EntrySeq(s.arms[i].body, k)
    ensures var p := PathOf(t, o, k, stack); IsPath(E, p) && p[0] == Ast(s.id)
  {
    hide Edges, EdgesSeq, IsPath, Target, CanTake;
    var arm := s.arms[i];
    ArmEdgesIn(s, i, k, stack);
    TwoSteps(E, Edge(Ast(s.id), Ast(arm.id), IfArm, Some(i)), Plain(arm.id, EntrySeq(arm.body, k), Sequential),
             PathOf(t[2..], o, k, stack));
    assert PathOf(t, o, k, stack) == [Ast(s.id), Ast(arm.id)] + PathOf(t[2..], o, k, stack);
  }

  /** The edges along an arm that can be taken. */
  lemma {:induction false} ArmEdgesIn(s: Stmt, i: nat, k: NodeRef, stack: seq<Context>)
    requires s.If? && i < |s.arms| && CanTake(s.arms, i)
    ensures
      var arm, E := s.arms[i], Edges(s, k, stack);
      && Edge(Ast(s.id), Ast(arm.id), IfArm, Some(i)) in E
      && Plain(arm.id, EntrySeq(arm.body, k), Sequential) in E
      && EdgesSeq(arm.body, k, stack) <= E
  {
    hide EdgesSeq, CanTake;
    ArmEdgesIncluded(s.arms, i, k, stack);
    assert Edge(Ast(s.id), Ast(s.arms[i].id), IfArm, Some(i)) in OwnEdges(s, k, stack);
  }

  lemma {:induction false} TwoSteps(E: set<Edge>, e: Edge, f: Edge, q: seq<NodeRef>)
    requires e in E && f in E && e.target == f.source && IsPath(E, q) && q[0] == f.target
    ensures IsPath(E, [e.source, f.source] + q)
  {
    PrependStep(E, f, q);
    PrependStep(E, e, [f.source] + q);
    assert [e.source, f.source] + q == [e.source] + ([f.source] + q);
  }

  /** A run of a loop that does not end at the header: one pass u through the body
      with outcome ob, and the rest v when the header is visited again. */
  lemma {:induction false} LoopRunParts(s: Stmt, t: seq<NodeId>, o: Outcome)
    returns (u: seq<NodeId>, ob: Outcome, v: seq<NodeId>)
    requires s.Loop? && Runs(s, t, o)
    requires !(t == [s.id] && o == Normal && s.kind != LOOP)
    ensures RunsSeq(s.body, u, ob) && t == [s.id] + u + v
    ensures if Repeats(s.tag, ob) then Runs(s, v, o)
            else v == [] && o == (if StopsLeave(s.tag, ob) then Normal else ob)
  {
    var n;
    n, ob :| 1 <= n <= |t| && RunsSeq(s.body, t[1..n], ob) &&
      if Repeats(s.tag, ob) then Runs(s, t[n..], o)
      else n == |t| && o == (if StopsLeave(s.tag, ob) then Normal else ob);
    u, v := t[1..n], t[n..];
  }

  lemma {:induction false} LoopEdges(s: Stmt, k: NodeRef, stack: seq<Context>, E: set<Edge>)
    requires s.Loop? && Edges(s, k, stack) <= E
    ensures EdgesSeq(s.body, Ast(s.id), stack + [LoopContext(s, k)]) <= E
    ensures Plain(s.id, EntrySeq(s.body, Ast(s.id)), LoopBody) in E
    ensures s.kind != LOOP ==> Plain(s.id, k, LoopExit) in E
  {
    assert EdgesSeq(s.body, Ast(s.id), stack + [LoopContext(s, k)]) == InnerEdges(s, k, stack);
  }

  lemma {:induction false} RunLoopIsPath(s: Stmt, k: NodeRef, stack: seq<Context>, E: set<Edge>, t: seq<NodeId>,
                                         o: Outcome)
    requires s.Loop?
    requires Edges(s, k, stack) <= E
    requires Runs(s, t, o)
    ensures IsPath(E, PathOf(t, o, k, stack)) && PathOf(t, o, k, stack)[0] == Ast(s.id)
    decreases |t|, s, 0
  {
    var h, inner := Ast(s.id), stack + [LoopContext(s, k)];
    LoopEdges(s, k, stack, E);
    if t == [s.id] && o == Normal && s.kind != LOOP {
      PrependStep(E, Plain(s.id, k, LoopExit), [k]);
      assert PathOf(t, o, k, stack) == [h] + [k];
    } else {
      var u, ob, v := LoopRunParts(s, t, o);
      RunSeqIsPath(s.body, h, inner, E, u, ob);
      LoopTarget(s, k, stack, ob);
      if Repeats(s.tag, ob) {
        RunLoopIsPath(s, k, stack, E, v, o);
      }
      LoopRoundPath(E, Plain(s.id, EntrySeq(s.body, h), LoopBody), u, Target(ob, h, inner), v, Target(o, k, stack));
    }
  }

  /** One pass from a loop header through its body, followed by what comes after it. */
  lemma {:induction false} LoopRoundPath(E: set<Edge>, e: Edge, u: seq<NodeId>, mid: NodeRef, v: seq<NodeId>,
                                         last: NodeRef)
    requires e in E && e.source.Ast?
    requires IsPath(E, Nodes(u) + [mid]) && (Nodes(u) + [mid])[0] == e.target
    requires if v == [] then mid == last else IsPath(E, Nodes(v) + [last]) && mid == Ast(v[0])
    ensures IsPath(E, Nodes([e.source.id] + u + v) + [last])
  {
    var rest := Nodes(v) + [last];
    if v == [] {
      assert Nodes(u) + rest == Nodes(u) + [mid];
    } else {
      ConcatPath(E, u, mid, rest);
    }
    PrependStep(E, e, Nodes(u) + rest);
    assert Nodes([e.source.id] + u + v) + [last] == [e.source] + (Nodes(u) + rest);
  }

  lemma {:induction false} RunSeqIsPath(ss: seq<Stmt>, k: NodeRef, stack: seq<Context>, E: set<Edge>, t: seq<NodeId>,
                                        o: Outcome)
    requires EdgesSeq(ss, k, stack) <= E
    requires RunsSeq(ss, t, o)
    ensures IsPath(E, PathOf(t, o, k, stack)) && PathOf(t, o, k, stack)[0] == EntrySeq(ss, k)
    decreases |t|, ss
  {
    hide Runs, Edges, EntryOf, Target;
    if ss != [] {
      var n, first :| 0 <= n <= |t| && Runs(ss[0], t[..n], first) &&
        if first == Normal then RunsSeq(ss[1..], t[n..], o) else n == |t| && o == first;
      var next := EntrySeq(ss[1..], k);
      RunIsPath(ss[0], next, stack, E, t[..n], first);
      if first == Normal {
        RunSeqIsPath(ss[1..], k, stack, E, t[n..], o);
        JoinPaths(E, t, n, o, next, k, stack);
      } else {
        assert t[..n] == t;
        SameTarget(first, next, k, stack);
      }
    } else {
      NormalTarget(k, stack);
    }
  }

  lemma {:induction false} NormalTarget(k: NodeRef, stack: seq<Context>)
    ensures Target(Normal, k, stack) == k
  {
  }

  lemma {:induction false} SameTarget(o: Outcome, j: NodeRef, k: NodeRef, stack: seq<Context>)
    requires o != Normal
    ensures Target(o, j, stack) == Target(o, k, stack)
  {
  }

  /** A run of the first statement that ends normally, and a run of the others, make one path. */
  lemma {:induction false} JoinPaths(E: set<Edge>, t: seq<NodeId>, n: nat, o: Outcome, next: NodeRef, k: NodeRef,
                                     stack: seq<Context>)
    requires n <= |t| && IsPath(E, PathOf(t[..n], Normal, next, stack))
    requires IsPath(E, PathOf(t[n..], o, k, stack)) && PathOf(t[n..], o, k, stack)[0] == next
    ensures IsPath(E, PathOf(t, o, k, stack)) && PathOf(t, o, k, stack)[0] == PathOf(t[..n], Normal, next, stack)[0]
  {
    hide IsPath, Target;
    NormalTarget(next, stack);
    ConcatPath(E, t[..n], next, PathOf(t[n..], o, k, stack));
    assert PathOf(t, o, k, stack) == Nodes(t[..n]) + PathOf(t[n..], o, k, stack);
  }

  lemma {:induction false} ArmEdgesIncluded(arms: seq<Arm>, i: nat, k: NodeRef, stack: seq<Context>)
    requires i < |arms|
    ensures ArmEdges(arms[i], k, stack) <= EdgesArms(arms, k, stack)
  {
    if i > 0 {
      ArmEdgesIncluded(arms[1..], i - 1, k, stack);
    }
  }

  // ----- every path is a run -----

  /** Every edge of E that leaves one of the given nodes is among the given edges. */
  ghost predicate Owns(E: set<Edge>, ids: set<NodeId>, edges: set<Edge>) {
    forall e | e in E && e.source.Ast? && e.source.id in ids :: e in edges
  }

  ghost predicate SourcesIn(edges: set<Edge>, ids: set<NodeId>) {
    forall e | e in edges :: e.source.Ast? && e.source.id in ids
  }

  lemma {:induction false} SourcesOf(s: Stmt, k: NodeRef, stack: seq<Context>)
    ensures SourcesIn(Edges(s, k, stack), Ids(s))
    decreases s, 0
  {
    match s
    case Compound(id, tag, body) => SourcesSeq(body, k, stack + [CompoundContext(s, k)]);
    case Loop(id, tag, kind, body) => SourcesSeq(body, Ast(id), stack + [LoopContext(s, k)]);
    case If(id, arms) => SourcesArms(arms, k, stack);
    case _ =>
  }

  lemma {:induction false} SourcesSeq(ss: seq<Stmt>, k: NodeRef, stack: seq<Context>)
    ensures SourcesIn(EdgesSeq(ss, k, stack), IdsSeq(ss))
    decreases ss, 1
  {
    if ss != [] {
      SourcesOf(ss[0], EntrySeq(ss[1..], k), stack);
      SourcesSeq(ss[1..], k, stack);
    }
  }

  lemma {:induction false} SourcesArms(arms: seq<Arm>, k: NodeRef, stack: seq<Context>)
    ensures SourcesIn(EdgesArms(arms, k, stack), IdsArms(arms))
    decreases arms, 2
  {
    if arms != [] {
      SourcesSeq(arms[0].body, k, stack);
      SourcesArms(arms[1..], k, stack);
    }
  }

  ghost function InnerIds(s: Stmt): set<NodeId> {
    match s
    case Compound(_, _, body) => IdsSeq(body)
    case Loop(_, _, _, body) => IdsSeq(body)
    case If(_, arms) => IdsArms(arms)
    case _ => {}
  }

  lemma {:induction false} InnerSources(s: Stmt, k: NodeRef, stack: seq<Context>)
    ensures SourcesIn(InnerEdges(s, k, stack), InnerIds(s))
  {
    match s
    case Compound(id, tag, body) => SourcesSeq(body, k, stack + [CompoundContext(s, k)]);
    case Loop(id, tag, kind, body) => SourcesSeq(body, Ast(id), stack + [LoopContext(s, k)]);
    case If(id, arms) => SourcesArms(arms, k, stack);
    case _ =>
  }

  lemma {:induction false} OwnSource(s: Stmt, k: NodeRef, stack: seq<Context>)
    ensures forall e | e in OwnEdges(s, k, stack) :: e.source == Ast(s.id)
  {
  }

  /** The edges of a statement split into those of its own node and those inside it. */
  lemma {:induction false} OwnsParts(s: Stmt, k: NodeRef, stack: seq<Context>, E: set<Edge>)
    requires !s.Declaration? && Distinct(s)
    requires Owns(E, Ids(s), Edges(s, k, stack))
    ensures Owns(E, {s.id}, OwnEdges(s, k, stack))
    ensures Owns(E, InnerIds(s), InnerEdges(s, k, stack))
  {
    InnerSources(s, k, stack);
    OwnSource(s, k, stack);
    assert Ids(s) == {s.id} + InnerIds(s);
    assert s.id !in InnerIds(s);
  }

  lemma {:induction false} SuffixPath(E: set<Edge>, p: seq<NodeRef>, n: nat)
    requires IsPath(E, p) && n < |p|
    ensures IsPath(E, p[n..])
  {
    var q := p[n..];
    forall i | 0 <= i < |q| - 1
      ensures Step(E, q[i], q[i + 1])
    {
      assert q[i] == p[n + i] && q[i + 1] == p[n + i + 1];
    }
  }

  /** A prefix of p follows the run t and then stands at the place where outcome o leads. */
  ghost predicate Follows(p: seq<NodeRef>, t: seq<NodeId>, o: Outcome, k: NodeRef, stack: seq<Context>) {
    |t| < |p| && p[..|t|] == Nodes(t) && p[|t|] == Target(o, k, stack)
  }

  lemma {:induction false} FollowsAfter(p: seq<NodeRef>, u: seq<NodeId>, v: seq<NodeId>, o: Outcome, k: NodeRef,
                                        stack: seq<Context>)
    requires |u| < |p| && p[..|u|] == Nodes(u)
    requires Follows(p[|u|..], v, o, k, stack)
    ensures Follows(p, u + v, o, k, stack)
  {
    assert p[..|u| + |v|] == p[..|u|] + p[|u|..][..|v|];
  }

  ghost predicate EndsAtExit(E: set<Edge>, p: seq<NodeRef>) {
    IsPath(E, p) && IsExit(p[|p| - 1])
  }

  lemma {:induction false} PathIsRun(s: Stmt, k: NodeRef, stack: seq<Context>, E: set<Edge>, p: seq<NodeRef>)
    returns (t: seq<NodeId>, o: Outcome)
    requires Distinct(s) && Owns(E, Ids(s), Edges(s, k, stack))
    requires EndsAtExit(E, p) && p[0] == EntryOf(s, k)
    ensures Runs(s, t, o) && Follows(p, t, o, k, stack)
    decreases |p|, s, 2
  {
    if s.Declaration? {
      return [], Normal;
    }
    OwnsParts(s, k, stack, E);
    assert Step(E, p[0], p[1]);
    var e :| e in OwnEdges(s, k, stack) && e.target == p[1];
    match s
    case Compound(_, _, _) => t, o := CompoundPathIsRun(s, k, stack, E, p);
    case If(id, arms) =>
      if e.kind == IfArm {
        t, o := IfPathIsRun(s, k, stack, E, p, e);
      } else {
        t, o := [id], Normal;
      }
    case Loop(id, _, _, _) =>
      if e.kind == LoopBody {
        t, o := LoopPathIsRun(s, k, stack, E, p);
      } else {
        t, o := [id], Normal;
      }
    case Simple(id) => t, o := [id], Normal;
    case Return(id) => t, o := [id], Returned;
    case Signal(id) => t, o := [id], Raised;
    case Resignal(id) => t, o := [id], Raised;
    case Leave(id, target) => t, o := [id], Leaving(target);
    case Iterate(id, target) => t, o := [id], Iterating(target);
  }

  lemma {:induction false} CompoundPathIsRun(s: Stmt, k: NodeRef, stack: seq<Context>, E: set<Edge>, p: seq<NodeRef>)
    returns (t: seq<NodeId>, o: Outcome)
    requires s.Compound? && DistinctSeq(s.body) && Owns(E, InnerIds(s), InnerEdges(s, k, stack))
    requires EndsAtExit(E, p) && p[0] == Ast(s.id)
    requires |p| > 1 && p[1] == EntrySeq(s.body, k)
    ensures Runs(s, t, o) && Follows(p, t, o, k, stack)
    decreases |p|, s, 1
  {
    SuffixPath(E, p, 1);
    var u, ob := PathIsRunSeq(s.body, k, stack + [CompoundContext(s, k)], E, p[1..]);
    CompoundTarget(s, k, stack, ob);
    t, o := [s.id] + u, if StopsLeave(s.tag, ob) then Normal else ob;
    assert t[1..] == u;
    FollowsAfter(p, [s.id], u, o, k, stack);
  }

  lemma {:induction false} IfPathIsRun(s: Stmt, k: NodeRef, stack: seq<Context>, E: set<Edge>, p: seq<NodeRef>, e: Edge)
    returns (t: seq<NodeId>, o: Outcome)
    requires s.If? && DistinctArms(s.arms) && Owns(E, InnerIds(s), InnerEdges(s, k, stack))
    requires EndsAtExit(E, p) && p[0] == Ast(s.id)
    requires |p| > 1 && p[1] == e.target && e in OwnEdges(s, k, stack) && e.kind == IfArm
    ensures Runs(s, t, o) && Follows(p, t, o, k, stack)
    decreases |p|, s, 1
  {
    var i :| 0 <= i < |s.arms| && CanTake(s.arms, i) && e == Edge(Ast(s.id), Ast(s.arms[i].id), IfArm, Some(i));
    SuffixPath(E, p, 1);
    var u;
    u, o := ArmPathIsRun(s.arms, i, k, stack, E, p[1..]);
    t := [s.id] + u;
    assert t[1] == s.arms[i].id && t[2..] == u[1..];
    FollowsAfter(p, [s.id], u, o, k, stack);
  }

  lemma {:induction false} LoopPathIsRun(s: Stmt, k: NodeRef, stack: seq<Context>, E: set<Edge>, p: seq<NodeRef>)
    returns (t: seq<NodeId>, o: Outcome)
    requires s.Loop? && Distinct(s) && Owns(E, Ids(s), Edges(s, k, stack))
    requires EndsAtExit(E, p) && p[0] == Ast(s.id)
    requires |p| > 1 && p[1] == EntrySeq(s.body, Ast(s.id))
    ensures Runs(s, t, o) && Follows(p, t, o, k, stack)
    decreases |p|, s, 1
  {
    var inner := stack + [LoopContext(s, k)];
    OwnsParts(s, k, stack, E);
    SuffixPath(E, p, 1);
    var u, ob := PathIsRunSeq(s.body, Ast(s.id), inner, E, p[1..]);
    LoopTarget(s, k, stack, ob);
    var round := [s.id] + u;
    var rest := p[1..][|u|..];
    SuffixPath(E, p[1..], |u|);
    var v := [];
    if Repeats(s.tag, ob) {
      v, o := PathIsRun(s, k, stack, E, rest);
    } else {
      o := if StopsLeave(s.tag, ob) then Normal else ob;
    }
    t := round + v;
    LoopRun(s, u, ob, v, o);
    LoopFollows(p, s.id, u, v, o, k, stack);
  }

  lemma {:induction false} LoopFollows(p: seq<NodeRef>, id: NodeId, u: seq<NodeId>, v: seq<NodeId>, o: Outcome,
                                       k: NodeRef, stack: seq<Context>)
    requires p != [] && p[0] == Ast(id)
    requires |u| < |p| - 1 && p[1..][..|u|] == Nodes(u)
    requires Follows(p[1..][|u|..], v, o, k, stack)
    ensures Follows(p, [id] + u + v, o, k, stack)
  {
    var round := [id] + u;
    assert p[..|round|] == [p[0]] + p[1..][..|u|];
    assert p[1..][|u|..] == p[|round|..];
    FollowsAfter(p, round, v, o, k, stack);
  }

  lemma {:induction false} LoopRun(s: Stmt, u: seq<NodeId>, ob: Outcome, v: seq<NodeId>, o: Outcome)
    requires s.Loop? && RunsSeq(s.body, u, ob)
    requires if Repeats(s.tag, ob) then Runs(s, v, o)
             else v == [] && o == (if StopsLeave(s.tag, ob) then Normal else ob)
    ensures Runs(s, [s.id] + u + v, o)
  {
    var t, n := [s.id] + u + v, 1 + |u|;
    assert t[1..n] == u && t[n..] == v;
  }

  lemma {:induction false} ArmsParts(arms: seq<Arm>, k: NodeRef, stack: seq<Context>, E: set<Edge>)
    requires arms != [] && DistinctArms(arms)
    requires Owns(E, IdsArms(arms), EdgesArms(arms, k, stack))
    ensures Owns(E, {arms[0].id}, {Plain(arms[0].id, EntrySeq(arms[0].body, k), Sequential)})
    ensures Owns(E, IdsSeq(arms[0].body), EdgesSeq(arms[0].body, k, stack))
    ensures Owns(E, IdsArms(arms[1..]), EdgesArms(arms[1..], k, stack))
  {
    SourcesSeq(arms[0].body, k, stack);
    SourcesArms(arms[1..], k, stack);
    var own := {Plain(arms[0].id, EntrySeq(arms[0].body, k), Sequential)};
    assert EdgesArms(arms, k, stack) == own + EdgesSeq(arms[0].body, k, stack) + EdgesArms(arms[1..], k, stack);
  }

  lemma {:induction false} ArmPathIsRun(arms: seq<Arm>, i: nat, k: NodeRef, stack: seq<Context>, E: set<Edge>,
                                        p: seq<NodeRef>)
    returns (t: seq<NodeId>, o: Outcome)
    requires i < |arms| && DistinctArms(arms) && Owns(E, IdsArms(arms), EdgesArms(arms, k, stack))
    requires EndsAtExit(E, p) && p[0] == Ast(arms[i].id)
    ensures t != [] && t[0] == arms[i].id && RunsSeq(arms[i].body, t[1..], o)
    ensures Follows(p, t, o, k, stack)
    decreases |p|, arms
  {
    var arm := arms[0];
    ArmsParts(arms, k, stack, E);
    if i > 0 {
      t, o := ArmPathIsRun(arms[1..], i - 1, k, stack, E, p);
    } else {
      assert Step(E, p[0], p[1]);
      SuffixPath(E, p, 1);
      t, o := PathIsRunSeq(arm.body, k, stack, E, p[1..]);
      FollowsAfter(p, [arm.id], t, o, k, stack);
      t := [arm.id] + t;
    }
  }

  lemma {:induction false} PathIsRunSeq(ss: seq<Stmt>, k: NodeRef, stack: seq<Context>, E: set<Edge>, p: seq<NodeRef>)
    returns (t: seq<NodeId>, o: Outcome)
    requires DistinctSeq(ss) && Owns(E, IdsSeq(ss), EdgesSeq(ss, k, stack))
    requires EndsAtExit(E, p) && p[0] == EntrySeq(ss, k)
    ensures RunsSeq(ss, t, o) && Follows(p, t, o, k, stack)
    decreases |p|, ss
  {
    if ss == [] {
      return [], Normal;
    }
    var next := EntrySeq(ss[1..], k);
    SourcesOf(ss[0], next, stack);
    SourcesSeq(ss[1..], k, stack);
    t, o := PathIsRun(ss[0], next, stack, E, p);
    var n := |t|;
    if o == Normal {
      SuffixPath(E, p, n);
      var u, first := t, o;
      var v;
      v, o := PathIsRunSeq(ss[1..], k, stack, E, p[n..]);
      t := u + v;
      assert t[..n] == u && t[n..] == v;
      FollowsAfter(p, u, v, o, k, stack);
    } else {
      assert t[..n] == t;
    }
  }

  // ----- the compiler theorem -----

  /** The exit at which an outcome of the whole body arrives. */
  function ExitFor(o: Outcome): (exit: NodeRef)
    ensures IsExit(exit)
  {
    match o
    case Normal | Returned => NormalExit
    case Raised => ExceptionalExit
    case Leaving(target) => if target == None then ExceptionalExit else NormalExit
    case Iterating(_) => ExceptionalExit
  }

  /** p visits the entry, then the nodes of a run of the body, then the exit of that run. */
  ghost predicate IsRunPath(body: seq<Stmt>, p: seq<NodeRef>) {
    exists t, o :: RunsSeq(body, t, o) && p == [Entry] + Nodes(t) + [ExitFor(o)]
  }

  /** The paths from the entry to an exit are exactly the runs of the procedure body. */
  lemma {:induction false} PathsAreRuns(body: seq<Stmt>, p: seq<NodeRef>)
    requires DistinctSeq(body)
    ensures (EndsAtExit(ProgramEdges(body), p) && p[0] == Entry) <==> IsRunPath(body, p)
  {
    hide IsRunPath, ProgramEdges;
    if EndsAtExit(ProgramEdges(body), p) && p[0] == Entry {
      ExitPathIsRun(body, p);
    }
    if IsRunPath(body, p) {
      RunIsExitPath(body, p);
    }
  }

  lemma {:induction false} ExitPathIsRun(body: seq<Stmt>, p: seq<NodeRef>)
    requires DistinctSeq(body) && EndsAtExit(ProgramEdges(body), p) && p[0] == Entry
    ensures IsRunPath(body, p)
  {
    var E := ProgramEdges(body);
    SourcesSeq(body, NormalExit, []);
    assert Step(E, p[0], p[1]);
    SuffixPath(E, p, 1);
    var t, o := PathIsRunSeq(body, NormalExit, [], E, p[1..]);
    var n := 1 + |t|;
    assert p[n] == ExitFor(o);
    forall i | 0 <= i < |p| - 1 ensures !IsExit(p[i]) {
      assert Step(E, p[i], p[i + 1]);
    }
    assert p == [p[0]] + p[1..][..|t|] + [p[n]];
  }

  lemma {:induction false} RunIsExitPath(body: seq<Stmt>, p: seq<NodeRef>)
    requires IsRunPath(body, p)
    ensures EndsAtExit(ProgramEdges(body), p) && p[0] == Entry
  {
    var E := ProgramEdges(body);
    var t, o :| RunsSeq(body, t, o) && p == [Entry] + Nodes(t) + [ExitFor(o)];
    RunSeqIsPath(body, NormalExit, [], E, t, o);
    PrependStep(E, Edge(Entry, EntrySeq(body, NormalExit), EntryEdge, None), PathOf(t, o, NormalExit, []));
    assert p == [Entry] + PathOf(t, o, NormalExit, []);
  }

  // ----- nothing leads back to the entry -----

  ghost predicate Avoids(edges: set<Edge>) {
    forall e | e in edges :: e.target != Entry
  }

  ghost predicate Clear(stack: seq<Context>) {
    forall c | c in stack :: c.exit != Entry && c.header != Some(Entry)
  }

  lemma {:induction false} ResolveAvoids(target: Option<string>, stack: seq<Context>, iterate: bool)
    requires Clear(stack)
    ensures ResolveControlTarget(target, stack, iterate) != Entry
    decreases |stack|
  {
    if stack != [] {
      ResolveAvoids(target, stack[..|stack| - 1], iterate);
      assert stack[|stack| - 1] in stack;
    }
  }

  lemma {:induction false} EntrySeqAvoids(ss: seq<Stmt>, k: NodeRef)
    requires k != Entry
    ensures EntrySeq(ss, k) != Entry
  {
    if ss != [] {
      EntrySeqAvoids(ss[1..], k);
    }
  }

  lemma {:induction false} OwnEdgesAvoid(s: Stmt, k: NodeRef, stack: seq<Context>)
    requires k != Entry && Clear(stack)
    ensures Avoids(OwnEdges(s, k, stack))
  {
    match s
    case Leave(_, target) => ResolveAvoids(target, stack, false);
    case Iterate(_, target) => ResolveAvoids(target, stack, true);
    case Compound(_, _, body) => EntrySeqAvoids(body, k);
    case Loop(id, _, _, body) => EntrySeqAvoids(body, Ast(id));
    case _ =>
  }

  lemma {:induction false} EdgesAvoid(s: Stmt, k: NodeRef, stack: seq<Context>)
    requires k != Entry && Clear(stack)
    ensures Avoids(Edges(s, k, stack))
    decreases s, 1
  {
    hide OwnEdges, EdgesSeq, EdgesArms;
    OwnEdgesAvoid(s, k, stack);
    match s
    case Compound(_, _, body) => EdgesSeqAvoid(body, k, stack + [CompoundContext(s, k)]);
    case Loop(id, _, _, body) => EdgesSeqAvoid(body, Ast(id), stack + [LoopContext(s, k)]);
    case If(_, arms) => EdgesArmsAvoid(arms, k, stack);
    case _ =>
  }

  lemma {:induction false} EdgesSeqAvoid(ss: seq<Stmt>, k: NodeRef, stack: seq<Context>)
    requires k != Entry && Clear(stack)
    ensures Avoids(EdgesSeq(ss, k, stack))
    decreases ss, 2
  {
    hide Edges;
    if ss != [] {
      EntrySeqAvoids(ss[1..], k);
      EdgesAvoid(ss[0], EntrySeq(ss[1..], k), stack);
      EdgesSeqAvoid(ss[1..], k, stack);
    }
  }

  lemma {:induction false} EdgesArmsAvoid(arms: seq<Arm>, k: NodeRef, stack: seq<Context>)
    requires k != Entry && Clear(stack)
    ensures Avoids(EdgesArms(arms, k, stack))
    decreases arms, 4
  {
    hide EdgesSeq;
    if arms != [] {
      EntrySeqAvoids(arms[0].body, k);
      EdgesSeqAvoid(arms[0].body, k, stack);
      EdgesArmsAvoid(arms[1..], k, stack);
    }
  }

  /** A handler region: a CONTINUE handler ends at an exit of its own, any other at the normal exit. */
  datatype Handler = Handler(id: NodeId, isContinue: bool, body: seq<Stmt>)

  /** The edges of one handler's subgraph. */
  ghost function HandlerEdges(h: Handler): set<Edge> {
    var end := if h.isContinue then HandlerExit(h.id) else NormalExit;
    {Edge(Ast(h.id), EntrySeq(h.body, end), HandlerBody, None)}
    + (if EntrySeq(h.body, end) == end then {Edge(Ast(h.id), end, HandlerFallthrough, None)} else {})
    + EdgesSeq(h.body, end, [])
  }

  /** The edges of a whole procedure; bound pairs a statement with a handler that applies to it. */
  ghost function GraphEdges(body: seq<Stmt>, handlers: set<Handler>, bound: set<(NodeId, NodeId)>): set<Edge> {
    ProgramEdges(body)
    + (set h, e | h in handlers && e in HandlerEdges(h) :: e)
    + set b | b in bound :: Edge(Ast(b.0), Ast(b.1), Handles, None)
  }

  lemma {:induction false} HandlerEdgesAvoid(h: Handler)
    ensures Avoids(HandlerEdges(h))
  {
    hide EdgesSeq;
    var end := if h.isContinue then HandlerExit(h.id) else NormalExit;
    EntrySeqAvoids(h.body, end);
    EdgesSeqAvoid(h.body, end, []);
  }

  /** No edge of a compiled procedure, its handlers included, leads to its entry. */
  lemma {:induction false} EntryIsNoTarget(body: seq<Stmt>, handlers: set<Handler>, bound: set<(NodeId, NodeId)>)
    ensures Avoids(GraphEdges(body, handlers, bound))
  {
    hide EdgesSeq, HandlerEdges;
    EntrySeqAvoids(body, NormalExit);
    EdgesSeqAvoid(body, NormalExit, []);
    forall h | h in handlers ensures Avoids(HandlerEdges(h)) {
      HandlerEdgesAvoid(h);
    }
  }

  // ----- the builder -----

  ghost function NodesFor(ids: set<NodeId>): set<NodeRef> {
    set id | id in ids :: Ast(id)
  }

  /** The declarations met, in the order in which the builder records them. */
  ghost function Excluded(s: Stmt): seq<NodeId>
    decreases s
  {
    match s
    case Declaration(id) => [id]
    case Compound(_, _, body) => ExcludedSeq(body)
    case Loop(_, _, _, body) => ExcludedSeq(body)
    case If(_, arms) => ExcludedArms(arms)
    case _ => []
  }

  ghost function ExcludedSeq(ss: seq<Stmt>): seq<NodeId>
    decreases ss
  {
    if ss == [] then [] else ExcludedSeq(ss[1..]) + Excluded(ss[0])
  }

  ghost function ExcludedArms(arms: seq<Arm>): seq<NodeId>
    decreases arms
  {
    if arms == [] then [] else ExcludedSeq(arms[0].body) + ExcludedArms(arms[1..])
  }

  lemma {:induction false} EdgesArmsAppend(arms: seq<Arm>, arm: Arm, k: NodeRef, stack: seq<Context>)
    ensures EdgesArms(arms + [arm], k, stack) == EdgesArms(arms, k, stack) + ArmEdges(arm, k, stack)
    decreases arms
  {
    hide ArmEdges;
    if arms == [] {
      assert arms + [arm] == [arm];
      assert EdgesArms([arm][1..], k, stack) == {};
    } else {
      EdgesArmsAppend(arms[1..], arm, k, stack);
      assert (arms + [arm])[1..] == arms[1..] + [arm];
    }
  }

  lemma {:induction false} IdsArmsAppend(arms: seq<Arm>, arm: Arm)
    ensures IdsArms(arms + [arm]) == IdsArms(arms) + {arm.id} + IdsSeq(arm.body)
    ensures ExcludedArms(arms + [arm]) == ExcludedArms(arms) + ExcludedSeq(arm.body)
    decreases arms
  {
    hide IdsSeq, ExcludedSeq;
    if arms == [] {
      assert arms + [arm] == [arm];
      assert ExcludedArms([arm][1..]) == [];
    } else {
      IdsArmsAppend(arms[1..], arm);
      assert (arms + [arm])[1..] == arms[1..] + [arm];
    }
  }

  lemma {:induction false} NodesForUnion(a: set<NodeId>, b: set<NodeId>)
    ensures NodesFor(a + b) == NodesFor(a) + NodesFor(b)
  {
  }

  ghost function Choice(id: NodeId, arms: seq<Arm>, i: nat): set<Edge>
    requires i < |arms|
  {
    if CanTake(arms, i) then {Edge(Ast(id), Ast(arms[i].id), IfArm, Some(i))} else {}
  }

  lemma {:induction false} ChoiceStep(id: NodeId, arms: seq<Arm>, i: nat)
    requires i < |arms|
    ensures arms[..i + 1] == arms[..i] + [arms[i]]
    ensures CanTake(arms, i) <==> CanFallThrough(arms[..i]) && CanEvaluateTo(arms[i], true)
    ensures CanFallThrough(arms[..i + 1]) <==> CanFallThrough(arms[..i]) && CanEvaluateTo(arms[i], false)
    ensures ArmChoices(id, arms, i + 1) == ArmChoices(id, arms, i) + Choice(id, arms, i)
  {
    assert forall j | 0 <= j < i :: arms[..i][j] == arms[j];
    assert forall j | 0 <= j < i + 1 :: arms[..i + 1][j] == arms[j];
  }

  /** The edges added for the first n arms of an IF. */
  ghost function ArmsBuilt(id: NodeId, arms: seq<Arm>, n: nat, k: NodeRef, stack: seq<Context>): set<Edge>
    requires n <= |arms|
  {
    EdgesArms(arms[..n], k, stack) + ArmChoices(id, arms, n)
  }

  lemma {:induction false} NoArmsBuilt(id: NodeId, arms: seq<Arm>, k: NodeRef, stack: seq<Context>)
    ensures ArmsBuilt(id, arms, 0, k, stack) == {} && CanFallThrough(arms[..0])
    ensures NodesFor(IdsArms(arms[..0])) == {} && ExcludedArms(arms[..0]) == []
  {
  }

  lemma {:induction false} ArmsBuiltStep(id: NodeId, arms: seq<Arm>, i: nat, k: NodeRef, stack: seq<Context>,
                      start: set<Edge>, before: set<Edge>)
    requires i < |arms|
    requires before == start + ArmsBuilt(id, arms, i, k, stack)
    ensures before + ArmEdges(arms[i], k, stack)
            + Choice(id, arms, i)
         == start + ArmsBuilt(id, arms, i + 1, k, stack)
  {
    EdgesArmsAppend(arms[..i], arms[i], k, stack);
    ChoiceStep(id, arms, i);
  }

  lemma {:induction false} ArmsBuiltAll(s: Stmt, k: NodeRef, stack: seq<Context>, start: set<Edge>)
    requires s.If?
    ensures start + ArmsBuilt(s.id, s.arms, |s.arms|, k, stack)
            + (if CanFallThrough(s.arms) then {Plain(s.id, k, IfNoMatch)} else {})
         == start + Edges(s, k, stack)
  {
    assert s.arms[..|s.arms|] == s.arms;
  }

  lemma {:induction false} ArmIdsStep(arms: seq<Arm>, i: nat, start: set<NodeRef>, before: set<NodeRef>,
                                      skipped: seq<NodeId>)
    requires i < |arms|
    requires before == start + NodesFor(IdsArms(arms[..i]))
    ensures before + NodesFor({arms[i].id} + IdsSeq(arms[i].body)) == start + NodesFor(IdsArms(arms[..i + 1]))
    ensures skipped + ExcludedArms(arms[..i]) + ExcludedSeq(arms[i].body) == skipped + ExcludedArms(arms[..i + 1])
  {
    IdsArmsAppend(arms[..i], arms[i]);
    assert arms[..i + 1] == arms[..i] + [arms[i]];
    NodesForUnion(IdsArms(arms[..i]), {arms[i].id} + IdsSeq(arms[i].body));
  }

  /** The choice of arm i, decided from its own condition and whether an earlier arm is always taken. */
  lemma {:induction false} ChoiceOf(arms: seq<Arm>, i: nat)
    requires i < |arms|
    ensures CanTake(arms, i) <==> CanFallThrough(arms[..i]) && ArmTruth(arms[i]) != Some(false)
    ensures CanFallThrough(arms[..i + 1]) <==> CanFallThrough(arms[..i]) && ArmTruth(arms[i]) != Some(true)
  {
    ChoiceStep(0, arms, i);
  }

  class ControlFlowGraphBuilder {
    var cfgNodes: set<NodeRef>
    var edges: set<Edge>
    var excluded: seq<NodeId>

    constructor ()
      ensures cfgNodes == {} && edges == {} && excluded == []
    {
      cfgNodes, edges, excluded := {}, {}, [];
    }

    /** Compiles a procedure body.  When node identities are distinct, the paths of the
        finished graph from its entry to an exit are exactly the runs of the body. */
    method Build(body: seq<Stmt>)
      modifies this
      ensures cfgNodes == {Entry, NormalExit, ExceptionalExit} + NodesFor(IdsSeq(body))
      ensures edges == ProgramEdges(body)
      ensures excluded == ExcludedSeq(body)
      ensures DistinctSeq(body) ==>
        forall p :: (EndsAtExit(edges, p) && p[0] == Entry) <==> IsRunPath(body, p)
    {
      cfgNodes, edges, excluded := {Entry, NormalExit, ExceptionalExit}, {}, [];
      var top := BuildSequence(body, NormalExit, []);
      AddEdge(Entry, top, EntryEdge, None);
      if DistinctSeq(body) {
        forall p ensures (EndsAtExit(edges, p) && p[0] == Entry) <==> IsRunPath(body, p) {
          PathsAreRuns(body, p);
        }
      }
    }

    method AddEdge(source: NodeRef, target: NodeRef, kind: EdgeKind, branchIndex: Option<nat>)
      modifies this`edges
      ensures edges == old(edges) + {Edge(source, target, kind, branchIndex)}
    {
      edges := edges + {Edge(source, target, kind, branchIndex)};
    }

    /** Builds a statement list from its last statement to its first. */
    method BuildSequence(ss: seq<Stmt>, k: NodeRef, stack: seq<Context>) returns (entry: NodeRef)
      modifies this
      ensures entry == EntrySeq(ss, k)
      ensures edges == old(edges) + EdgesSeq(ss, k, stack)
      ensures cfgNodes == old(cfgNodes) + NodesFor(IdsSeq(ss))
      ensures excluded == old(excluded) + ExcludedSeq(ss)
      decreases ss, 0
    {
      entry := k;
      var i := |ss|;
      while i > 0
        invariant 0 <= i <= |ss|
        invariant entry == EntrySeq(ss[i..], k)
        invariant edges == old(edges) + EdgesSeq(ss[i..], k, stack)
        invariant cfgNodes == old(cfgNodes) + NodesFor(IdsSeq(ss[i..]))
        invariant excluded == old(excluded) + ExcludedSeq(ss[i..])
      {
        i := i - 1;
        assert ss[i..][1..] == ss[i + 1..];
        entry := BuildNode(ss[i], entry, stack);
      }
      assert ss[0..] == ss;
    }

    /** Builds one statement in front of continuation k and returns where it is entered. */
    method BuildNode(s: Stmt, k: NodeRef, stack: seq<Context>) returns (entry: NodeRef)
      modifies this
      ensures entry == EntryOf(s, k)
      ensures edges == old(edges) + Edges(s, k, stack)
      ensures cfgNodes == old(cfgNodes) + NodesFor(Ids(s))
      ensures excluded == old(excluded) + Excluded(s)
      decreases s, 1
    {
      if s.Declaration? {
        excluded := excluded + [s.id];
        return k;
      }
      entry := Ast(s.id);
      cfgNodes := cfgNodes + {entry};
      match s
      case Compound(id, tag, body) =>
        var context := Context(k, tag, None);
        var bodyEntry := BuildSequence(body, k, stack + [context]);
        AddEdge(entry, bodyEntry, Sequential, None);
      case If(id, arms) =>
        BuildArms(s, k, stack);
      case Loop(id, tag, kind, body) =>
        var context := Context(k, tag, Some(entry));
        var bodyEntry := BuildSequence(body, entry, stack + [context]);
        AddEdge(entry, bodyEntry, LoopBody, None);
        if kind != LOOP {
          AddEdge(entry, k, LoopExit, None);
        }
      case Return(_) => AddEdge(entry, NormalExit, ReturnEdge, None);
      case Resignal(_) => AddEdge(entry, ExceptionalExit, ResignalEdge, None);
      case Signal(_) => AddEdge(entry, ExceptionalExit, SignalEdge, None);
      case Leave(_, target) => AddEdge(entry, ResolveControlTarget(target, stack, false), LeaveEdge, None);
      case Iterate(_, target) => AddEdge(entry, ResolveControlTarget(target, stack, true), IterateEdge, None);
      case Simple(_) => AddEdge(entry, k, Sequential, None);
    }

    /** Builds arm i of an IF and, unless a literal condition rules it out, the edge that
        chooses it. */
    method BuildArm(id: NodeId, arms: seq<Arm>, i: nat, priorAlwaysTaken: bool, k: NodeRef, stack: seq<Context>)
      returns (alwaysTaken: bool)
      requires i < |arms|
      requires priorAlwaysTaken <==> !CanFallThrough(arms[..i])
      modifies this
      ensures edges == old(edges) + ArmEdges(arms[i], k, stack) + Choice(id, arms, i)
      ensures cfgNodes == old(cfgNodes) + NodesFor({arms[i].id} + IdsSeq(arms[i].body))
      ensures excluded == old(excluded) + ExcludedSeq(arms[i].body)
      ensures alwaysTaken <==> !CanFallThrough(arms[..i + 1])
      ensures arms[i].isElse ==> alwaysTaken
      decreases arms[i], 0
    {
      hide EdgesSeq, CanFallThrough, CanTake, ArmTruth;
      var arm := arms[i];
      var truth := ArmTruth(arm);
      ChoiceOf(arms, i);
      cfgNodes := cfgNodes + {Ast(arm.id)};
      var armEntry := BuildSequence(arm.body, k, stack);
      AddEdge(Ast(arm.id), armEntry, Sequential, None);
      alwaysTaken := priorAlwaysTaken;
      if !(priorAlwaysTaken || truth == Some(false)) {
        AddEdge(Ast(id), Ast(arm.id), IfArm, Some(i));
        if truth == Some(true) {
          alwaysTaken := true;
        }
      }
    }

    /** Builds the arms of an IF in order, dropping the choice of an arm whose literal
        condition is false and of every arm behind one that is always taken. */
    method BuildArms(s: Stmt, k: NodeRef, stack: seq<Context>)
      requires s.If?
      modifies this
      ensures edges == old(edges) + Edges(s, k, stack)
      ensures cfgNodes == old(cfgNodes) + NodesFor(IdsArms(s.arms))
      ensures excluded == old(excluded) + ExcludedArms(s.arms)
      decreases s, 0
    {
      hide Edges, ArmsBuilt, ExcludedArms, IdsArms, CanFallThrough;
      var hasElse, priorAlwaysTaken := false, false;
      NoArmsBuilt(s.id, s.arms, k, stack);
      var i := 0;
      while i < |s.arms|
        invariant 0 <= i <= |s.arms|
        invariant priorAlwaysTaken <==> !CanFallThrough(s.arms[..i])
        invariant hasElse ==> priorAlwaysTaken
        invariant edges == old(edges) + ArmsBuilt(s.id, s.arms, i, k, stack)
        invariant cfgNodes == old(cfgNodes) + NodesFor(IdsArms(s.arms[..i]))
        invariant excluded == old(excluded) + ExcludedArms(s.arms[..i])
      {
        hasElse := hasElse || s.arms[i].isElse;
        ArmsBuiltStep(s.id, s.arms, i, k, stack, old(edges), edges);
        ArmIdsStep(s.arms, i, old(cfgNodes), cfgNodes, old(excluded));
        ChoiceOf(s.arms, i);
        priorAlwaysTaken := BuildArm(s.id, s.arms, i, priorAlwaysTaken, k, stack);
        i := i + 1;
      }
      ArmsBuiltAll(s, k, stack, old(edges));
      assert s.arms[..i] == s.arms;
      if !hasElse && !priorAlwaysTaken {
        AddEdge(Ast(s.id), k, IfNoMatch, None);
      }
    }
  }
}
