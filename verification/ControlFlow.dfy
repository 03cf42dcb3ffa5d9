/** Refinement of parser-order edges into a control-flow graph: transfers lose their fall-through,
    joins, loop exits and exceptional edges are added, and unreachable statements are marked.

    Each part of the pass proposes edges for one node at a time and looks only at the nodes, so the
    refined graph is what stays of the parser's edges together with the proposals, whatever the
    order in which they are made.  What leaves a transfer then follows from where proposals can
    start, and reachability from the refined edges alone. */
module ControlFlow {
  import opened Basics

  type Id = string

  datatype Kind =
    | ENTRY | EXIT | CALL_TARGET | RETURN | ERROR_RAISE | GOTO | LOOP_CONTROL | LABEL | LOOP
    | CONDITION | CASE | BLOCK | ERROR_HANDLER | CALL | SELECT_INTO | CURSOR_FETCH | QUERY
    | OtherFailing | Other

  datatype Branch = OpensBranch | ELSE | ELSEIF | WHEN

  datatype Modality = MUST | MAY | UNKNOWN

  /** A statement.  The text is trimmed and in upper case; keys are the exceptions it may raise by
      name; control and label are the keyword and label of a transfer, or the name of a label. */
  datatype Node = Node(
    id: Id, kind: Kind, parent: Option<Id>, text: string, branch: Branch, condition: Option<string>,
    errorCode: Option<string>, keys: set<string>, control: string, name: Option<string>,
    callTarget: Option<string>, readVars: seq<string>, writeVars: seq<string>, modality: Modality)

  type Nodes = seq<Node>

  datatype EdgeKind = NEXT | BRANCH | TRUE | FALSE | LOOP_BACK | EXCEPTION | CALLS | DATA_DEPENDENCY

  /** An edge by the four parts that tell it from others; its number is its place in the list. */
  datatype Edge = Edge(source: Id, target: Id, kind: EdgeKind, condition: Option<string>)

  predicate IsControl(k: EdgeKind) {
    k != CALLS && k != DATA_DEPENDENCY
  }

  predicate IsTerminal(k: Kind) {
    k == RETURN || k == ERROR_RAISE || k == GOTO
  }

  predicate MayFail(k: Kind) {
    k == QUERY || k == SELECT_INTO || k == CALL || k == CURSOR_FETCH || k == OtherFailing || k == ERROR_RAISE
  }

  // ----- looking around -----

  /** The last node with the given id. */
  function PositionOf(ns: Nodes, id: Id): (r: Option<nat>)
    ensures r != None ==> r.value < |ns| && ns[r.value].id == id
    ensures r == None ==> forall n | n in ns :: n.id != id
  {
    if ns == [] then None
    else if ns[|ns| - 1].id == id then Some(|ns| - 1)
    else PositionOf(ns[..|ns| - 1], id)
  }

  function Find(ns: Nodes, id: Id): (r: Option<Node>)
    ensures r != None ==> r.value in ns && r.value.id == id
    ensures r == None ==> forall n | n in ns :: n.id != id
  {
    var i := PositionOf(ns, id);
    if i == None then None else Some(ns[i.value])
  }

  function IdsOf(ns: Nodes): set<Id> {
    set n | n in ns :: n.id
  }

  /** The chain of parents, innermost first, cut where it would repeat. */
  function Ancestors(ns: Nodes, current: Option<Id>, seen: set<Id>): seq<Id>
    decreases |IdsOf(ns) - seen|, if current != None && current.value !in IdsOf(ns) then 1 else 0
  {
    if current == None || current.value == "" || current.value in seen then []
    else
      var id := current.value;
      match Find(ns, id)
      case None => [id]
      case Some(parent) =>
        assert IdsOf(ns) - seen == (IdsOf(ns) - (seen + {id})) + {id};
        [id] + Ancestors(ns, parent.parent, seen + {id})
  }

  function Ancestry(ns: Nodes, n: Node): seq<Id> {
    Ancestors(ns, n.parent, {})
  }

  predicate IsDescendant(ns: Nodes, id: Id, ancestor: Id) {
    match Find(ns, id)
    case Some(n) => ancestor in Ancestry(ns, n)
    case None => false
  }

  /** What a search through the nodes looks for. */
  datatype Query =
    | OfKind(kind: Kind)
    | Wording(kind: Kind, prefix: string)
    | LabelNamed(name: string)
    | EndUnder(parent: Option<Id>)
    | LoopUnder(ancestor: Id)
    | ArmOf(root: Id)
    | ElseOf(root: Id)
    | BodyOf(arm: Id)
    | Under(ancestor: Id)

  predicate Meets(ns: Nodes, n: Node, q: Query) {
    match q
    case OfKind(kind) => n.kind == kind
    case Wording(kind, prefix) => n.kind == kind && StartsWith(n.text, prefix)
    case LabelNamed(name) => n.kind == LABEL && n.name == Some(name)
    case EndUnder(parent) => IsEnd(n) && (n.parent == parent || (parent != None && parent.value in Ancestry(ns, n)))
    case LoopUnder(id) => n.kind == LOOP && (n.parent == Some(id) || id in Ancestry(ns, n))
    case ArmOf(root) => n.kind == CONDITION && n.parent == Some(root) && n.branch != OpensBranch
    case ElseOf(root) => n.kind == CONDITION && n.parent == Some(root) && n.branch == ELSE
    case BodyOf(arm) => n.kind != BLOCK && IsDescendant(ns, n.id, arm)
    case Under(id) => IsDescendant(ns, n.id, id)
  }

  /** The first position from lo on, before hi, whose node is looked for. */
  function FirstIn(ns: Nodes, lo: nat, hi: nat, q: Query): (r: Option<nat>)
    requires hi <= |ns|
    ensures r != None ==> lo <= r.value < hi && Meets(ns, ns[r.value], q)
    decreases hi - lo
  {
    if lo >= hi then None else if Meets(ns, ns[lo], q) then Some(lo) else FirstIn(ns, lo + 1, hi, q)
  }

  function LastIn(ns: Nodes, lo: nat, hi: nat, q: Query): (r: Option<nat>)
    requires hi <= |ns|
    ensures r != None ==> lo <= r.value < hi && Meets(ns, ns[r.value], q)
    decreases hi
  {
    if lo >= hi then None else if Meets(ns, ns[hi - 1], q) then Some(hi - 1) else LastIn(ns, lo, hi - 1, q)
  }

  /** The text, or another one if it is missing or empty. */
  function Given(text: Option<string>, otherwise: string): string {
    if text != None && text.value != "" then text.value else otherwise
  }

  predicate StartsWith(text: string, prefix: string) {
    prefix <= text
  }

  predicate Contains(text: string, part: string)
    decreases |text|
  {
    part <= text || (text != [] && Contains(text[1..], part))
  }

  predicate IsEnd(n: Node) {
    n.kind == BLOCK && StartsWith(n.text, "END")
  }

  function FirstAfter(ns: Nodes, i: nat, exit: Id): Id {
    if i + 1 < |ns| then ns[i + 1].id else exit
  }

  function FirstAncestor(ns: Nodes, chain: seq<Id>, q: Query): Option<Node> {
    if chain == [] then None
    else
      var n := Find(ns, chain[0]);
      if n != None && Meets(ns, n.value, q) then n else FirstAncestor(ns, chain[1..], q)
  }

  function EnclosingLoop(ns: Nodes, n: Node): Option<Node> {
    FirstAncestor(ns, Ancestry(ns, n), OfKind(LOOP))
  }

  /** Where the body of the loop at position i ends. */
  function LoopEnd(ns: Nodes, i: nat): Option<nat>
    requires i < |ns|
  {
    LoopEndFrom(ns, ns[i].id, i + 1)
  }

  function LoopEndFrom(ns: Nodes, loop: Id, k: nat): Option<nat>
    decreases |ns| - k
  {
    if k >= |ns| then None
    else if IsEnd(ns[k]) && (ns[k].parent == Some(loop) || IsDescendant(ns, ns[k].id, loop))
      && (StartsWith(ns[k].text, "END LOOP") || StartsWith(ns[k].text, "END WHILE") || StartsWith(ns[k].text, "END REPEAT")
          || k + 1 == |ns| || !IsDescendant(ns, ns[k + 1].id, loop)) then Some(k)
    else LoopEndFrom(ns, loop, k + 1)
  }

  /** The node behind the loop at position i. */
  function LoopExitTarget(ns: Nodes, i: nat, exit: Id): Id
    requires i < |ns|
  {
    match LoopEnd(ns, i)
    case Some(k) => FirstAfter(ns, k, exit)
    case None => exit
  }

  /** The last label with the given name. */
  function LabelNode(ns: Nodes, name: string): (r: Option<nat>)
    ensures r != None ==> r.value < |ns| && ns[r.value].kind == LABEL && ns[r.value].name == Some(name)
  {
    LastIn(ns, 0, |ns|, LabelNamed(name))
  }

  // ----- handlers -----

  function HandlerScope(ns: Nodes, h: Node): Option<Id> {
    match FirstAncestor(ns, Ancestry(ns, h), Wording(BLOCK, "BEGIN"))
    case Some(m) => Some(m.id)
    case None => h.parent
  }

  /** How well handler h fits node n, by its wording; None if it does not apply. */
  function Specificity(h: Node, n: Node, conservative: bool): Option<nat> {
    var condition := Given(h.condition, h.text);
    if exists k | k in n.keys :: Contains(condition, k) then Some(6)
    else if Contains(h.text, "NOT FOUND") || Contains(h.text, "NO_DATA_FOUND") then
      if n.kind == CURSOR_FETCH || n.kind == SELECT_INTO || n.kind == QUERY then Some(5) else None
    else if Contains(h.text, "SQLEXCEPTION") || Contains(h.text, "OTHERS") || Contains(h.text, "BEGIN CATCH") then Some(2)
    else if h.text == "EXCEPTION" || StartsWith(h.text, "EXCEPTION ") then None
    else if StartsWith(h.text, "WHEN ") then if conservative then Some(3) else None
    else Some(1)
  }

  predicate InScope(ns: Nodes, h: Node, n: Node) {
    var scope, up := HandlerScope(ns, h), Ancestry(ns, n);
    scope != None && (scope == n.parent || scope.value in up) && h.id !in up && n.id != h.id
  }

  datatype Candidate = Candidate(depth: nat, fit: nat, handler: Node)

  function CandidatesFrom(ns: Nodes, n: Node, conservative: bool, k: nat): (r: seq<Candidate>)
    requires k <= |ns|
    ensures forall c | c in r :: c.handler in ns && c.handler.kind == ERROR_HANDLER && c.handler.id != n.id
    decreases |ns| - k
  {
    if k == |ns| then []
    else
      var h := ns[k];
      var rest := CandidatesFrom(ns, n, conservative, k + 1);
      var fit := Specificity(h, n, conservative);
      if h.kind == ERROR_HANDLER && InScope(ns, h, n) && fit != None
      then [Candidate(|Ancestry(ns, h)|, fit.value, h)] + rest else rest
  }

  function MaxDepth(cs: seq<Candidate>): nat {
    if cs == [] then 0 else var m := MaxDepth(cs[1..]); if cs[0].depth > m then cs[0].depth else m
  }

  function OfDepth(cs: seq<Candidate>, d: nat): (r: seq<Candidate>)
    ensures forall c | c in r :: c in cs
  {
    if cs == [] then [] else (if cs[0].depth == d then [cs[0]] else []) + OfDepth(cs[1..], d)
  }

  /** The innermost handlers in whose scope n stands, unless n is itself inside a handler. */
  function HandlerCandidates(ns: Nodes, n: Node, conservative: bool): (r: seq<Candidate>)
    ensures forall c | c in r :: c.handler in ns && c.handler.kind == ERROR_HANDLER && c.handler.id != n.id
  {
    if FirstAncestor(ns, Ancestry(ns, n), OfKind(ERROR_HANDLER)) != None then []
    else
      var cs := CandidatesFrom(ns, n, conservative, 0);
      OfDepth(cs, MaxDepth(cs))
  }

  /** The first of the best fitting candidates. */
  function Best(cs: seq<Candidate>): (r: Candidate)
    requires cs != []
    ensures r in cs && forall c | c in cs :: c.fit <= r.fit
  {
    if |cs| == 1 then cs[0]
    else var r := Best(cs[1..]); if cs[0].fit >= r.fit then cs[0] else r
  }

  /** Where a raise goes: to the handler that applies, or out of the routine. */
  function RaiseTarget(ns: Nodes, n: Node, exit: Id): Id {
    var cs := HandlerCandidates(ns, n, false);
    if cs == [] then exit else Best(cs).handler.id
  }

  // ----- the edges that the pass proposes, node by node -----

  /** Normal control goes around handler bodies. */
  function HandlerSkips(ns: Nodes, i: nat, exit: Id): seq<Edge>
    requires i < |ns|
  {
    var h := ns[i];
    if h.kind != ERROR_HANDLER then []
    else if StartsWith(h.text, "DECLARE ") && i + 1 < |ns| then
      var begin := ns[i + 1];
      if begin.kind == BLOCK && StartsWith(begin.text, "BEGIN") && begin.parent == Some(h.id) then
        var end := FirstIn(ns, i + 2, |ns|, EndUnder(Some(begin.id)));
        if end != None then [Edge(h.id, FirstAfter(ns, end.value, exit), NEXT, Some("HANDLER_DECLARATION"))] else []
      else []
    else if StartsWith(h.text, "BEGIN TRY") then
      var endTry := FirstIn(ns, i + 1, |ns|, Wording(BLOCK, "END TRY"));
      var catch := FirstIn(ns, i + 1, |ns|, Wording(ERROR_HANDLER, "BEGIN CATCH"));
      if endTry != None && catch != None then
        var endCatch := FirstIn(ns, catch.value + 1, |ns|, Wording(BLOCK, "END CATCH"));
        if endCatch != None
        then [Edge(ns[endTry.value].id, FirstAfter(ns, endCatch.value, exit), NEXT, Some("TRY_SUCCESS"))] else []
      else []
    else if StartsWith(h.text, "EXCEPTION") then
      var end := FirstIn(ns, i + 1, |ns|, EndUnder(h.parent));
      if i > 0 && end != None && !IsTerminal(ns[i - 1].kind)
      then [Edge(ns[i - 1].id, ns[end.value].id, NEXT, Some("NO_EXCEPTION"))] else []
    else []
  }

  /** The loop behind a label that ITERATE goes back to. */
  function LabelledLoop(ns: Nodes, at: nat): Option<nat>
    requires at < |ns|
  {
    FirstIn(ns, at + 1, |ns|, LoopUnder(ns[at].id))
  }

  /** LEAVE, EXIT, ITERATE and CONTINUE. */
  function LoopControlEdge(ns: Nodes, n: Node, exit: Id): Option<Edge> {
    var at := if n.name != None && n.name.value != "" then LabelNode(ns, n.name.value) else None;
    var back := if at != None && n.control == "ITERATE" then LabelledLoop(ns, at.value) else None;
    var end := if at != None
      then FirstIn(ns, at.value + 1, |ns|, Wording(BLOCK, "END " + n.name.value))
      else None;
    if back != None then Some(Edge(n.id, ns[back.value].id, LOOP_BACK, Some("ITERATE " + n.name.value)))
    else if end != None then Some(Edge(n.id, FirstAfter(ns, end.value, exit), BRANCH, Some(n.control + " " + n.name.value)))
    else
      match EnclosingLoop(ns, n)
      case None => None
      case Some(loop) =>
        if n.control == "CONTINUE" || n.control == "ITERATE" then Some(Edge(n.id, loop.id, LOOP_BACK, Some(n.control)))
        else
          var i := PositionOf(ns, loop.id);
          var target := if i == None then exit else LoopExitTarget(ns, i.value, exit);
          Some(Edge(n.id, target, BRANCH, Some(if n.control == "" then "LOOP_EXIT" else n.control)))
  }

  /** The label that a GOTO names: the last one of that name. */
  function GotoLabel(ns: Nodes, n: Node): (r: Option<nat>)
    ensures r != None ==> r.value < |ns| && n.name != None && ns[r.value].kind == LABEL && ns[r.value].name == n.name
  {
    if n.name != None && n.name.value != "" then LabelNode(ns, n.name.value) else None
  }

  function Transfers(ns: Nodes, i: nat, exit: Id): seq<Edge>
    requires i < |ns|
  {
    var n := ns[i];
    match n.kind
    case RETURN => [Edge(n.id, exit, BRANCH, Some("RETURN"))]
    case ERROR_RAISE =>
      [Edge(n.id, RaiseTarget(ns, n, exit), EXCEPTION, Some(Given(n.errorCode, "RAISE")))]
    case GOTO =>
      var at := GotoLabel(ns, n);
      if at != None then [Edge(n.id, ns[at.value].id, BRANCH, Some("GOTO " + n.name.value))] else []
    case LOOP_CONTROL =>
      var e := LoopControlEdge(ns, n, exit);
      if e != None then [e.value] else []
    case _ => []
  }

  function LoopExits(ns: Nodes, i: nat, exit: Id): seq<Edge>
    requires i < |ns|
  {
    if ns[i].kind != LOOP then []
    else
      [Edge(ns[i].id, LoopExitTarget(ns, i, exit), FALSE,
            Some(Given(ns[i].condition, "LOOP_EXIT")))]
  }

  /** From the last statement of each arm to the join; an arm begins at k and the next at the
      following arm of root, or behind the whole choice. */
  function ArmJoins(ns: Nodes, root: Id, k: nat, last: nat, join: Id): seq<Edge>
    requires k <= last < |ns|
    decreases last - k
  {
    var next := FirstIn(ns, k + 1, last + 1, ArmOf(root));
    var stop := if next == None then last + 1 else next.value;
    var end := LastIn(ns, k + 1, stop, BodyOf(ns[k].id));
    var edge := if end != None && !IsTerminal(ns[end.value].kind) && ns[end.value].kind != LOOP_CONTROL
      then [Edge(ns[end.value].id, join, BRANCH, Some("JOIN"))] else [];
    edge + if next == None then [] else ArmJoins(ns, root, next.value, last, join)
  }

  predicate HasElse(ns: Nodes, root: Node, lo: nat, last: nat)
    requires last < |ns|
  {
    root.branch == ELSE || FirstIn(ns, lo, last + 1, ElseOf(root.id)) != None
  }

  function Joins(ns: Nodes, i: nat, exit: Id): seq<Edge>
    requires i < |ns|
  {
    var root := ns[i];
    if !(root.kind == CASE || (root.kind == CONDITION && root.branch == OpensBranch)) then []
    else
      match LastIn(ns, i + 1, |ns|, Under(root.id))
      case None => []
      case Some(last) =>
        var join := FirstAfter(ns, last, exit);
        ArmJoins(ns, root.id, i, last, join)
        + (if root.kind == CONDITION && !HasElse(ns, root, i + 1, last) then [Edge(root.id, join, FALSE, root.condition)] else [])
        + (if root.kind == CASE then [Edge(root.id, join, BRANCH, Some("NO_MATCH"))] else [])
  }

  function CauseEdges(n: Node, cs: seq<Candidate>): (r: seq<Edge>)
    ensures forall e | e in r :: e.source == n.id && e.kind == EXCEPTION
  {
    if cs == [] then []
    else
      var h := cs[0].handler;
      [Edge(n.id, h.id, EXCEPTION, Some(Given(h.condition, h.text)))] + CauseEdges(n, cs[1..])
  }

  /** From statements that may fail to the handlers around them. */
  function Causes(ns: Nodes, i: nat): seq<Edge>
    requires i < |ns|
  {
    if MayFail(ns[i].kind) && ns[i].kind != ERROR_RAISE then CauseEdges(ns[i], HandlerCandidates(ns, ns[i], true)) else []
  }

  datatype Pass = SkipHandlers | Transfer | LeaveLoops | JoinArms | Fail

  function EdgesAt(pass: Pass, ns: Nodes, i: nat, exit: Id): seq<Edge>
    requires i < |ns|
  {
    match pass
    case SkipHandlers => HandlerSkips(ns, i, exit)
    case Transfer => Transfers(ns, i, exit)
    case LeaveLoops => LoopExits(ns, i, exit)
    case JoinArms => Joins(ns, i, exit)
    case Fail => Causes(ns, i)
  }

  function PassEdges(pass: Pass, ns: Nodes, i: nat, exit: Id): seq<Edge>
    requires i <= |ns|
    decreases |ns| - i
  {
    if i == |ns| then [] else EdgesAt(pass, ns, i, exit) + PassEdges(pass, ns, i + 1, exit)
  }

  // ----- evidence -----

  function Decimal(n: nat): string {
    if n < 10 then [('0' as int + n) as char] else Decimal(n / 10) + [('0' as int + n % 10) as char]
  }

  /** The id of the external routine number k. */
  function TargetId(k: nat): Id {
    var d := Decimal(k + 1);
    "call-target-" + (if |d| < 4 then seq(4 - |d|, i => '0') else []) + d
  }

  /** The routines called by ns, in the order of their first call. */
  function Callees(ns: Nodes): seq<string> {
    if ns == [] then []
    else
      var n, before := ns[|ns| - 1], Callees(ns[..|ns| - 1]);
      if n.kind == CALL && n.callTarget != None && n.callTarget.value != "" && n.callTarget.value !in before
      then before + [n.callTarget.value] else before
  }

  function IndexIn(names: seq<string>, name: string): nat {
    if names == [] || names[0] == name then 0 else 1 + IndexIn(names[1..], name)
  }

  function CallEdges(ns: Nodes, callees: seq<string>): (r: seq<Edge>)
    ensures forall e | e in r :: e.kind == CALLS
  {
    if ns == [] then []
    else
      var n := ns[0];
      (if n.kind == CALL && n.callTarget != None && n.callTarget.value != ""
       then [Edge(n.id, TargetId(IndexIn(callees, n.callTarget.value)), CALLS, n.callTarget)] else [])
      + CallEdges(ns[1..], callees)
  }

  function TargetNodes(callees: seq<string>): (r: Nodes)
    ensures |r| == |callees| && forall i | 0 <= i < |r| :: r[i].kind == CALL_TARGET
  {
    seq(|callees|, i requires 0 <= i < |callees| =>
      Node(TargetId(i), CALL_TARGET, None, "EXTERNAL ROUTINE " + callees[i], OpensBranch, None, None, {}, "",
           Some(callees[i]), None, [], [], MAY))
  }

  function ReadEdges(vars: seq<string>, writers: map<string, Id>, id: Id): (r: seq<Edge>)
    ensures forall e | e in r :: e.kind == DATA_DEPENDENCY
  {
    if vars == [] then []
    else
      (if vars[0] in writers && writers[vars[0]] != id
       then [Edge(writers[vars[0]], id, DATA_DEPENDENCY, Some(vars[0]))] else [])
      + ReadEdges(vars[1..], writers, id)
  }

  function Written(writers: map<string, Id>, vars: seq<string>, id: Id): map<string, Id>
    decreases vars
  {
    if vars == [] then writers else Written(writers[vars[0] := id], vars[1..], id)
  }

  /** From the last writer of a variable, in source order, to its readers. */
  function DataEdges(ns: Nodes, writers: map<string, Id>): (r: seq<Edge>)
    ensures forall e | e in r :: e.kind == DATA_DEPENDENCY
  {
    if ns == [] then []
    else
      ReadEdges(ns[0].readVars, writers, ns[0].id) + DataEdges(ns[1..], Written(writers, ns[0].writeVars, ns[0].id))
  }

  /** Everything that is proposed, in order. */
  function Proposals(ns: Nodes, exit: Id): seq<Edge> {
    PassEdges(SkipHandlers, ns, 0, exit) + PassEdges(Transfer, ns, 0, exit) + PassEdges(LeaveLoops, ns, 0, exit)
    + PassEdges(JoinArms, ns, 0, exit) + PassEdges(Fail, ns, 0, exit)
    + CallEdges(ns, Callees(ns)) + DataEdges(ns, map[])
  }

  // ----- the refined edges -----

  function SourceNodes(ns: Nodes): Nodes {
    if ns == [] then []
    else (if ns[0].kind != CALL_TARGET then [ns[0]] else []) + SourceNodes(ns[1..])
  }

  /** Parser-order edges stay unless they leave a transfer or fall into a handler section. */
  predicate Stays(ns: Nodes, e: Edge) {
    match Find(ns, e.source)
    case None => false
    case Some(source) =>
      && !IsTerminal(source.kind) && source.kind != LOOP_CONTROL
      && match Find(ns, e.target)
         case None => true
         case Some(target) =>
           !(target.kind == ERROR_HANDLER && e.kind == NEXT
             && (StartsWith(target.text, "BEGIN CATCH") || StartsWith(target.text, "EXCEPTION") || StartsWith(target.text, "WHEN ")))
  }

  /** An edge from a node to itself is proposed in vain, unless it closes a loop. */
  predicate Counts(e: Edge) {
    e.source != e.target || e.kind == LOOP_BACK
  }

  /** The edges of the refined graph. */
  predicate Refined(ns: Nodes, edges: seq<Edge>, exit: Id, e: Edge) {
    (e in edges && Stays(ns, e)) || (e in Proposals(ns, exit) && Counts(e))
  }

  // ----- what leaves a transfer -----

  predicate Distinct(ns: Nodes) {
    forall i, j | 0 <= i < j < |ns| :: ns[i].id != ns[j].id
  }

  lemma {:induction false} Unique(ns: Nodes, m: Node, n: Node)
    requires Distinct(ns) && m in ns && n in ns && m.id == n.id
    ensures m == n
  {
    var i :| 0 <= i < |ns| && ns[i] == m;
    var j :| 0 <= j < |ns| && ns[j] == n;
  }

  ghost predicate Somewhere(pass: Pass, ns: Nodes, k: nat, exit: Id, e: Edge) {
    exists i | k <= i < |ns| :: e in EdgesAt(pass, ns, i, exit)
  }

  lemma {:induction false} SomewhereStep(pass: Pass, ns: Nodes, k: nat, exit: Id, e: Edge)
    requires k < |ns|
    ensures Somewhere(pass, ns, k, exit, e) <==> e in EdgesAt(pass, ns, k, exit) || Somewhere(pass, ns, k + 1, exit, e)
  {
    hide EdgesAt;
  }

  lemma {:induction false} PassEdgeIsSomewhere(pass: Pass, ns: Nodes, k: nat, exit: Id, e: Edge)
    requires k <= |ns|
    ensures e in PassEdges(pass, ns, k, exit) <==> Somewhere(pass, ns, k, exit, e)
    decreases |ns| - k
  {
    hide EdgesAt;
    if k < |ns| {
      PassEdgeIsSomewhere(pass, ns, k + 1, exit, e);
      SomewhereStep(pass, ns, k, exit, e);
      InSum(EdgesAt(pass, ns, k, exit), PassEdges(pass, ns, k + 1, exit), e);
    }
  }

  lemma {:induction false} ArmJoinSource(ns: Nodes, root: Id, k: nat, last: nat, join: Id, e: Edge)
    requires k <= last < |ns| && e in ArmJoins(ns, root, k, last, join)
    ensures exists m | m in ns :: m.id == e.source && !IsTerminal(m.kind) && m.kind != LOOP_CONTROL
    decreases last - k
  {
    hide Meets;
    var next := FirstIn(ns, k + 1, last + 1, ArmOf(root));
    var stop := if next == None then last + 1 else next.value;
    var end := LastIn(ns, k + 1, stop, BodyOf(ns[k].id));
    if end != None && e.source == ns[end.value].id && !IsTerminal(ns[end.value].kind) && ns[end.value].kind != LOOP_CONTROL {
      assert ns[end.value] in ns;
    } else {
      ArmJoinSource(ns, root, next.value, last, join, e);
    }
  }

  lemma {:induction false} JoinSource(ns: Nodes, i: nat, exit: Id, e: Edge)
    requires i < |ns| && e in Joins(ns, i, exit)
    ensures exists m | m in ns :: m.id == e.source && !IsTerminal(m.kind) && m.kind != LOOP_CONTROL
  {
    hide Meets, ArmJoins, HasElse, LastIn;
    var last := LastIn(ns, i + 1, |ns|, Under(ns[i].id)).value;
    var join := FirstAfter(ns, last, exit);
    if e in ArmJoins(ns, ns[i].id, i, last, join) {
      ArmJoinSource(ns, ns[i].id, i, last, join, e);
    } else {
      assert e.source == ns[i].id;
    }
  }

  lemma {:induction false} SkipSource(ns: Nodes, i: nat, exit: Id, e: Edge)
    requires i < |ns| && e in HandlerSkips(ns, i, exit)
    ensures exists m | m in ns :: m.id == e.source && !IsTerminal(m.kind)
    ensures e.condition == Some("NO_EXCEPTION") || exists m | m in ns :: m.id == e.source && m.kind != LOOP_CONTROL && !IsTerminal(m.kind)
  {
    hide Ancestry, FirstIn, StartsWith, FirstAfter;
    assert ns[i] in ns;
  }

  lemma {:induction false} OtherSources(pass: Pass, ns: Nodes, i: nat, exit: Id, e: Edge)
    requires i < |ns| && pass != Transfer && e in EdgesAt(pass, ns, i, exit)
    ensures exists m | m in ns :: m.id == e.source && !IsTerminal(m.kind)
    ensures pass != SkipHandlers ==> exists m | m in ns :: m.id == e.source && !IsTerminal(m.kind) && m.kind != LOOP_CONTROL
  {
    hide HandlerSkips, Joins, LoopExitTarget, HandlerCandidates;
    assert ns[i] in ns;
    match pass
    case SkipHandlers => SkipSource(ns, i, exit, e);
    case JoinArms => JoinSource(ns, i, exit, e);
    case LeaveLoops =>
    case Fail =>
  }

  lemma {:induction false} TransferSource(ns: Nodes, i: nat, exit: Id, e: Edge)
    requires i < |ns| && e in Transfers(ns, i, exit)
    ensures e.source == ns[i].id && IsControl(e.kind)
  {
    hide EnclosingLoop, LabelNode, LabelledLoop, LoopExitTarget, RaiseTarget, FirstIn, FirstAfter, StartsWith;
  }

  lemma {:induction false} InSum(a: seq<Edge>, b: seq<Edge>, e: Edge)
    ensures e in a + b <==> e in a || e in b
  {
  }

  lemma {:induction false} SomePass(ns: Nodes, exit: Id, e: Edge)
    requires IsControl(e.kind)
    ensures e in Proposals(ns, exit) <==>
      || e in PassEdges(SkipHandlers, ns, 0, exit) || e in PassEdges(Transfer, ns, 0, exit)
      || e in PassEdges(LeaveLoops, ns, 0, exit) || e in PassEdges(JoinArms, ns, 0, exit)
      || e in PassEdges(Fail, ns, 0, exit)
  {
    hide PassEdges, CallEdges, DataEdges;
    var a, b, c := PassEdges(SkipHandlers, ns, 0, exit), PassEdges(Transfer, ns, 0, exit), PassEdges(LeaveLoops, ns, 0, exit);
    var d, f := PassEdges(JoinArms, ns, 0, exit), PassEdges(Fail, ns, 0, exit);
    var g, h := CallEdges(ns, Callees(ns)), DataEdges(ns, map[]);
    InSum(a + b + c + d + f + g, h, e);
    InSum(a + b + c + d + f, g, e);
    InSum(a + b + c + d, f, e);
    InSum(a + b + c, d, e);
    InSum(a + b, c, e);
    InSum(a, b, e);
  }

  lemma {:induction false} ProposalIsFrom(ns: Nodes, exit: Id, e: Edge)
    requires IsControl(e.kind)
    ensures e in Proposals(ns, exit) <==> exists pass, i | 0 <= i < |ns| :: e in EdgesAt(pass, ns, i, exit)
  {
    hide EdgesAt, PassEdges, Proposals;
    SomePass(ns, exit, e);
    if e in Proposals(ns, exit) {
      var pass: Pass :| e in PassEdges(pass, ns, 0, exit);
      PassEdgeIsSomewhere(pass, ns, 0, exit, e);
    }
    if pass, i :| 0 <= i < |ns| && e in EdgesAt(pass, ns, i, exit) {
      PassEdgeIsSomewhere(pass, ns, 0, exit, e);
      match pass
      case SkipHandlers =>
      case Transfer =>
      case LeaveLoops =>
      case JoinArms =>
      case Fail =>
    }
  }

  /** The control edges out of a RETURN, raise or GOTO are the ones its transfer calls for. */
  lemma {:induction false} TransferIsAll(ns: Nodes, edges: seq<Edge>, exit: Id, i: nat, e: Edge)
    requires Distinct(ns) && i < |ns| && IsTerminal(ns[i].kind) && e.source == ns[i].id && IsControl(e.kind)
    ensures Refined(ns, edges, exit, e) <==> e in Transfers(ns, i, exit) && Counts(e)
  {
    hide Proposals, EdgesAt, Transfers, Counts;
    assert ns[i] in ns;
    assert !Stays(ns, e) by {
      var source := Find(ns, e.source);
      if source != None {
        Unique(ns, source.value, ns[i]);
      }
    }
    ProposalIsFrom(ns, exit, e);
    TransfersAreAt(ns, i, exit, e);
    if pass, k :| 0 <= k < |ns| && e in EdgesAt(pass, ns, k, exit) {
      if pass != Transfer {
        OtherSources(pass, ns, k, exit, e);
        var m :| m in ns && m.id == e.source && !IsTerminal(m.kind);
        Unique(ns, m, ns[i]);
      } else {
        TransfersAreAt(ns, k, exit, e);
        TransferSource(ns, k, exit, e);
        Unique(ns, ns[k], ns[i]);
        assert k == i;
      }
    }
  }

  lemma {:induction false} TransfersAreAt(ns: Nodes, i: nat, exit: Id, e: Edge)
    requires i < |ns|
    ensures e in EdgesAt(Transfer, ns, i, exit) <==> e in Transfers(ns, i, exit)
  {
  }

  /** A RETURN leads to the exit and nowhere else. */
  lemma {:induction false} ReturnLeadsToExit(ns: Nodes, edges: seq<Edge>, exit: Id, i: nat, e: Edge)
    requires Distinct(ns) && i < |ns| && ns[i].kind == RETURN && ns[i].id != exit && e.source == ns[i].id && IsControl(e.kind)
    ensures Refined(ns, edges, exit, e) <==> e == Edge(ns[i].id, exit, BRANCH, Some("RETURN"))
  {
    hide Refined;
    TransferIsAll(ns, edges, exit, i, e);
  }

  /** A raise has exactly one control edge: an exceptional one, to the best of the innermost
      handlers in scope, or out of the routine if there is none. */
  lemma {:induction false} RaiseHasOneEdge(ns: Nodes, edges: seq<Edge>, exit: Id, i: nat, e: Edge)
    requires Distinct(ns) && i < |ns| && ns[i].kind == ERROR_RAISE && ns[i].id != exit && e.source == ns[i].id && IsControl(e.kind)
    ensures Refined(ns, edges, exit, e) <==>
      e == Edge(ns[i].id, RaiseTarget(ns, ns[i], exit), EXCEPTION, Some(Given(ns[i].errorCode, "RAISE")))
  {
    hide Refined, HandlerCandidates, Best;
    TransferIsAll(ns, edges, exit, i, e);
  }

  /** A GOTO leads to the last label of its name and nowhere else; with no such label it has no
      control edge at all. */
  lemma {:induction false} GotoLeadsToLabel(ns: Nodes, edges: seq<Edge>, exit: Id, i: nat, e: Edge)
    requires Distinct(ns) && i < |ns| && ns[i].kind == GOTO && e.source == ns[i].id && IsControl(e.kind)
    ensures Refined(ns, edges, exit, e) <==>
      GotoLabel(ns, ns[i]) != None
      && e == Edge(ns[i].id, ns[GotoLabel(ns, ns[i]).value].id, BRANCH, Some("GOTO " + ns[i].name.value))
  {
    hide Refined;
    TransferIsAll(ns, edges, exit, i, e);
    var at := GotoLabel(ns, ns[i]);
    assert at != None ==> ns[at.value].kind == LABEL && ns[at.value].id != ns[i].id;
  }

  /** The edge past an exception section that stands directly behind node i. */
  function FallThrough(ns: Nodes, i: nat): Option<Edge>
    requires i < |ns|
  {
    if i + 1 < |ns| && ns[i + 1].kind == ERROR_HANDLER && StartsWith(ns[i + 1].text, "EXCEPTION") then
      match FirstIn(ns, i + 2, |ns|, EndUnder(ns[i + 1].parent))
      case Some(k) => Some(Edge(ns[i].id, ns[k].id, NEXT, Some("NO_EXCEPTION")))
      case None => None
    else None
  }

  lemma {:induction false} ExceptionIsNoOther(text: string)
    requires StartsWith(text, "EXCEPTION")
    ensures !StartsWith(text, "DECLARE ") && !StartsWith(text, "BEGIN TRY")
  {
    assert text[0] == 'E';
  }

  /** Of the edges around handler bodies, a loop control statement can only have that one. */
  lemma {:induction false} SkipIsFallThrough(ns: Nodes, k: nat, exit: Id, i: nat, e: Edge)
    requires Distinct(ns) && k < |ns| && i < |ns| && ns[i].kind == LOOP_CONTROL && e.source == ns[i].id
    ensures e in HandlerSkips(ns, k, exit) <==> k == i + 1 && Some(e) == FallThrough(ns, i)
  {
    hide FirstIn, FirstAfter, StartsWith, Distinct, Meets;
    forall m | m in ns && m.id == e.source ensures m == ns[i] {
      Unique(ns, m, ns[i]);
    }
    if StartsWith(ns[k].text, "EXCEPTION") {
      ExceptionIsNoOther(ns[k].text);
    }
    if k > 0 && ns[k - 1].id == e.source {
      SamePlace(ns, k - 1, i);
    }
    if e in HandlerSkips(ns, k, exit) {
      SkipSources(ns, k, exit, e);
    }
  }

  lemma {:induction false} SamePlace(ns: Nodes, j: nat, i: nat)
    requires Distinct(ns) && j < |ns| && i < |ns| && ns[j].id == ns[i].id
    ensures j == i
  {
  }

  lemma {:induction false} SkipSources(ns: Nodes, k: nat, exit: Id, e: Edge)
    requires k < |ns| && e in HandlerSkips(ns, k, exit)
    ensures (exists m | m in ns :: m.id == e.source && m.kind != LOOP_CONTROL)
      || (k > 0 && e.source == ns[k - 1].id && StartsWith(ns[k].text, "EXCEPTION")
          && ns[k].kind == ERROR_HANDLER)
  {
    hide FirstIn, FirstAfter, StartsWith;
    if !StartsWith(ns[k].text, "DECLARE ") && StartsWith(ns[k].text, "BEGIN TRY") {
      var endTry := FirstIn(ns, k + 1, |ns|, Wording(BLOCK, "END TRY"));
      assert ns[endTry.value] in ns && ns[endTry.value].kind == BLOCK;
    }
    assert ns[k] in ns;
  }

  /** A loop control statement has the one edge that its keyword and label call for and, exactly
      where it stands directly in front of an exception section that has an END, a fall-through
      edge to that END. */
  lemma {:induction false} LoopControlLeads(ns: Nodes, edges: seq<Edge>, exit: Id, i: nat, e: Edge)
    requires Distinct(ns) && i < |ns| && ns[i].kind == LOOP_CONTROL && e.source == ns[i].id && IsControl(e.kind)
    ensures Refined(ns, edges, exit, e) <==>
      Counts(e) && (Some(e) == LoopControlEdge(ns, ns[i], exit) || Some(e) == FallThrough(ns, i))
  {
    hide Proposals, EdgesAt, Counts, LoopControlEdge, FallThrough, Distinct, HandlerSkips, FirstIn, IsTerminal;
    assert ns[i] in ns;
    assert !Stays(ns, e) by {
      var source := Find(ns, e.source);
      if source != None {
        Unique(ns, source.value, ns[i]);
      }
    }
    ProposalIsFrom(ns, exit, e);
    TransfersAreAt(ns, i, exit, e);
    if i + 1 < |ns| {
      SkipsAreAt(ns, i + 1, exit, e);
      SkipIsFallThrough(ns, i + 1, exit, i, e);
    }
    NothingBehind(ns, i);
    if pass, k :| 0 <= k < |ns| && e in EdgesAt(pass, ns, k, exit) {
      if pass == SkipHandlers {
        SkipsAreAt(ns, k, exit, e);
        SkipIsFallThrough(ns, k, exit, i, e);
      } else if pass == Transfer {
        TransfersAreAt(ns, k, exit, e);
        TransferSource(ns, k, exit, e);
        SamePlace(ns, k, i);
      } else {
        NotFromLoopControl(pass, ns, k, exit, i, e);
      }
    }
  }

  lemma {:induction false} NothingBehind(ns: Nodes, i: nat)
    requires i < |ns|
    ensures i + 1 == |ns| ==> FallThrough(ns, i) == None
  {
  }

  lemma {:induction false} SkipsAreAt(ns: Nodes, k: nat, exit: Id, e: Edge)
    requires k < |ns|
    ensures e in EdgesAt(SkipHandlers, ns, k, exit) <==> e in HandlerSkips(ns, k, exit)
  {
  }

  lemma {:induction false} NotFromLoopControl(pass: Pass, ns: Nodes, k: nat, exit: Id, i: nat, e: Edge)
    requires Distinct(ns) && k < |ns| && i < |ns| && ns[i].kind == LOOP_CONTROL && e.source == ns[i].id
    requires pass != Transfer && pass != SkipHandlers
    ensures e !in EdgesAt(pass, ns, k, exit)
  {
    hide EdgesAt, Distinct;
    if e in EdgesAt(pass, ns, k, exit) {
      OtherSources(pass, ns, k, exit, e);
      forall m | m in ns && m.id == e.source ensures m == ns[i] {
        Unique(ns, m, ns[i]);
      }
    }
  }

  /** L: BEGIN ... LEAVE L; EXCEPTION ... END L. */
  function LeaveBeforeHandler(): Nodes {
    [Plain("l", LABEL, None, "L:", "", Some("L")), Plain("b", BLOCK, Some("l"), "BEGIN", "", None),
     Plain("x", LOOP_CONTROL, Some("b"), "LEAVE L", "LEAVE", Some("L")),
     Plain("h", ERROR_HANDLER, Some("b"), "EXCEPTION", "", None), Plain("e", BLOCK, Some("b"), "END L", "", None)]
  }

  function Plain(id: Id, kind: Kind, parent: Option<Id>, text: string, control: string, name: Option<string>): Node {
    Node(id, kind, parent, text, OpensBranch, None, None, {}, control, name, None, [], [], MUST)
  }

  /** The LEAVE gets a fall-through edge beside its own. */
  lemma {:induction false} LeaveFallsThrough(edges: seq<Edge>)
    ensures var ns := LeaveBeforeHandler();
      && Refined(ns, edges, "exit", Edge("x", "exit", BRANCH, Some("LEAVE L")))
      && Refined(ns, edges, "exit", Edge("x", "e", NEXT, Some("NO_EXCEPTION")))
  {
    hide Refined, Distinct;
    LeaveIsDistinct();
    LeaveEdges();
    LoopControlLeads(LeaveBeforeHandler(), edges, "exit", 2, Edge("x", "exit", BRANCH, Some("LEAVE L")));
    LoopControlLeads(LeaveBeforeHandler(), edges, "exit", 2, Edge("x", "e", NEXT, Some("NO_EXCEPTION")));
    assert "x"[0] != "e"[0];
  }

  lemma {:induction false} LeaveIsDistinct()
    ensures var ns := LeaveBeforeHandler(); |ns| == 5 && ns[2].kind == LOOP_CONTROL && ns[2].id == "x" && Distinct(ns)
  {
    assert "l"[0] == 'l' && "b"[0] == 'b' && "x"[0] == 'x' && "h"[0] == 'h' && "e"[0] == 'e';
  }

  lemma {:induction false} LeaveNodes()
    ensures var ns := LeaveBeforeHandler();
      && |ns| == 5 && ns[0] == Plain("l", LABEL, None, "L:", "", Some("L")) && ns[1].kind == BLOCK && ns[1].text == "BEGIN"
      && ns[2] == Plain("x", LOOP_CONTROL, Some("b"), "LEAVE L", "LEAVE", Some("L"))
      && ns[3] == Plain("h", ERROR_HANDLER, Some("b"), "EXCEPTION", "", None)
      && ns[4] == Plain("e", BLOCK, Some("b"), "END L", "", None)
  {
    hide Plain;
    PlainIs("b", BLOCK, Some("l"), "BEGIN", "", None);
  }

  lemma {:induction false} PlainIs(id: Id, kind: Kind, parent: Option<Id>, text: string, control: string,
                                   name: Option<string>)
    ensures var n := Plain(id, kind, parent, text, control, name);
      n.id == id && n.kind == kind && n.parent == parent && n.text == text && n.control == control && n.name == name
  {
  }

  lemma {:induction false} LeaveSkips()
    ensures |LeaveBeforeHandler()| == 5
    ensures FallThrough(LeaveBeforeHandler(), 2) == Some(Edge("x", "e", NEXT, Some("NO_EXCEPTION")))
  {
    hide Ancestry, LeaveBeforeHandler, Meets;
    LeaveNodes();
    var ns := LeaveBeforeHandler();
    assert Meets(ns, ns[4], EndUnder(Some("b"))) by {
      EndMeets(ns, ns[4]);
    }
    assert FirstIn(ns, 4, 5, EndUnder(Some("b"))) == Some(4);
  }

  lemma {:induction false} EndMeets(ns: Nodes, n: Node)
    requires n.kind == BLOCK && n.text == "END L"
    ensures Meets(ns, n, EndUnder(n.parent)) && Meets(ns, n, Wording(BLOCK, "END L"))
  {
  }

  lemma {:induction false} LeaveLabel()
    ensures LabelNode(LeaveBeforeHandler(), "L") == Some(0)
  {
    hide LeaveBeforeHandler, Ancestry, IsDescendant;
    LeaveNodes();
    var ns, q := LeaveBeforeHandler(), LabelNamed("L");
    assert LastIn(ns, 0, 1, q) == Some(0);
    assert LastIn(ns, 0, 3, q) == Some(0);
  }

  lemma {:induction false} LeaveEdges()
    ensures |LeaveBeforeHandler()| == 5
    ensures FallThrough(LeaveBeforeHandler(), 2) == Some(Edge("x", "e", NEXT, Some("NO_EXCEPTION")))
    ensures LoopControlEdge(LeaveBeforeHandler(), LeaveBeforeHandler()[2], "exit") == Some(Edge("x", "exit", BRANCH, Some("LEAVE L")))
  {
    hide LeaveBeforeHandler, Meets, LabelNode, FallThrough, LabelledLoop, EnclosingLoop, LoopExitTarget;
    LeaveNodes();
    LeaveSkips();
    LeaveLabel();
    LeaveEnd();
    assert "END " + "L" == "END L" && "LEAVE" + " " + "L" == "LEAVE L";
    assert "LEAVE"[0] != "ITERATE"[0];
  }

  lemma {:induction false} LeaveEnd()
    ensures |LeaveBeforeHandler()| == 5 && FirstIn(LeaveBeforeHandler(), 1, 5, Wording(BLOCK, "END L")) == Some(4)
  {
    hide LeaveBeforeHandler, Ancestry, IsDescendant;
    LeaveNodes();
    var ns, q := LeaveBeforeHandler(), Wording(BLOCK, "END L");
    EndMeets(ns, ns[4]);
    assert FirstIn(ns, 3, 5, q) == Some(4);
    assert !Meets(ns, ns[1], q) by {
      assert ns[1].text[0] == 'B';
    }
  }

  // ----- reachability -----

  ghost predicate Linked(edges: seq<Edge>, a: Id, b: Id) {
    exists e | e in edges :: e.source == a && e.target == b && IsControl(e.kind)
  }

  ghost predicate IsWalk(edges: seq<Edge>, entry: Id, p: seq<Id>) {
    p != [] && p[0] == entry && forall i | 0 < i < |p| :: Linked(edges, p[i - 1], p[i])
  }

  /** Control can come from the entry to id. */
  ghost predicate Reaches(edges: seq<Edge>, entry: Id, id: Id) {
    exists p :: IsWalk(edges, entry, p) && p[|p| - 1] == id
  }

  lemma {:induction false} EntryReaches(edges: seq<Edge>, entry: Id)
    ensures Reaches(edges, entry, entry)
  {
    assert IsWalk(edges, entry, [entry]) && [entry][0] == entry;
  }

  lemma {:induction false} LinkReaches(edges: seq<Edge>, entry: Id, a: Id, b: Id)
    requires Reaches(edges, entry, a) && Linked(edges, a, b)
    ensures Reaches(edges, entry, b)
  {
    hide Linked;
    var p :| IsWalk(edges, entry, p) && p[|p| - 1] == a;
    var q := p + [b];
    forall i | 0 < i < |q| ensures Linked(edges, q[i - 1], q[i]) {
      assert q[i - 1] == p[i - 1];
      assert i < |p| ==> q[i] == p[i];
    }
    assert IsWalk(edges, entry, q) && q[|q| - 1] == b;
  }

  lemma {:induction false} WalkStays(edges: seq<Edge>, entry: Id, s: set<Id>, p: seq<Id>)
    requires entry in s && (forall a, b :: a in s && Linked(edges, a, b) ==> b in s) && IsWalk(edges, entry, p)
    ensures p[|p| - 1] in s
    decreases |p|
  {
    if |p| > 1 {
      var q := p[..|p| - 1];
      assert IsWalk(edges, entry, q);
      WalkStays(edges, entry, s, q);
      assert Linked(edges, p[|p| - 2], p[|p| - 1]);
    }
  }

  predicate Leads(next: map<Id, seq<Id>>, a: Id, b: Id) {
    a in next && b in next[a]
  }

  function Leading(next: map<Id, seq<Id>>, a: Id, b: Id): map<Id, seq<Id>> {
    next[a := (if a in next then next[a] else []) + [b]]
  }

  lemma {:induction false} LeadsWith(next: map<Id, seq<Id>>, s: Id, t: Id, a: Id, b: Id)
    ensures Leads(Leading(next, s, t), a, b) <==> Leads(next, a, b) || (a == s && b == t)
  {
  }

  lemma {:induction false} NoLinks(a: Id, b: Id)
    ensures !Linked([], a, b)
  {
  }

  lemma {:induction false} LinkedWith(edges: seq<Edge>, e: Edge, a: Id, b: Id)
    ensures Linked(edges + [e], a, b) <==> Linked(edges, a, b) || (e.source == a && e.target == b && IsControl(e.kind))
  {
    var all := edges + [e];
    assert e in all;
    if Linked(edges, a, b) {
      var d :| d in edges && d.source == a && d.target == b && IsControl(d.kind);
      assert d in all;
    }
  }

  method Adjacency(edges: seq<Edge>) returns (next: map<Id, seq<Id>>)
    ensures forall a, b :: Leads(next, a, b) <==> Linked(edges, a, b)
  {
    hide Linked, Leading;
    next := map[];
    forall a, b ensures !Linked([], a, b) {
      NoLinks(a, b);
    }
    for i := 0 to |edges|
      invariant forall a, b :: Leads(next, a, b) <==> Linked(edges[..i], a, b)
    {
      var e := edges[i];
      assert edges[..i + 1] == edges[..i] + [e];
      forall a, b
        ensures Linked(edges[..i + 1], a, b) <==> Linked(edges[..i], a, b) || (e.source == a && e.target == b && IsControl(e.kind))
      {
        LinkedWith(edges[..i], e, a, b);
      }
      if IsControl(e.kind) {
        forall a, b
          ensures Leads(Leading(next, e.source, e.target), a, b) <==> Leads(next, a, b) || (a == e.source && b == e.target)
        {
          LeadsWith(next, e.source, e.target, a, b);
        }
        next := Leading(next, e.source, e.target);
      }
    }
    assert edges[..|edges|] == edges;
  }

  ghost predicate Frontier(edges: seq<Edge>, entry: Id, found: set<Id>, queue: seq<Id>) {
    && entry in found && (forall a :: a in queue ==> a in found)
    && (forall a :: a in found ==> Reaches(edges, entry, a) && a in Ends(edges, entry))
    && (forall a, b :: a in found && Linked(edges, a, b) ==> b in found || a in queue)
  }

  ghost function Ends(edges: seq<Edge>, entry: Id): set<Id> {
    {entry} + set e | e in edges :: e.target
  }

  /** Breadth-first search along control edges finds exactly the nodes that control reaches. */
  method Reach(edges: seq<Edge>, entry: Id) returns (found: set<Id>)
    ensures forall id :: id in found <==> Reaches(edges, entry, id)
  {
    var next := Adjacency(edges);
    found := {entry};
    var queue := [entry];
    EntryReaches(edges, entry);
    while queue != []
      invariant Frontier(edges, entry, found, queue)
      decreases |Ends(edges, entry) - found|, |queue|
    {
      found, queue := Visit(edges, next, entry, found, queue);
    }
    forall id | Reaches(edges, entry, id) ensures id in found {
      var p :| IsWalk(edges, entry, p) && p[|p| - 1] == id;
      WalkStays(edges, entry, found, p);
    }
  }

  /** Takes one node from the queue and adds its new successors. */
  method Visit(edges: seq<Edge>, next: map<Id, seq<Id>>, entry: Id, was: set<Id>, before: seq<Id>)
      returns (found: set<Id>, queue: seq<Id>)
    requires before != [] && Frontier(edges, entry, was, before)
    requires forall a, b :: Leads(next, a, b) <==> Linked(edges, a, b)
    ensures Frontier(edges, entry, found, queue)
    ensures |Ends(edges, entry) - found| < |Ends(edges, entry) - was|
      || (found == was && |queue| < |before|)
  {
    hide Reaches, Linked;
    var a := before[0];
    found, queue := was, before[1..];
    assert before == [a] + queue;
    var ts := if a in next then next[a] else [];
    for i := 0 to |ts|
      invariant was <= found && (found == was ==> queue == before[1..])
      invariant forall b | b in ts[..i] :: b in found
      invariant forall b :: b in queue ==> b in found
      invariant forall b :: b in found ==> Reaches(edges, entry, b) && b in Ends(edges, entry)
      invariant forall b :: b in before[1..] ==> b in queue
      invariant forall b :: b in found && b !in was ==> b in queue
    {
      var b := ts[i];
      assert ts[..i + 1] == ts[..i] + [b];
      if b !in found {
        assert Leads(next, a, b);
        LinkReaches(edges, entry, a, b);
        LinkEnds(edges, entry, a, b);
        found, queue := found + {b}, queue + [b];
      }
    }
    assert ts[..|ts|] == ts;
    FrontierMoves(edges, entry, was, before, found, queue);
    Fewer(Ends(edges, entry), was, found);
  }

  lemma {:induction false} LinkEnds(edges: seq<Edge>, entry: Id, a: Id, b: Id)
    requires Linked(edges, a, b)
    ensures b in Ends(edges, entry)
  {
  }

  lemma {:induction false} Fewer(all: set<Id>, was: set<Id>, found: set<Id>)
    requires was <= found <= all
    ensures found == was || |all - found| < |all - was|
  {
    if found != was {
      var x :| x in found && x !in was;
      assert all - found < all - was;
      FewerElements(all - found, all - was);
    }
  }

  lemma {:induction false} FewerElements(a: set<Id>, b: set<Id>)
    requires a < b
    ensures |a| < |b|
  {
    assert b == a + (b - a);
  }

  lemma {:induction false} FrontierMoves(edges: seq<Edge>, entry: Id, was: set<Id>, before: seq<Id>, found: set<Id>,
                                         queue: seq<Id>)
    requires before != [] && Frontier(edges, entry, was, before) && was <= found
    requires forall b :: Linked(edges, before[0], b) ==> b in found
    requires forall b :: b in queue ==> b in found
    requires forall b :: b in found ==> Reaches(edges, entry, b) && b in Ends(edges, entry)
    requires forall b :: b in before[1..] ==> b in queue
    requires forall b :: b in found && b !in was ==> b in queue
    ensures Frontier(edges, entry, found, queue)
  {
    hide Reaches, Linked;
    assert before == [before[0]] + before[1..];
  }

  // ----- ancestors -----

  /** The chain of parents is closed under parents. */
  lemma {:induction false} AncestorsClosed(ns: Nodes, current: Option<Id>, seen: set<Id>, id: Id)
    requires id in Ancestors(ns, current, seen) && Find(ns, id) != None
    ensures var up := Find(ns, id).value.parent;
      up == None || up.value == "" || up.value in seen || up.value in Ancestors(ns, current, seen)
    decreases |IdsOf(ns) - seen|
  {
    var first := current.value;
    match Find(ns, first)
    case None =>
    case Some(parent) =>
      assert IdsOf(ns) - seen == (IdsOf(ns) - (seen + {first})) + {first};
      var rest := Ancestors(ns, parent.parent, seen + {first});
      if id == first {
        FirstAncestorIs(ns, parent.parent, seen + {first});
      } else {
        AncestorsClosed(ns, parent.parent, seen + {first}, id);
      }
  }

  lemma {:induction false} FirstAncestorIs(ns: Nodes, current: Option<Id>, seen: set<Id>)
    ensures current == None || current.value == "" || current.value in seen || current.value in Ancestors(ns, current, seen)
  {
  }

  /** It is the least such chain. */
  lemma {:induction false} AncestorsLeast(ns: Nodes, current: Option<Id>, seen: set<Id>, s: seq<Id>, id: Id)
    requires id in Ancestors(ns, current, seen)
    requires current == None || current.value == "" || current.value in s
    requires ClosedUp(ns, s)
    ensures id in s
    decreases |IdsOf(ns) - seen|
  {
    var first := current.value;
    match Find(ns, first)
    case None =>
    case Some(parent) =>
      assert IdsOf(ns) - seen == (IdsOf(ns) - (seen + {first})) + {first};
      if id != first {
        AncestorsLeast(ns, parent.parent, seen + {first}, s, id);
      }
  }

  ghost predicate ClosedUp(ns: Nodes, s: seq<Id>) {
    forall x | x in s && Find(ns, x) != None ::
      var up := Find(ns, x).value.parent;
      up == None || up.value == "" || up.value in s
  }

  lemma {:induction false} DescendantsNest(ns: Nodes, a: Id, b: Id, c: Id)
    requires IsDescendant(ns, a, b) && IsDescendant(ns, b, c)
    ensures IsDescendant(ns, a, c)
  {
    var na, nb := Find(ns, a).value, Find(ns, b).value;
    var s := Ancestry(ns, na);
    forall x | x in s && Find(ns, x) != None
      ensures var up := Find(ns, x).value.parent; up == None || up.value == "" || up.value in s
    {
      AncestorsClosed(ns, na.parent, {}, x);
    }
    assert ClosedUp(ns, s);
    AncestorsLeast(ns, nb.parent, {}, s, c);
  }

  // ----- marking what is unreachable -----

  ghost predicate HasLiveDescendant(ns: Nodes, edges: seq<Edge>, entry: Id, n: Node) {
    exists c | c in ns :: Reaches(edges, entry, c.id) && IsDescendant(ns, c.id, n.id)
  }

  /** Control reaches n, or n is a handler and control reaches something inside it. */
  ghost predicate Live(ns: Nodes, edges: seq<Edge>, entry: Id, n: Node) {
    Reaches(edges, entry, n.id) || (n.kind == ERROR_HANDLER && HasLiveDescendant(ns, edges, entry, n))
  }

  lemma {:induction false} LiftedIsLive(ns: Nodes, edges: seq<Edge>, entry: Id, h: Node, c: Node)
    requires Distinct(ns) && h in ns && c in ns && h.kind == ERROR_HANDLER
    requires Live(ns, edges, entry, c) && IsDescendant(ns, c.id, h.id)
    ensures HasLiveDescendant(ns, edges, entry, h)
  {
    hide Reaches, IsDescendant;
    if !Reaches(edges, entry, c.id) {
      var d :| d in ns && Reaches(edges, entry, d.id) && IsDescendant(ns, d.id, c.id);
      DescendantsNest(ns, d.id, c.id, h.id);
    }
  }

  ghost predicate Lifted(ns: Nodes, edges: seq<Edge>, entry: Id, k: nat, live: set<Id>)
    requires k <= |ns|
  {
    && (forall id :: Reaches(edges, entry, id) ==> id in live)
    && (forall n | n in ns[..k] :: n.id in live <==> Live(ns, edges, entry, n))
    && (forall n | n in ns && n.id in live :: Live(ns, edges, entry, n))
  }

  lemma {:induction false} LiftOne(ns: Nodes, edges: seq<Edge>, entry: Id, k: nat, live: set<Id>, now: set<Id>)
    requires Distinct(ns) && k < |ns| && Lifted(ns, edges, entry, k, live)
    requires now == live + (if ns[k].kind == ERROR_HANDLER && exists c | c in ns :: c.id in live && IsDescendant(ns, c.id, ns[k].id)
                            then {ns[k].id} else {})
    ensures Lifted(ns, edges, entry, k + 1, now)
  {
    hide Reaches, IsDescendant;
    var h := ns[k];
    assert h in ns && ns[..k + 1] == ns[..k] + [h];
    if h.kind == ERROR_HANDLER {
      if c :| c in ns && c.id in live && IsDescendant(ns, c.id, h.id) {
        LiftedIsLive(ns, edges, entry, h, c);
      }
    }
    forall n | n in ns && n.id in now ensures Live(ns, edges, entry, n) {
      if n.id == h.id {
        Unique(ns, n, h);
      }
    }
    forall n | n in ns[..k] ensures n in ns {
    }
  }

  /** A handler counts as reachable whenever something inside it is. */
  method LiftHandlers(ns: Nodes, ghost edges: seq<Edge>, ghost entry: Id, reached: set<Id>) returns (live: set<Id>)
    requires Distinct(ns) && forall id :: id in reached <==> Reaches(edges, entry, id)
    ensures forall n | n in ns :: n.id in live <==> Live(ns, edges, entry, n)
  {
    hide Reaches, IsDescendant;
    live := reached;
    for k := 0 to |ns|
      invariant Lifted(ns, edges, entry, k, live)
    {
      ghost var was := live;
      if ns[k].kind == ERROR_HANDLER && exists c | c in ns :: c.id in live && IsDescendant(ns, c.id, ns[k].id) {
        live := live + {ns[k].id};
      }
      LiftOne(ns, edges, entry, k, was, live);
    }
    assert ns[..|ns|] == ns;
  }

  predicate IsExempt(k: Kind) {
    k == ENTRY || k == EXIT || k == CALL_TARGET
  }

  function Marked(n: Node, live: bool): Node {
    if IsExempt(n.kind) || live then n else n.(modality := UNKNOWN)
  }

  method Adjust(ns: Nodes, live: set<Id>) returns (adjusted: Nodes)
    ensures |adjusted| == |ns|
    ensures forall i | 0 <= i < |ns| :: adjusted[i] == Marked(ns[i], ns[i].id in live)
  {
    adjusted := [];
    for k := 0 to |ns|
      invariant |adjusted| == k
      invariant forall i | 0 <= i < k :: adjusted[i] == Marked(ns[i], ns[i].id in live)
    {
      if IsExempt(ns[k].kind) || ns[k].id in live {
        adjusted := adjusted + [ns[k]];
      } else {
        adjusted := adjusted + [ns[k].(modality := UNKNOWN)];
      }
    }
  }

  // ----- the whole pass -----

  predicate NoDuplicates(edges: seq<Edge>) {
    forall i, j | 0 <= i < j < |edges| :: edges[i] != edges[j]
  }

  /** The edges that stay, then the proposals that are new. */
  method RefineEdges(ns: Nodes, edges: seq<Edge>, exit: Id) returns (unique: seq<Edge>)
    ensures NoDuplicates(unique)
    ensures forall e :: e in unique <==> Refined(ns, edges, exit, e)
  {
    hide Stays, Proposals;
    var control: seq<Edge> := [];
    for i := 0 to |edges|
      invariant forall e :: e in control <==> e in edges[..i] && Stays(ns, e)
    {
      assert edges[..i + 1] == edges[..i] + [edges[i]];
      if Stays(ns, edges[i]) {
        control := control + [edges[i]];
      }
    }
    assert edges[..|edges|] == edges;
    var proposed := Proposals(ns, exit);
    ghost var kept := control;
    for i := 0 to |proposed|
      invariant forall e :: e in control <==> e in kept || (e in proposed[..i] && Counts(e))
    {
      assert proposed[..i + 1] == proposed[..i] + [proposed[i]];
      if Counts(proposed[i]) && proposed[i] !in control {
        control := control + [proposed[i]];
      }
    }
    assert proposed[..|proposed|] == proposed;
    unique := [];
    for i := 0 to |control|
      invariant NoDuplicates(unique) && forall e :: e in unique <==> e in control[..i]
    {
      assert control[..i + 1] == control[..i] + [control[i]];
      if control[i] !in unique {
        unique := unique + [control[i]];
      }
    }
    assert control[..|control|] == control;
  }

  /** The refined graph: every source statement in order, then one node per external routine; the
      refined edges, none twice; and a statement is marked UNKNOWN exactly when it is neither the
      entry, the exit, reached by control, nor a handler with something reached inside. */
  method RefineControlFlow(nodes: Nodes, edges: seq<Edge>, entry: Id, exit: Id)
      returns (adjusted: Nodes, unique: seq<Edge>)
    requires Distinct(SourceNodes(nodes))
    ensures var ns := SourceNodes(nodes);
      && NoDuplicates(unique) && (forall e :: e in unique <==> Refined(ns, edges, exit, e))
      && |adjusted| == |ns| + |Callees(ns)| && adjusted[|ns|..] == TargetNodes(Callees(ns))
      && forall i | 0 <= i < |ns| :: adjusted[i] ==
           if ns[i].kind in {ENTRY, EXIT, CALL_TARGET} || Live(ns, unique, entry, ns[i]) then ns[i]
           else ns[i].(modality := UNKNOWN)
  {
    hide Refined, Live, Callees, Reaches;
    var ns := SourceNodes(nodes);
    NoTargets(nodes);
    unique := RefineEdges(ns, edges, exit);
    var reached := Reach(unique, entry);
    var live := LiftHandlers(ns, unique, entry, reached);
    var all := ns + TargetNodes(Callees(ns));
    adjusted := Adjust(all, live);
    forall i | 0 <= i < |ns| ensures all[i] == ns[i] && ns[i] in ns {
    }
    forall i | |ns| <= i < |all| ensures all[i] == TargetNodes(Callees(ns))[i - |ns|] {
    }
    assert adjusted[|ns|..] == TargetNodes(Callees(ns));
  }

  lemma {:induction false} NoTargets(nodes: Nodes)
    ensures forall n | n in SourceNodes(nodes) :: n in nodes && n.kind != CALL_TARGET
  {
    if nodes != [] {
      NoTargets(nodes[1..]);
    }
  }
}
