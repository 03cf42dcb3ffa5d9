/** Recovery of nesting from a flat statement stream: the region stack and the loop that drives it. */
module RegionTracker {
  import opened Basics

  /* Statements arrive classified.  The stack, its closing rules and the loop are modelled for all
     dialects; the tree theorem is for those that close every region by an END of its own. */

  datatype Dialect = Db2 | MySql | TSql | Oracle | PlPgSql

  datatype FrameKind = IF | CASE | LOOP | BLOCK | HANDLER | TRYCATCH

  datatype Branch = OpensIf | ElseIf | Else | When

  datatype HandlerForm = DeclaresHandler | BeginTry | BeginCatch | WhenClause | OtherHandler

  datatype EndForm = EndIf | EndLoop | EndCase | EndCatch | EndTry | EndPlain

  /** A classified statement.  startsWithBegin marks statements such as BEGIN TRANSACTION. */
  datatype Statement =
    | Condition(branch: Branch)
    | CaseHead
    | LoopHead
    | Handler(form: HandlerForm)
    | Begin
    | End(end: EndForm)
    | Plain(startsWithBegin: bool)

  /** Statements are numbered from one in source order. */
  type Id = nat

  datatype Frame = Frame(kind: FrameKind, root: Id, active: Id, owner: Option<(FrameKind, Id)>, singleStatement: bool)

  type Frames = seq<Frame>

  // ----- reading the stack -----

  function CurrentParent(frames: Frames): Option<Id> {
    if frames == [] then None else Some(frames[|frames| - 1].active)
  }

  /** The position of the innermost frame of one of the given kinds. */
  function Nearest(frames: Frames, kinds: set<FrameKind>): (r: Option<nat>)
    ensures r != None ==> r.value < |frames| && frames[r.value].kind in kinds
  {
    if frames == [] then None
    else if frames[|frames| - 1].kind in kinds then Some(|frames| - 1)
    else Nearest(frames[..|frames| - 1], kinds)
  }

  function RootOfNearest(frames: Frames, kinds: set<FrameKind>): Option<Id> {
    var i := Nearest(frames, kinds);
    if i != None then Some(frames[i.value].root) else CurrentParent(frames)
  }

  function ParentFor(frames: Frames, s: Statement): Option<Id> {
    match s
    case Condition(Else) => RootOfNearest(frames, {IF, CASE})
    case Condition(ElseIf) => RootOfNearest(frames, {IF})
    case Condition(When) => RootOfNearest(frames, {CASE, HANDLER})
    case Handler(BeginCatch) => RootOfNearest(frames, {TRYCATCH})
    case Handler(WhenClause) => RootOfNearest(frames, {HANDLER})
    case _ => CurrentParent(frames)
  }

  predicate IsConditional(frames: Frames) {
    exists f | f in frames :: f.kind != BLOCK
  }

  // ----- changing the stack -----

  predicate BeginsNext(next: Option<Statement>) {
    match next
    case Some(Begin) | Some(Handler(BeginTry)) | Some(Handler(BeginCatch)) => true
    case Some(Plain(startsWithBegin)) => startsWithBegin
    case _ => false
  }

  predicate ElseNext(next: Option<Statement>) {
    next == Some(Condition(Else)) || next == Some(Condition(ElseIf))
  }

  function Push(frames: Frames, kind: FrameKind, id: Id, single: bool): Frames {
    frames + [Frame(kind, id, id, None, single)]
  }

  /** Makes id the active arm of the innermost frame of the given kinds. */
  function Activate(frames: Frames, kinds: set<FrameKind>, id: Id): Option<Frames> {
    var i := Nearest(frames, kinds);
    if i == None then None else Some(frames[i.value := frames[i.value].(active := id)])
  }

  /** The stack after a statement, and the frames it closed, innermost first. */
  type Change = (Frames, seq<Frame>)

  function PopUntil(frames: Frames, kind: FrameKind): Change {
    if frames == [] then ([], [])
    else
      var top, below := frames[|frames| - 1], frames[..|frames| - 1];
      if top.kind == kind then (below, [top])
      else
        var (rest, closed) := PopUntil(below, kind);
        (rest, [top] + closed)
  }

  predicate OwnerIsOpen(frames: Frames, owner: (FrameKind, Id)) {
    var i := Nearest(frames, {owner.0});
    i != None && frames[i.value].root == owner.1
  }

  function CloseForEnd(d: Dialect, frames: Frames, form: EndForm, next: Option<Statement>): Change {
    match form
    case EndIf => PopUntil(frames, IF)
    case EndLoop => PopUntil(frames, LOOP)
    case EndCase => PopUntil(frames, CASE)
    case EndCatch => PopUntil(frames, TRYCATCH)
    case EndTry => (frames, [])
    case EndPlain =>
      if frames == [] then ([], [])
      else
        var top, below := frames[|frames| - 1], frames[..|frames| - 1];
        if top.kind == BLOCK then
          if top.owner != None && (top.owner.value.0 == HANDLER || d == TSql) && OwnerIsOpen(below, top.owner.value)
             && !(d == TSql && top.owner.value.0 == IF && ElseNext(next)) then
            (below[..|below| - 1], [top, below[|below| - 1]])
          else (below, [top])
        else if top.kind == HANDLER && below != [] && below[|below| - 1].kind == BLOCK then
          (below[..|below| - 1], [top, below[|below| - 1]])
        else (below, [top])
  }

  function After(d: Dialect, frames: Frames, id: Id, s: Statement, next: Option<Statement>): Change {
    var single := d == TSql && !BeginsNext(next);
    match s
    case Condition(OpensIf) => (Push(frames, IF, id, single), [])
    case Condition(branch) =>
      var kinds := match branch case Else => {IF, CASE} case When => {CASE, HANDLER} case _ => {IF};
      (match Activate(frames, kinds, id) case Some(now) => now case None => frames, [])
    case CaseHead => (Push(frames, CASE, id, false), [])
    case LoopHead => (Push(frames, LOOP, id, single), [])
    case Handler(form) =>
      if (d == Db2 || d == MySql) && form == DeclaresHandler && !BeginsNext(next) then (frames, [])
      else if form == BeginTry then (Push(frames, TRYCATCH, id, false), [])
      else
        var update := match form
          case BeginCatch => Activate(frames, {TRYCATCH}, id)
          case WhenClause => Activate(frames, {HANDLER}, id)
          case _ => None;
        (if update != None then update.value else Push(frames, HANDLER, id, false), [])
    case Begin =>
      var owner := if frames == [] then None else Some((frames[|frames| - 1].kind, frames[|frames| - 1].root));
      (frames + [Frame(BLOCK, id, id, owner, false)], [])
    case End(form) => CloseForEnd(d, frames, form, next)
    case Plain(_) =>
      if d == TSql && frames != [] && frames[|frames| - 1].singleStatement then
        (frames[..|frames| - 1], [frames[|frames| - 1]])
      else (frames, [])
  }

  /** WHEN clauses inside an exception section, outside any CASE, are handlers. */
  function Reclassify(frames: Frames, s: Statement): Statement {
    if s == Condition(When) && Nearest(frames, {HANDLER}) != None && Nearest(frames, {CASE}) == None
    then Handler(WhenClause) else s
  }

  // ----- a run over a stream -----

  /** What is recorded for a statement: its parent, and whether it may be skipped. */
  datatype Info = Info(parent: Option<Id>, conditional: bool)

  /** An edge from the statement that closes a loop back to its header. */
  datatype LoopBack = LoopBack(source: Id, target: Id)

  datatype Run = Run(frames: Frames, infos: seq<Info>, backs: seq<LoopBack>)

  function BackEdges(id: Id, closed: seq<Frame>): seq<LoopBack> {
    if closed == [] then []
    else (if closed[0].kind == LOOP then [LoopBack(id, closed[0].root)] else []) + BackEdges(id, closed[1..])
  }

  function First(ss: seq<Statement>, next: Option<Statement>): Option<Statement> {
    if ss == [] then next else Some(ss[0])
  }

  /** The run over ss from the given stack; next is the statement behind ss. */
  function RunAll(d: Dialect, frames: Frames, ss: seq<Statement>, next: Option<Statement>, id: Id): Run
    decreases ss
  {
    if ss == [] then Run(frames, [], [])
    else
      var s := Reclassify(frames, ss[0]);
      var (now, closed) := After(d, frames, id, s, First(ss[1..], next));
      var rest := RunAll(d, now, ss[1..], next, id + 1);
      Run(rest.frames, [Info(ParentFor(frames, s), IsConditional(frames))] + rest.infos, BackEdges(id, closed) + rest.backs)
  }

  // ----- program trees -----

  datatype Arm = Arm(isElse: bool, body: seq<Tree>)

  /** Choice is IF with its ELSEIF and ELSE arms, or CASE with its WHEN and ELSE arms.  A loop
      closed by END FOR ends in a plain END. */
  datatype Tree =
    | Leaf
    | InlineHandler
    | HandlerBlock(body: seq<Tree>)
    | Block(body: seq<Tree>)
    | Choice(isIf: bool, first: seq<Tree>, arms: seq<Arm>)
    | Loop(body: seq<Tree>, plainEnd: bool)

  function ArmHead(isIf: bool, arm: Arm): Statement {
    Condition(if arm.isElse then Else else if isIf then ElseIf else When)
  }

  function ChoiceHead(isIf: bool): Statement {
    if isIf then Condition(OpensIf) else CaseHead
  }

  function ChoiceEnd(isIf: bool): Statement {
    End(if isIf then EndIf else EndCase)
  }

  function LoopEnd(plainEnd: bool): Statement {
    End(if plainEnd then EndPlain else EndLoop)
  }

  function Flat(t: Tree): seq<Statement>
    decreases t
  {
    match t
    case Leaf => [Plain(false)]
    case InlineHandler => [Handler(DeclaresHandler)]
    case HandlerBlock(body) => [Handler(DeclaresHandler), Begin] + FlatAll(body) + [End(EndPlain)]
    case Block(body) => [Begin] + FlatAll(body) + [End(EndPlain)]
    case Choice(isIf, first, arms) => [ChoiceHead(isIf)] + FlatAll(first) + FlatArms(isIf, arms) + [ChoiceEnd(isIf)]
    case Loop(body, plainEnd) => [LoopHead] + FlatAll(body) + [LoopEnd(plainEnd)]
  }

  function FlatAll(ts: seq<Tree>): seq<Statement>
    decreases ts
  {
    if ts == [] then [] else Flat(ts[0]) + FlatAll(ts[1..])
  }

  function FlatArms(isIf: bool, arms: seq<Arm>): seq<Statement>
    decreases arms
  {
    if arms == [] then [] else [ArmHead(isIf, arms[0])] + FlatAll(arms[0].body) + FlatArms(isIf, arms[1..])
  }

  /** What the tree says about each of its statements, from a given parent, number and modality. */
  function Expected(t: Tree, here: Info, id: Id): seq<Info>
    decreases t
  {
    match t
    case Leaf => [here]
    case InlineHandler => [here]
    case HandlerBlock(body) =>
      [here, Info(Some(id), true)] + ExpectedAll(body, Info(Some(id + 1), true), id + 2) + [Info(Some(id + 1), true)]
    case Block(body) =>
      var inside := Info(Some(id), here.conditional);
      [here] + ExpectedAll(body, inside, id + 1) + [inside]
    case Choice(isIf, first, arms) =>
      [here] + ExpectedAll(first, Info(Some(id), true), id + 1)
      + ExpectedArms(isIf, arms, id, id, id + 1 + |FlatAll(first)|)
    case Loop(body, _) =>
      [here] + ExpectedAll(body, Info(Some(id), true), id + 1) + [Info(Some(id), true)]
  }

  function ExpectedAll(ts: seq<Tree>, here: Info, id: Id): seq<Info>
    decreases ts
  {
    if ts == [] then [] else Expected(ts[0], here, id) + ExpectedAll(ts[1..], here, id + |Flat(ts[0])|)
  }

  /** The arms of the choice at root, and its END, which belongs to the last active arm. */
  function ExpectedArms(isIf: bool, arms: seq<Arm>, root: Id, active: Id, id: Id): seq<Info>
    decreases arms
  {
    if arms == [] then [Info(Some(active), true)]
    else
      [Info(Some(root), true)] + ExpectedAll(arms[0].body, Info(Some(id), true), id + 1)
      + ExpectedArms(isIf, arms[1..], root, id, id + 1 + |FlatAll(arms[0].body)|)
  }

  /** One edge per loop, from its END to its header. */
  function LoopsOf(t: Tree, id: Id): seq<LoopBack>
    decreases t
  {
    match t
    case Leaf => []
    case InlineHandler => []
    case HandlerBlock(body) => LoopsOfAll(body, id + 2)
    case Block(body) => LoopsOfAll(body, id + 1)
    case Choice(isIf, first, arms) =>
      LoopsOfAll(first, id + 1) + LoopsOfArms(isIf, arms, id + 1 + |FlatAll(first)|)
    case Loop(body, _) =>
      LoopsOfAll(body, id + 1) + [LoopBack(id + 1 + |FlatAll(body)|, id)]
  }

  function LoopsOfAll(ts: seq<Tree>, id: Id): seq<LoopBack>
    decreases ts
  {
    if ts == [] then [] else LoopsOf(ts[0], id) + LoopsOfAll(ts[1..], id + |Flat(ts[0])|)
  }

  function LoopsOfArms(isIf: bool, arms: seq<Arm>, id: Id): seq<LoopBack>
    decreases arms
  {
    if arms == [] then []
    else LoopsOfAll(arms[0].body, id + 1) + LoopsOfArms(isIf, arms[1..], id + 1 + |FlatAll(arms[0].body)|)
  }

  /** No inline handler stands directly in front of a block. */
  predicate Separated(ts: seq<Tree>)
    decreases ts
  {
    ts != [] ==>
      && SeparatedTree(ts[0]) && Separated(ts[1..])
      && !(ts[0].InlineHandler? && |ts| > 1 && ts[1].Block?)
  }

  predicate SeparatedTree(t: Tree)
    decreases t
  {
    match t
    case Leaf => true
    case InlineHandler => true
    case HandlerBlock(body) => Separated(body)
    case Block(body) => Separated(body)
    case Choice(_, first, arms) => Separated(first) && SeparatedArms(arms)
    case Loop(body, _) => Separated(body)
  }

  predicate SeparatedArms(arms: seq<Arm>)
    decreases arms
  {
    arms != [] ==> Separated(arms[0].body) && SeparatedArms(arms[1..])
  }

  // ----- runs compose -----

  function Then(a: Run, b: Run): Run {
    Run(b.frames, a.infos + b.infos, a.backs + b.backs)
  }

  lemma {:induction false} RunAppend(d: Dialect, frames: Frames, a: seq<Statement>, b: seq<Statement>,
                                     next: Option<Statement>, id: Id)
    ensures RunAll(d, frames, a + b, next, id) ==
      (var r := RunAll(d, frames, a, First(b, next), id); Then(r, RunAll(d, r.frames, b, next, id + |a|)))
    decreases a
  {
    hide After, Reclassify, ParentFor, IsConditional, BackEdges;
    if a == [] {
      assert a + b == b;
    } else {
      assert (a + b)[0] == a[0] && (a + b)[1..] == a[1..] + b;
      var s := Reclassify(frames, a[0]);
      assert First(a[1..] + b, next) == First(a[1..], First(b, next));
      var (now, closed) := After(d, frames, id, s, First(a[1..] + b, next));
      RunAppend(d, now, a[1..], b, next, id + 1);
      var r := RunAll(d, now, a[1..], First(b, next), id + 1);
      var q := RunAll(d, r.frames, b, next, id + |a|);
      Regroup([Info(ParentFor(frames, s), IsConditional(frames))], r.infos, q.infos);
      Regroup(BackEdges(id, closed), r.backs, q.backs);
    }
  }

  ghost function Here(frames: Frames): Info {
    Info(CurrentParent(frames), IsConditional(frames))
  }

  lemma {:induction false} RunOne(d: Dialect, frames: Frames, s: Statement, next: Option<Statement>, id: Id)
    requires Reclassify(frames, s) == s
    ensures var (now, closed) := After(d, frames, id, s, next);
      RunAll(d, frames, [s], next, id) == Run(now, [Info(ParentFor(frames, s), IsConditional(frames))], BackEdges(id, closed))
  {
    var (now, closed) := After(d, frames, id, s, next);
    assert [s][1..] == [];
    assert RunAll(d, now, [], next, id + 1) == Run(now, [], []);
  }

  /** A statement in front of a stream. */
  lemma {:induction false} RunHead(d: Dialect, frames: Frames, s: Statement, rest: seq<Statement>,
                                   next: Option<Statement>, id: Id, inner: Frames)
    requires Reclassify(frames, s) == s && After(d, frames, id, s, First(rest, next)) == (inner, [])
    ensures RunAll(d, frames, [s] + rest, next, id) ==
      (var r := RunAll(d, inner, rest, next, id + 1);
       Run(r.frames, [Info(ParentFor(frames, s), IsConditional(frames))] + r.infos, r.backs))
  {
    RunOne(d, frames, s, First(rest, next), id);
    RunAppend(d, frames, [s], rest, next, id);
  }

  /** A body that leaves the stack alone, followed by the statement that closes it. */
  lemma {:induction false} RunTail(d: Dialect, inner: Frames, body: seq<Statement>, e: Statement,
                                   next: Option<Statement>, id: Id,
                infos: seq<Info>, backs: seq<LoopBack>)
    requires e.End? && RunAll(d, inner, body, Some(e), id) == Run(inner, infos, backs)
    ensures var (now, closed) := After(d, inner, id + |body|, e, next);
      RunAll(d, inner, body + [e], next, id) == Run(now, infos + [Here(inner)], backs + BackEdges(id + |body|, closed))
  {
    RunAppend(d, inner, body, [e], next, id);
    RunOne(d, inner, e, next, id + |body|);
  }

  // ----- the run over a tree -----

  predicate SupportsTrees(d: Dialect) {
    d == Db2 || d == MySql
  }

  /** The innermost frame is not a handler whose block is still to come. */
  predicate Settled(frames: Frames) {
    frames == [] || frames[|frames| - 1].kind != HANDLER
  }

  lemma {:induction false} TopFrame(frames: Frames, f: Frame)
    ensures CurrentParent(frames + [f]) == Some(f.active)
    ensures (frames + [f])[..|frames|] == frames
    ensures IsConditional(frames + [f]) <==> IsConditional(frames) || f.kind != BLOCK
  {
    assert f in frames + [f];
    assert forall x :: x in frames + [f] <==> x in frames || x == f;
  }

  function BlockFrame(frames: Frames, id: Id): Frame {
    Frame(BLOCK, id, id, if frames == [] then None else Some((frames[|frames| - 1].kind, frames[|frames| - 1].root)), false)
  }

  lemma {:induction false} BlockSteps(d: Dialect, frames: Frames, id: Id, last: Id, next: Option<Statement>)
    requires SupportsTrees(d)
    ensures After(d, frames, id, Begin, next) == (frames + [BlockFrame(frames, id)], [])
    ensures Settled(frames) ==>
      After(d, frames + [BlockFrame(frames, id)], last, End(EndPlain), next) == (frames, [BlockFrame(frames, id)])
  {
    TopFrame(frames, BlockFrame(frames, id));
  }

  lemma {:induction false} HandlerSteps(d: Dialect, frames: Frames, id: Id, last: Id, next: Option<Statement>)
    requires SupportsTrees(d)
    ensures var h := Frame(HANDLER, id, id, None, false);
      var f := BlockFrame(frames + [h], id + 1);
      && After(d, frames, id, Handler(DeclaresHandler), Some(Begin)) == (frames + [h], [])
      && After(d, frames + [h] + [f], last, End(EndPlain), next) == (frames, [f, h])
      && BackEdges(last, [f, h]) == []
  {
    var h := Frame(HANDLER, id, id, None, false);
    var f := BlockFrame(frames + [h], id + 1);
    TopFrame(frames, h);
    TopFrame(frames + [h], f);
    assert [f, h][1..] == [h] && [h][1..] == [];
    assert BackEdges(last, [h]) == [];
  }

  lemma {:induction false} LoopSteps(d: Dialect, frames: Frames, plainEnd: bool, id: Id, last: Id,
                                     next: Option<Statement>)
    requires SupportsTrees(d)
    ensures var f := Frame(LOOP, id, id, None, false);
      && After(d, frames, id, LoopHead, next) == (frames + [f], [])
      && After(d, frames + [f], last, LoopEnd(plainEnd), next) == (frames, [f])
      && BackEdges(last, [f]) == [LoopBack(last, id)]
  {
    var f := Frame(LOOP, id, id, None, false);
    TopFrame(frames, f);
    assert [f][1..] == [];
  }

  function ChoiceFrame(isIf: bool, root: Id, active: Id): Frame {
    Frame(if isIf then IF else CASE, root, active, None, false)
  }

  lemma {:induction false} ChoiceSteps(d: Dialect, frames: Frames, isIf: bool, root: Id, active: Id, last: Id,
                                       next: Option<Statement>)
    requires SupportsTrees(d)
    ensures After(d, frames, root, ChoiceHead(isIf), next) == (frames + [ChoiceFrame(isIf, root, root)], [])
    ensures After(d, frames + [ChoiceFrame(isIf, root, active)], last, ChoiceEnd(isIf), next)
         == (frames, [ChoiceFrame(isIf, root, active)])
  {
    TopFrame(frames, ChoiceFrame(isIf, root, active));
  }

  lemma {:induction false} ArmSteps(d: Dialect, frames: Frames, isIf: bool, arm: Arm, root: Id, active: Id, id: Id,
                                    next: Option<Statement>)
    requires SupportsTrees(d)
    ensures var inner, s := frames + [ChoiceFrame(isIf, root, active)], ArmHead(isIf, arm);
      && Reclassify(inner, s) == s && ParentFor(inner, s) == Some(root)
      && After(d, inner, id, s, next) == (frames + [ChoiceFrame(isIf, root, id)], [])
  {
    var f := ChoiceFrame(isIf, root, active);
    TopFrame(frames, f);
    assert (frames + [f])[|frames| := ChoiceFrame(isIf, root, id)] == frames + [ChoiceFrame(isIf, root, id)];
  }

  lemma {:induction false} PlainSteps(d: Dialect, frames: Frames, id: Id, s: Statement, next: Option<Statement>)
    requires SupportsTrees(d)
    requires s == Plain(false) || (s == Handler(DeclaresHandler) && !BeginsNext(next))
    ensures After(d, frames, id, s, next) == (frames, [])
  {
  }

  lemma {:induction false} Ordinary(frames: Frames, s: Statement)
    requires !s.Condition? || s.branch == OpensIf
    requires s.Handler? ==> s.form == DeclaresHandler
    ensures Reclassify(frames, s) == s && ParentFor(frames, s) == CurrentParent(frames)
  {
  }

  lemma {:induction false} NoBackEdges(id: Id, f: Frame)
    requires f.kind != LOOP
    ensures BackEdges(id, [f]) == []
  {
    assert [f][1..] == [];
  }

  lemma {:induction false} TreeRuns(d: Dialect, frames: Frames, t: Tree, next: Option<Statement>, id: Id)
    requires SupportsTrees(d) && Settled(frames) && SeparatedTree(t)
    requires t.InlineHandler? ==> !BeginsNext(next)
    ensures RunAll(d, frames, Flat(t), next, id) == Run(frames, Expected(t, Here(frames), id), LoopsOf(t, id))
    decreases t, 0
  {
    hide After, Reclassify, ParentFor, IsConditional, RunAll;
    match t
    case Leaf => PlainRuns(d, frames, Plain(false), next, id);
    case InlineHandler => PlainRuns(d, frames, Handler(DeclaresHandler), next, id);
    case Block(body) => BlockRuns(d, frames, body, next, id);
    case HandlerBlock(body) => HandlerRuns(d, frames, body, next, id);
    case Choice(isIf, first, arms) => ChoiceRuns(d, frames, isIf, first, arms, next, id);
    case Loop(body, plainEnd) => LoopRuns(d, frames, body, plainEnd, next, id);
  }

  lemma {:induction false} PlainRuns(d: Dialect, frames: Frames, s: Statement, next: Option<Statement>, id: Id)
    requires SupportsTrees(d)
    requires s == Plain(false) || (s == Handler(DeclaresHandler) && !BeginsNext(next))
    ensures RunAll(d, frames, [s], next, id) == Run(frames, [Here(frames)], [])
  {
    hide After, Reclassify, ParentFor, IsConditional, RunAll;
    Ordinary(frames, s);
    PlainSteps(d, frames, id, s, next);
    RunOne(d, frames, s, next, id);
  }

  lemma {:induction false} BodyRuns(d: Dialect, frames: Frames, f: Frame, body: seq<Tree>, e: Statement,
                                    next: Option<Statement>, id: Id)
    requires SupportsTrees(d) && f.kind != HANDLER && Separated(body) && e.End?
    ensures var inner := frames + [f];
      var (now, closed) := After(d, inner, id + |FlatAll(body)|, e, next);
      RunAll(d, inner, FlatAll(body) + [e], next, id) ==
        Run(now, ExpectedAll(body, Here(inner), id) + [Here(inner)],
            LoopsOfAll(body, id) + BackEdges(id + |FlatAll(body)|, closed))
    decreases body, 2
  {
    hide After, IsConditional, BackEdges, RunAll;
    var inner := frames + [f];
    AllRun(d, inner, body, Some(e), id);
    RunTail(d, inner, FlatAll(body), e, next, id, ExpectedAll(body, Here(inner), id), LoopsOfAll(body, id));
  }

  lemma {:induction false} BlockRuns(d: Dialect, frames: Frames, body: seq<Tree>, next: Option<Statement>, id: Id)
    requires SupportsTrees(d) && Settled(frames) && Separated(body)
    ensures var t := Block(body);
      RunAll(d, frames, Flat(t), next, id) == Run(frames, Expected(t, Here(frames), id), LoopsOf(t, id))
    decreases body, 3
  {
    hide After, Reclassify, ParentFor, IsConditional, BackEdges, RunAll, BlockFrame,
         Flat, FlatAll, Expected, ExpectedAll, LoopsOf, LoopsOfAll;
    var f := BlockFrame(frames, id);
    var rest := FlatAll(body) + [End(EndPlain)];
    var last := id + 1 + |FlatAll(body)|;
    BlockFrameIs(frames, id);
    TopFrame(frames, f);
    Ordinary(frames, Begin);
    BlockSteps(d, frames, id, last, First(rest, next));
    BlockSteps(d, frames, id, last, next);
    RunHead(d, frames, Begin, rest, next, id, frames + [f]);
    BodyRuns(d, frames, f, body, End(EndPlain), next, id + 1);
    NoBackEdges(last, f);
    assert LoopsOfAll(body, id + 1) + [] == LoopsOfAll(body, id + 1);
    BlockShape(body, Here(frames), id);
  }

  lemma {:induction false} BlockShape(body: seq<Tree>, here: Info, id: Id)
    ensures var t, inside := Block(body), Info(Some(id), here.conditional);
      && Flat(t) == [Begin] + (FlatAll(body) + [End(EndPlain)])
      && Expected(t, here, id) == [here] + (ExpectedAll(body, inside, id + 1) + [inside])
      && LoopsOf(t, id) == LoopsOfAll(body, id + 1)
  {
    hide FlatAll, ExpectedAll, LoopsOfAll;
  }

  lemma {:induction false} BlockFrameIs(frames: Frames, id: Id)
    ensures var f := BlockFrame(frames, id); f.kind == BLOCK && f.root == id && f.active == id
  {
  }

  lemma {:induction false} HandlerRuns(d: Dialect, frames: Frames, body: seq<Tree>, next: Option<Statement>, id: Id)
    requires SupportsTrees(d) && Separated(body)
    ensures var t := HandlerBlock(body);
      RunAll(d, frames, Flat(t), next, id) == Run(frames, Expected(t, Here(frames), id), LoopsOf(t, id))
    decreases body, 3
  {
    hide After, Reclassify, ParentFor, IsConditional, BackEdges, RunAll, BlockFrame, Flat, FlatAll, Expected, ExpectedAll;
    hide LoopsOf, LoopsOfAll;
    var h := Frame(HANDLER, id, id, None, false);
    var outer := frames + [h];
    var f := BlockFrame(outer, id + 1);
    var inner := outer + [f];
    var tail := FlatAll(body) + [End(EndPlain)];
    var last := id + 2 + |FlatAll(body)|;
    BlockFrameIs(outer, id + 1);
    TopFrame(frames, h);
    TopFrame(outer, f);
    Ordinary(frames, Handler(DeclaresHandler));
    Ordinary(outer, Begin);
    HandlerSteps(d, frames, id, last, next);
    BlockSteps(d, outer, id + 1, last, First(tail, next));
    RunHead(d, frames, Handler(DeclaresHandler), [Begin] + tail, next, id, outer);
    RunHead(d, outer, Begin, tail, next, id + 1, inner);
    BodyRuns(d, outer, f, body, End(EndPlain), next, id + 2);
    HandlerShape(body, Here(frames), id);
    assert LoopsOfAll(body, id + 2) + [] == LoopsOfAll(body, id + 2);
  }

  lemma {:induction false} HandlerShape(body: seq<Tree>, here: Info, id: Id)
    ensures Flat(HandlerBlock(body)) == [Handler(DeclaresHandler)] + ([Begin] + (FlatAll(body) + [End(EndPlain)]))
    ensures LoopsOf(HandlerBlock(body), id) == LoopsOfAll(body, id + 2)
    ensures Expected(HandlerBlock(body), here, id) ==
      [here] + ([Info(Some(id), true)] + (ExpectedAll(body, Info(Some(id + 1), true), id + 2) + [Info(Some(id + 1), true)]))
  {
    hide FlatAll, ExpectedAll, LoopsOfAll;
    var s := [Handler(DeclaresHandler), Begin];
    assert s == [Handler(DeclaresHandler)] + [Begin];
    var i := [here, Info(Some(id), true)];
    assert i == [here] + [Info(Some(id), true)];
  }

  lemma {:induction false} LoopRuns(d: Dialect, frames: Frames, body: seq<Tree>, plainEnd: bool,
                                    next: Option<Statement>, id: Id)
    requires SupportsTrees(d) && Separated(body)
    ensures var t := Loop(body, plainEnd);
      RunAll(d, frames, Flat(t), next, id) == Run(frames, Expected(t, Here(frames), id), LoopsOf(t, id))
    decreases body, 3
  {
    hide After, Reclassify, ParentFor, IsConditional, BackEdges, RunAll, LoopEnd, CurrentParent, First,
         Flat, FlatAll, Expected, ExpectedAll, LoopsOf, LoopsOfAll;
    var f := Frame(LOOP, id, id, None, false);
    var e := LoopEnd(plainEnd);
    var rest := FlatAll(body) + [e];
    var last := id + 1 + |FlatAll(body)|;
    TopFrame(frames, f);
    Ordinary(frames, LoopHead);
    LoopEndIsEnd(plainEnd);
    LoopSteps(d, frames, plainEnd, id, last, First(rest, next));
    LoopSteps(d, frames, plainEnd, id, last, next);
    RunHead(d, frames, LoopHead, rest, next, id, frames + [f]);
    BodyRuns(d, frames, f, body, e, next, id + 1);
    LoopShape(body, plainEnd, Here(frames), id);
  }

  lemma {:induction false} LoopShape(body: seq<Tree>, plainEnd: bool, here: Info, id: Id)
    ensures var t, inside := Loop(body, plainEnd), Info(Some(id), true);
      && Flat(t) == [LoopHead] + (FlatAll(body) + [LoopEnd(plainEnd)])
      && Expected(t, here, id) == [here] + (ExpectedAll(body, inside, id + 1) + [inside])
      && LoopsOf(t, id) == LoopsOfAll(body, id + 1) + [LoopBack(id + 1 + |FlatAll(body)|, id)]
  {
    hide FlatAll, ExpectedAll, LoopsOfAll, LoopEnd;
  }

  lemma {:induction false} LoopEndIsEnd(plainEnd: bool)
    ensures LoopEnd(plainEnd).End?
  {
  }

  lemma {:induction false} ChoiceRuns(d: Dialect, frames: Frames, isIf: bool, first: seq<Tree>, arms: seq<Arm>,
                                      next: Option<Statement>, id: Id)
    requires SupportsTrees(d) && Separated(first) && SeparatedArms(arms)
    ensures var t := Choice(isIf, first, arms);
      RunAll(d, frames, Flat(t), next, id) == Run(frames, Expected(t, Here(frames), id), LoopsOf(t, id))
    decreases Choice(isIf, first, arms), -1
  {
    hide *;
    var f := ChoiceFrame(isIf, id, id);
    var inner := frames + [f];
    var tail := FlatArms(isIf, arms) + [ChoiceEnd(isIf)];
    var start := id + 1 + |FlatAll(first)|;
    FrameOfChoice(isIf, id, id);
    HereInside(frames, f);
    ChoiceHeadIsOrdinary(frames, isIf);
    ChoiceSteps(d, frames, isIf, id, id, start, First(FlatAll(first) + tail, next));
    RunHead(d, frames, ChoiceHead(isIf), FlatAll(first) + tail, next, id, inner);
    RunAppend(d, inner, FlatAll(first), tail, next, id + 1);
    ArmsDoNotBegin(isIf, arms, next);
    AllRun(d, inner, first, First(tail, next), id + 1);
    ArmsRun(d, frames, isIf, arms, id, id, next, start);
    ChoiceShape(isIf, first, arms, Here(frames), id);
    HereInside(frames, f);
    HereAt(frames);
    Joined(RunAll(d, inner, FlatAll(first), First(tail, next), id + 1), RunAll(d, inner, tail, next, start));
  }

  lemma {:induction false} ChoiceShape(isIf: bool, first: seq<Tree>, arms: seq<Arm>, here: Info, id: Id)
    ensures var t := Choice(isIf, first, arms);
      var start := id + 1 + |FlatAll(first)|;
      && Flat(t) == [ChoiceHead(isIf)] + (FlatAll(first) + (FlatArms(isIf, arms) + [ChoiceEnd(isIf)]))
      && Expected(t, here, id) ==
         [here] + (ExpectedAll(first, Info(Some(id), true), id + 1) + ExpectedArms(isIf, arms, id, id, start))
      && LoopsOf(t, id) == LoopsOfAll(first, id + 1) + LoopsOfArms(isIf, arms, start)
  {
    hide FlatAll, ExpectedAll, LoopsOfAll, FlatArms, ExpectedArms, LoopsOfArms, ChoiceHead, ChoiceEnd;
    var h, a, b, e := [ChoiceHead(isIf)], FlatAll(first), FlatArms(isIf, arms), [ChoiceEnd(isIf)];
    Regroup(h + a, b, e);
    Regroup(h, a, b + e);
  }

  lemma {:induction false} HereAt(frames: Frames)
    ensures Here(frames) == Info(CurrentParent(frames), IsConditional(frames))
  {
  }

  /** Inside a conditional region the parent is its active arm. */
  lemma {:induction false} HereInside(frames: Frames, f: Frame)
    requires f.kind != BLOCK
    ensures Here(frames + [f]) == Info(Some(f.active), true) && (f.kind != HANDLER ==> Settled(frames + [f]))
  {
    TopFrame(frames, f);
  }

  lemma {:induction false} Joined(a: Run, b: Run)
    ensures Then(a, b) == Run(b.frames, a.infos + b.infos, a.backs + b.backs)
  {
  }

  lemma {:induction false} FrameOfChoice(isIf: bool, root: Id, active: Id)
    ensures var f := ChoiceFrame(isIf, root, active); f.kind != BLOCK && f.kind != HANDLER && f.kind != LOOP && f.active == active
  {
  }

  lemma {:induction false} ChoiceHeadIsOrdinary(frames: Frames, isIf: bool)
    ensures var s := ChoiceHead(isIf); Reclassify(frames, s) == s && ParentFor(frames, s) == CurrentParent(frames)
    ensures ChoiceEnd(isIf).End?
  {
  }

  lemma {:induction false} ArmsDoNotBegin(isIf: bool, arms: seq<Arm>, next: Option<Statement>)
    ensures !BeginsNext(First(FlatArms(isIf, arms) + [ChoiceEnd(isIf)], next))
  {
    if arms != [] {
      assert (FlatArms(isIf, arms) + [ChoiceEnd(isIf)])[0] == ArmHead(isIf, arms[0]);
    }
  }

  /** From an open choice: its remaining arms and its END close it again. */
  lemma {:induction false} ArmsRun(d: Dialect, frames: Frames, isIf: bool, arms: seq<Arm>, root: Id, active: Id,
                                   next: Option<Statement>, id: Id)
    requires SupportsTrees(d) && SeparatedArms(arms)
    ensures RunAll(d, frames + [ChoiceFrame(isIf, root, active)], FlatArms(isIf, arms) + [ChoiceEnd(isIf)], next, id) ==
      Run(frames, ExpectedArms(isIf, arms, root, active, id), LoopsOfArms(isIf, arms, id))
    decreases arms, 0
  {
    hide After, Reclassify, ParentFor, IsConditional, BackEdges, RunAll, First, CurrentParent, BeginsNext, ChoiceEnd, ArmHead;
    var f, e := ChoiceFrame(isIf, root, active), ChoiceEnd(isIf);
    var inner := frames + [f];
    TopFrame(frames, f);
    if arms == [] {
      assert FlatArms(isIf, arms) + [e] == [e];
      ChoiceHeadIsOrdinary(inner, isIf);
      Ordinary(inner, e);
      ChoiceSteps(d, frames, isIf, root, active, id, next);
      RunOne(d, inner, e, next, id);
      NoBackEdges(id, f);
    } else {
      ArmRuns(d, frames, isIf, arms, root, active, next, id);
    }
  }

  lemma {:induction false} ArmRuns(d: Dialect, frames: Frames, isIf: bool, arms: seq<Arm>, root: Id, active: Id,
                                   next: Option<Statement>, id: Id)
    requires SupportsTrees(d) && arms != [] && SeparatedArms(arms)
    ensures RunAll(d, frames + [ChoiceFrame(isIf, root, active)], FlatArms(isIf, arms) + [ChoiceEnd(isIf)], next, id) ==
      Run(frames, ExpectedArms(isIf, arms, root, active, id), LoopsOfArms(isIf, arms, id))
    decreases arms, -1
  {
    hide *;
    var f, e := ChoiceFrame(isIf, root, active), ChoiceEnd(isIf);
    var inner := frames + [f];
    var head, body := ArmHead(isIf, arms[0]), arms[0].body;
    var tail := FlatArms(isIf, arms[1..]) + [e];
    var g := ChoiceFrame(isIf, root, id);
    var now := frames + [g];
    var start := id + 1 + |FlatAll(body)|;
    FrameOfChoice(isIf, root, active);
    FrameOfChoice(isIf, root, id);
    HereInside(frames, f);
    HereAt(inner);
    HereInside(frames, g);
    ArmsAreSeparated(arms);
    ArmSteps(d, frames, isIf, arms[0], root, active, id, First(FlatAll(body) + tail, next));
    RunHead(d, inner, head, FlatAll(body) + tail, next, id, now);
    RunAppend(d, now, FlatAll(body), tail, next, id + 1);
    ArmsDoNotBegin(isIf, arms[1..], next);
    AllRun(d, now, body, First(tail, next), id + 1);
    ArmsRun(d, frames, isIf, arms[1..], root, id, next, start);
    ArmShape(isIf, arms, root, active, id);
    Joined(RunAll(d, now, FlatAll(body), First(tail, next), id + 1), RunAll(d, now, tail, next, start));
  }

  lemma {:induction false} ArmsAreSeparated(arms: seq<Arm>)
    requires arms != [] && SeparatedArms(arms)
    ensures Separated(arms[0].body) && SeparatedArms(arms[1..])
  {
  }

  lemma {:induction false} ArmShape(isIf: bool, arms: seq<Arm>, root: Id, active: Id, id: Id)
    requires arms != []
    ensures var body, start := arms[0].body, id + 1 + |FlatAll(arms[0].body)|;
      && FlatArms(isIf, arms) + [ChoiceEnd(isIf)]
         == [ArmHead(isIf, arms[0])] + (FlatAll(body) + (FlatArms(isIf, arms[1..]) + [ChoiceEnd(isIf)]))
      && ExpectedArms(isIf, arms, root, active, id)
         == [Info(Some(root), true)] + (ExpectedAll(body, Info(Some(id), true), id + 1) + ExpectedArms(isIf, arms[1..], root, id, start))
      && LoopsOfArms(isIf, arms, id) == LoopsOfAll(body, id + 1) + LoopsOfArms(isIf, arms[1..], start)
  {
    hide *;
    ArmStream(isIf, arms);
    ArmInfos(isIf, arms, root, active, id);
    ArmLoops(isIf, arms, id);
  }

  lemma {:induction false} Regroup<T>(a: seq<T>, b: seq<T>, c: seq<T>)
    ensures a + b + c == a + (b + c)
  {
  }

  lemma {:induction false} ArmStream(isIf: bool, arms: seq<Arm>)
    requires arms != []
    ensures FlatArms(isIf, arms) + [ChoiceEnd(isIf)]
      == [ArmHead(isIf, arms[0])] + (FlatAll(arms[0].body) + (FlatArms(isIf, arms[1..]) + [ChoiceEnd(isIf)]))
  {
    hide FlatAll, ArmHead, ChoiceEnd;
    var h, b, r, e := [ArmHead(isIf, arms[0])], FlatAll(arms[0].body), FlatArms(isIf, arms[1..]), [ChoiceEnd(isIf)];
    Regroup(h + b, r, e);
    Regroup(h, b, r + e);
  }

  lemma {:induction false} ArmInfos(isIf: bool, arms: seq<Arm>, root: Id, active: Id, id: Id)
    requires arms != []
    ensures ExpectedArms(isIf, arms, root, active, id)
      == [Info(Some(root), true)] + (ExpectedAll(arms[0].body, Info(Some(id), true), id + 1)
                                     + ExpectedArms(isIf, arms[1..], root, id, id + 1 + |FlatAll(arms[0].body)|))
  {
    hide FlatAll, ExpectedAll;
    Regroup([Info(Some(root), true)], ExpectedAll(arms[0].body, Info(Some(id), true), id + 1),
            ExpectedArms(isIf, arms[1..], root, id, id + 1 + |FlatAll(arms[0].body)|));
  }

  lemma {:induction false} ArmLoops(isIf: bool, arms: seq<Arm>, id: Id)
    requires arms != []
    ensures LoopsOfArms(isIf, arms, id)
      == LoopsOfAll(arms[0].body, id + 1) + LoopsOfArms(isIf, arms[1..], id + 1 + |FlatAll(arms[0].body)|)
  {
    hide FlatAll, LoopsOfAll;
  }

  lemma {:induction false} FirstOfTree(t: Tree)
    ensures Flat(t) != [] && (BeginsNext(Some(Flat(t)[0])) <==> t.Block?)
  {
  }

  lemma {:induction false} AllRun(d: Dialect, frames: Frames, ts: seq<Tree>, next: Option<Statement>, id: Id)
    requires SupportsTrees(d) && Settled(frames) && Separated(ts) && !BeginsNext(next)
    ensures RunAll(d, frames, FlatAll(ts), next, id) == Run(frames, ExpectedAll(ts, Here(frames), id), LoopsOfAll(ts, id))
    decreases ts, 1
  {
    hide After, Reclassify, ParentFor, IsConditional, BackEdges;
    if ts != [] {
      var rest := FlatAll(ts[1..]);
      if |ts| > 1 {
        FirstOfTree(ts[1]);
        assert ts[1..][0] == ts[1];
      }
      RunAppend(d, frames, Flat(ts[0]), rest, next, id);
      TreeRuns(d, frames, ts[0], First(rest, next), id);
      AllRun(d, frames, ts[1..], next, id + |Flat(ts[0])|);
    }
  }

  // ----- an inline handler in front of a block -----

  /** The tree that the stream of ts looks like: an inline handler directly in front of a block
      cannot be told from a handler that owns the block. */
  function Reading(ts: seq<Tree>): seq<Tree>
    decreases ts
  {
    if ts == [] then []
    else if ts[0].InlineHandler? && |ts| > 1 && ts[1].Block? then
      [HandlerBlock(Reading(ts[1].body))] + Reading(ts[2..])
    else [ReadingTree(ts[0])] + Reading(ts[1..])
  }

  function ReadingTree(t: Tree): Tree
    decreases t
  {
    match t
    case Leaf => t
    case InlineHandler => t
    case HandlerBlock(body) => HandlerBlock(Reading(body))
    case Block(body) => Block(Reading(body))
    case Choice(isIf, first, arms) => Choice(isIf, Reading(first), ReadingArms(arms))
    case Loop(body, plainEnd) => Loop(Reading(body), plainEnd)
  }

  function ReadingArms(arms: seq<Arm>): seq<Arm>
    decreases arms
  {
    if arms == [] then [] else [Arm(arms[0].isElse, Reading(arms[0].body))] + ReadingArms(arms[1..])
  }

  lemma {:induction false} FlatCons(t: Tree, ts: seq<Tree>)
    ensures FlatAll([t] + ts) == Flat(t) + FlatAll(ts)
  {
    hide Flat;
    assert ([t] + ts)[1..] == ts;
  }

  lemma {:induction false} LoopsCons(t: Tree, ts: seq<Tree>, id: Id)
    ensures LoopsOfAll([t] + ts, id) == LoopsOf(t, id) + LoopsOfAll(ts, id + |Flat(t)|)
  {
    hide Flat, LoopsOf;
    assert ([t] + ts)[1..] == ts;
  }

  lemma {:induction false} ExpectedCons(t: Tree, ts: seq<Tree>, here: Info, id: Id)
    ensures ExpectedAll([t] + ts, here, id) == Expected(t, here, id) + ExpectedAll(ts, here, id + |Flat(t)|)
  {
    hide Flat, Expected;
    assert ([t] + ts)[1..] == ts;
  }

  /** A handler that owns a block has the stream of an inline handler in front of the block. */
  lemma {:induction false} MergedStream(body: seq<Tree>, body': seq<Tree>, rest: seq<Tree>, rest': seq<Tree>)
    requires FlatAll(body') == FlatAll(body) && FlatAll(rest') == FlatAll(rest)
    ensures FlatAll([HandlerBlock(body')] + rest') == FlatAll([InlineHandler] + ([Block(body)] + rest))
    ensures Flat(HandlerBlock(body')) == Flat(InlineHandler) + Flat(Block(body))
  {
    hide FlatAll;
    FlatCons(Block(body), rest);
    FlatCons(InlineHandler, [Block(body)] + rest);
    FlatCons(HandlerBlock(body'), rest');
    assert [Handler(DeclaresHandler), Begin] == [Handler(DeclaresHandler)] + [Begin];
  }

  lemma {:induction false} MergedLoops(body: seq<Tree>, body': seq<Tree>, rest: seq<Tree>, rest': seq<Tree>, id: Id)
    requires FlatAll(body') == FlatAll(body) && FlatAll(rest') == FlatAll(rest)
    requires LoopsOfAll(body', id + 2) == LoopsOfAll(body, id + 2)
    requires var next := id + |Flat(HandlerBlock(body'))|; LoopsOfAll(rest', next) == LoopsOfAll(rest, next)
    ensures LoopsOfAll([HandlerBlock(body')] + rest', id) == LoopsOfAll([InlineHandler] + ([Block(body)] + rest), id)
  {
    hide FlatAll, LoopsOfAll;
    MergedStream(body, body', rest, rest');
    LoopsCons(Block(body), rest, id + 1);
    LoopsCons(InlineHandler, [Block(body)] + rest, id);
    LoopsCons(HandlerBlock(body'), rest', id);
    assert LoopsOf(Block(body), id + 1) == LoopsOfAll(body, id + 2);
  }

  lemma {:induction false} SeparatedCons(t: Tree, ts: seq<Tree>)
    ensures Separated([t] + ts) <==>
      SeparatedTree(t) && Separated(ts) && !(t.InlineHandler? && ts != [] && ts[0].Block?)
  {
    hide SeparatedTree;
    assert ([t] + ts)[1..] == ts;
  }

  lemma {:induction false} ReadingSameStream(ts: seq<Tree>)
    ensures FlatAll(Reading(ts)) == FlatAll(ts) && Separated(Reading(ts))
    ensures forall id :: LoopsOfAll(Reading(ts), id) == LoopsOfAll(ts, id)
    decreases ts, 1
  {
    if ts != [] {
      if ts[0].InlineHandler? && |ts| > 1 && ts[1].Block? {
        ReadingMerged(ts);
      } else {
        ReadingSameTree(ts[0]);
        ReadingSameStream(ts[1..]);
        if ts[0].InlineHandler? && |ts| > 1 {
          assert ts[1..][0] == ts[1] && !Reading(ts[1..])[0].Block?;
        }
      }
    }
  }

  lemma {:induction false} ReadingIsMerged(ts: seq<Tree>)
    requires |ts| > 1 && ts[0].InlineHandler? && ts[1].Block?
    ensures ts == [InlineHandler] + ([Block(ts[1].body)] + ts[2..])
    ensures Reading(ts) == [HandlerBlock(Reading(ts[1].body))] + Reading(ts[2..])
  {
  }

  lemma {:induction false} ReadingMerged(ts: seq<Tree>)
    requires |ts| > 1 && ts[0].InlineHandler? && ts[1].Block?
    ensures FlatAll(Reading(ts)) == FlatAll(ts) && Separated(Reading(ts))
    ensures forall id :: LoopsOfAll(Reading(ts), id) == LoopsOfAll(ts, id)
    decreases ts, 0
  {
    hide FlatAll, LoopsOfAll, Separated, Reading;
    var body, rest := ts[1].body, ts[2..];
    ReadingSameStream(body);
    ReadingSameStream(rest);
    ReadingIsMerged(ts);
    MergedStream(body, Reading(body), rest, Reading(rest));
    SeparatedCons(HandlerBlock(Reading(body)), Reading(rest));
    forall id ensures LoopsOfAll(Reading(ts), id) == LoopsOfAll(ts, id) {
      MergedLoops(body, Reading(body), rest, Reading(rest), id);
    }
  }

  lemma {:induction false} ReadingSameTree(t: Tree)
    ensures Flat(ReadingTree(t)) == Flat(t) && SeparatedTree(ReadingTree(t))
    ensures forall id :: LoopsOf(ReadingTree(t), id) == LoopsOf(t, id)
    decreases t
  {
    hide FlatAll, LoopsOfAll, FlatArms, LoopsOfArms, Reading, ReadingArms, Separated, SeparatedArms;
    match t
    case HandlerBlock(body) => ReadingSameStream(body);
    case Block(body) => ReadingSameStream(body);
    case Choice(isIf, first, arms) =>
      ReadingSameStream(first);
      ReadingSameArms(isIf, arms);
    case Loop(body, _) => ReadingSameStream(body);
    case _ =>
  }

  lemma {:induction false} ReadingSameArms(isIf: bool, arms: seq<Arm>)
    ensures FlatArms(isIf, ReadingArms(arms)) == FlatArms(isIf, arms) && SeparatedArms(ReadingArms(arms))
    ensures forall id :: LoopsOfArms(isIf, ReadingArms(arms), id) == LoopsOfArms(isIf, arms, id)
    decreases arms
  {
    hide FlatAll, LoopsOfAll, Reading, Separated;
    if arms != [] {
      ReadingSameStream(arms[0].body);
      ReadingSameArms(isIf, arms[1..]);
    }
  }

  // ----- the main result -----

  /** On the stream of any tree the run ends with the stack it started with, closes every loop
      once, with one edge back to its header, and records the parents and modalities of the tree
      that the stream reads as. */
  lemma {:induction false} StreamIsRead(d: Dialect, ts: seq<Tree>)
    requires SupportsTrees(d)
    ensures RunAll(d, [], FlatAll(ts), None, 1) ==
      Run([], ExpectedAll(Reading(ts), Info(None, false), 1), LoopsOfAll(ts, 1))
  {
    ReadingSameStream(ts);
    AllRun(d, [], Reading(ts), None, 1);
  }

  /** The recorded parents and modalities are those of the tree itself exactly when no inline
      handler stands directly in front of a block. */
  lemma {:induction false} TreeIsRecovered(d: Dialect, ts: seq<Tree>)
    requires SupportsTrees(d)
    ensures RunAll(d, [], FlatAll(ts), None, 1).infos == ExpectedAll(ts, Info(None, false), 1) <==> Separated(ts)
  {
    StreamIsRead(d, ts);
    if Separated(ts) {
      SeparatedReadsAsItself(ts);
    } else {
      ReadingDiffers(ts, Info(None, false), 1);
    }
  }

  lemma {:induction false} SeparatedReadsAsItself(ts: seq<Tree>)
    requires Separated(ts)
    ensures Reading(ts) == ts
    decreases ts
  {
    if ts != [] {
      SeparatedTreeReadsAsItself(ts[0]);
      SeparatedReadsAsItself(ts[1..]);
    }
  }

  lemma {:induction false} SeparatedTreeReadsAsItself(t: Tree)
    requires SeparatedTree(t)
    ensures ReadingTree(t) == t
    decreases t
  {
    match t
    case HandlerBlock(body) => SeparatedReadsAsItself(body);
    case Block(body) => SeparatedReadsAsItself(body);
    case Choice(isIf, first, arms) =>
      SeparatedReadsAsItself(first);
      SeparatedArmsReadAsThemselves(arms);
    case Loop(body, _) => SeparatedReadsAsItself(body);
    case _ =>
  }

  lemma {:induction false} SeparatedArmsReadAsThemselves(arms: seq<Arm>)
    requires SeparatedArms(arms)
    ensures ReadingArms(arms) == arms
    decreases arms
  {
    if arms != [] {
      SeparatedReadsAsItself(arms[0].body);
      SeparatedArmsReadAsThemselves(arms[1..]);
    }
  }

  // ----- sizes -----

  lemma {:induction false} ExpectedSize(t: Tree, here: Info, id: Id)
    ensures |Expected(t, here, id)| == |Flat(t)|
    decreases t
  {
    match t
    case HandlerBlock(body) => ExpectedAllSize(body, Info(Some(id + 1), true), id + 2);
    case Block(body) => ExpectedAllSize(body, Info(Some(id), here.conditional), id + 1);
    case Choice(isIf, first, arms) =>
      ExpectedAllSize(first, Info(Some(id), true), id + 1);
      ExpectedArmsSize(isIf, arms, id, id, id + 1 + |FlatAll(first)|);
    case Loop(body, _) => ExpectedAllSize(body, Info(Some(id), true), id + 1);
    case _ =>
  }

  lemma {:induction false} ExpectedAllSize(ts: seq<Tree>, here: Info, id: Id)
    ensures |ExpectedAll(ts, here, id)| == |FlatAll(ts)|
    decreases ts
  {
    if ts != [] {
      ExpectedSize(ts[0], here, id);
      ExpectedAllSize(ts[1..], here, id + |Flat(ts[0])|);
    }
  }

  lemma {:induction false} ExpectedArmsSize(isIf: bool, arms: seq<Arm>, root: Id, active: Id, id: Id)
    ensures |ExpectedArms(isIf, arms, root, active, id)| == |FlatArms(isIf, arms)| + 1
    decreases arms
  {
    if arms != [] {
      ExpectedAllSize(arms[0].body, Info(Some(id), true), id + 1);
      ExpectedArmsSize(isIf, arms[1..], root, id, id + 1 + |FlatAll(arms[0].body)|);
    }
  }

  // ----- the reading differs -----

  lemma {:induction false} PrefixesDiffer<T>(a: seq<T>, b: seq<T>, a': seq<T>, b': seq<T>)
    requires |a| == |a'| && (a != a' || b != b')
    ensures a + b != a' + b'
  {
    assert (a + b)[..|a|] == a && (a' + b')[..|a|] == a';
    assert (a + b)[|a|..] == b && (a' + b')[|a|..] == b';
  }

  predicate Earlier(here: Info, id: Id) {
    here.parent != None ==> here.parent.value < id
  }

  lemma {:induction false} ReadingDiffers(ts: seq<Tree>, here: Info, id: Id)
    requires !Separated(ts) && Earlier(here, id)
    ensures ExpectedAll(Reading(ts), here, id) != ExpectedAll(ts, here, id)
    decreases ts, 0
  {
    hide Flat, Expected, ExpectedAll, Reading, ReadingTree, SeparatedTree;
    if ts[0].InlineHandler? && |ts| > 1 && ts[1].Block? {
      MergedBlockDiffers(ts, here, id);
    } else {
      ReadingSameTree(ts[0]);
      ExpectedSize(ts[0], here, id);
      ExpectedSize(ReadingTree(ts[0]), here, id);
      var next := id + |Flat(ts[0])|;
      if !SeparatedTree(ts[0]) {
        ReadingTreeDiffers(ts[0], here, id);
      } else {
        ReadingDiffers(ts[1..], here, next);
      }
      ReadingUnmerged(ts);
      ExpectedCons(ReadingTree(ts[0]), Reading(ts[1..]), here, id);
      ExpectedCons(ts[0], ts[1..], here, id);
      PrefixesDiffer(Expected(ReadingTree(ts[0]), here, id), ExpectedAll(Reading(ts[1..]), here, next),
                     Expected(ts[0], here, id), ExpectedAll(ts[1..], here, next));
    }
  }

  lemma {:induction false} ReadingUnmerged(ts: seq<Tree>)
    requires ts != [] && !(ts[0].InlineHandler? && |ts| > 1 && ts[1].Block?)
    ensures Reading(ts) == [ReadingTree(ts[0])] + Reading(ts[1..]) && ts == [ts[0]] + ts[1..]
  {
    hide ReadingTree;
  }

  /** The BEGIN behind the inline handler gets the handler as its parent. */
  lemma {:induction false} MergedBlockDiffers(ts: seq<Tree>, here: Info, id: Id)
    requires |ts| > 1 && ts[0].InlineHandler? && ts[1].Block? && Earlier(here, id)
    ensures ExpectedAll(Reading(ts), here, id) != ExpectedAll(ts, here, id)
  {
    hide ExpectedAll, Reading, Flat;
    var body, rest := ts[1].body, ts[2..];
    ReadingIsMerged(ts);
    ExpectedCons(HandlerBlock(Reading(body)), Reading(rest), here, id);
    assert ExpectedAll(Reading(ts), here, id)[1] == Info(Some(id), true);
    ExpectedCons(InlineHandler, [Block(body)] + rest, here, id);
    InlineIsOne();
    ExpectedCons(Block(body), rest, here, id + 1);
    assert ExpectedAll([Block(body)] + rest, here, id + 1)[0] == here;
    assert ExpectedAll(ts, here, id)[1] == here;
  }

  lemma {:induction false} InlineIsOne()
    ensures |Flat(InlineHandler)| == 1
  {
  }

  lemma {:induction false} ReadingTreeDiffers(t: Tree, here: Info, id: Id)
    requires !SeparatedTree(t) && Earlier(here, id)
    ensures Expected(ReadingTree(t), here, id) != Expected(t, here, id)
    decreases t
  {
    match t
    case HandlerBlock(body) =>
      BodyDiffers(body, [here, Info(Some(id), true)], Info(Some(id + 1), true), id + 2);
    case Block(body) => BodyDiffers(body, [here], Info(Some(id), here.conditional), id + 1);
    case Loop(body, _) => BodyDiffers(body, [here], Info(Some(id), true), id + 1);
    case Choice(isIf, first, arms) => ChoiceDiffers(isIf, first, arms, here, id);
  }

  lemma {:induction false} BodyDiffers(body: seq<Tree>, front: seq<Info>, inside: Info, id: Id)
    requires !Separated(body) && Earlier(inside, id)
    ensures front + ExpectedAll(Reading(body), inside, id) + [inside] != front + ExpectedAll(body, inside, id) + [inside]
    decreases body, 1
  {
    hide *;
    ReadingDiffers(body, inside, id);
    ReadingSameStream(body);
    ExpectedAllSize(body, inside, id);
    ExpectedAllSize(Reading(body), inside, id);
    var a, b := ExpectedAll(Reading(body), inside, id), ExpectedAll(body, inside, id);
    PrefixesDiffer(front, a, front, b);
    PrefixesDiffer(front + a, [inside], front + b, [inside]);
  }

  lemma {:induction false} ChoiceDiffers(isIf: bool, first: seq<Tree>, arms: seq<Arm>, here: Info, id: Id)
    requires !Separated(first) || !SeparatedArms(arms)
    ensures var t := Choice(isIf, first, arms); Expected(ReadingTree(t), here, id) != Expected(t, here, id)
    decreases Choice(isIf, first, arms), -1
  {
    hide FlatAll, ExpectedAll, FlatArms, ExpectedArms, Reading, ReadingArms, Separated, SeparatedArms;
    var inside, start := Info(Some(id), true), id + 1 + |FlatAll(first)|;
    ReadingSameStream(first);
    ExpectedAllSize(first, inside, id + 1);
    ExpectedAllSize(Reading(first), inside, id + 1);
    var a, b := ExpectedAll(Reading(first), inside, id + 1), ExpectedAll(first, inside, id + 1);
    var c, e := ExpectedArms(isIf, ReadingArms(arms), id, id, start), ExpectedArms(isIf, arms, id, id, start);
    if !Separated(first) {
      ReadingDiffers(first, inside, id + 1);
      PrefixesDiffer([here], a, [here], b);
    } else {
      ArmsDiffer(isIf, arms, id, id, start);
    }
    PrefixesDiffer([here] + a, c, [here] + b, e);
  }

  lemma {:induction false} ArmsDiffer(isIf: bool, arms: seq<Arm>, root: Id, active: Id, id: Id)
    requires !SeparatedArms(arms)
    ensures ExpectedArms(isIf, ReadingArms(arms), root, active, id) != ExpectedArms(isIf, arms, root, active, id)
    decreases arms
  {
    hide FlatAll, ExpectedAll, Reading, Separated, ReadingArms, ExpectedArms;
    var body, inside := arms[0].body, Info(Some(id), true);
    var start := id + 1 + |FlatAll(body)|;
    ReadingSameStream(body);
    ExpectedAllSize(body, inside, id + 1);
    ExpectedAllSize(Reading(body), inside, id + 1);
    var a, b := ExpectedAll(Reading(body), inside, id + 1), ExpectedAll(body, inside, id + 1);
    var c := ExpectedArms(isIf, ReadingArms(arms[1..]), root, id, start);
    var e := ExpectedArms(isIf, arms[1..], root, id, start);
    if !Separated(body) {
      ReadingDiffers(body, inside, id + 1);
    } else {
      ArmsDiffer(isIf, arms[1..], root, id, start);
    }
    PrefixesDiffer(a, c, b, e);
    var front := [Info(Some(root), true)];
    PrefixesDiffer(front, a + c, front, b + e);
    FirstArmRead(arms);
    ArmInfos(isIf, arms, root, active, id);
    ArmInfos(isIf, ReadingArms(arms), root, active, id);
  }

  lemma {:induction false} FirstArmRead(arms: seq<Arm>)
    requires arms != []
    ensures var r := ReadingArms(arms); r != [] && r[0].body == Reading(arms[0].body) && r[1..] == ReadingArms(arms[1..])
  {
    hide Reading;
  }

  // ----- one edge back per loop -----

  function Targets(backs: seq<LoopBack>): multiset<Id> {
    if backs == [] then multiset{} else multiset{backs[0].target} + Targets(backs[1..])
  }

  /** The numbers of the loop headers in a stream. */
  function Headers(ss: seq<Statement>, id: Id): multiset<Id>
    decreases ss
  {
    if ss == [] then multiset{}
    else HeaderOf(ss[0], id) + Headers(ss[1..], id + 1)
  }

  function HeaderOf(s: Statement, id: Id): multiset<Id> {
    if s == LoopHead then multiset{id} else multiset{}
  }

  lemma {:induction false} HeadersStep(s: Statement, rest: seq<Statement>, id: Id)
    ensures Headers([s] + rest, id) == HeaderOf(s, id) + Headers(rest, id + 1)
  {
    assert ([s] + rest)[1..] == rest;
  }

  lemma {:induction false} Associates(x: multiset<Id>, y: multiset<Id>, z: multiset<Id>)
    ensures x + (y + z) == x + y + z
  {
  }

  lemma {:induction false} HeadersAppend(a: seq<Statement>, b: seq<Statement>, id: Id)
    ensures Headers(a + b, id) == Headers(a, id) + Headers(b, id + |a|)
    decreases a
  {
    hide *;
    if a == [] {
      assert a + b == b;
      NoHeaders(id);
    } else {
      var s, rest := a[0], a[1..];
      assert a == [s] + rest && a + b == [s] + (rest + b);
      HeadersAppend(rest, b, id + 1);
      HeadersStep(s, rest, id);
      HeadersStep(s, rest + b, id);
      Associates(HeaderOf(s, id), Headers(rest, id + 1), Headers(b, id + 1 + |rest|));
    }
  }

  lemma {:induction false} TargetsAppend(a: seq<LoopBack>, b: seq<LoopBack>)
    ensures Targets(a + b) == Targets(a) + Targets(b)
  {
    if a == [] {
      assert a + b == b;
    } else {
      assert (a + b)[1..] == a[1..] + b;
      TargetsAppend(a[1..], b);
    }
  }

  lemma {:induction false} HeadersOne(s: Statement, id: Id)
    ensures Headers([s], id) == if s == LoopHead then multiset{id} else multiset{}
  {
    assert [s][1..] == [];
  }

  /** Bracketing a stream between two statements. */
  lemma {:induction false} HeadersBetween(a: Statement, mid: seq<Statement>, b: Statement, id: Id)
    requires b != LoopHead
    ensures Headers([a] + mid + [b], id) == (if a == LoopHead then multiset{id} else multiset{}) + Headers(mid, id + 1)
  {
    HeadersAppend([a] + mid, [b], id);
    HeadersAppend([a], mid, id);
    HeadersOne(a, id);
    HeadersOne(b, id + 1 + |mid|);
  }

  /** The edges back from closed loops lead to the loop headers of the stream, each exactly once. */
  lemma {:induction false} OneBackEdgePerLoop(ts: seq<Tree>, id: Id)
    ensures Targets(LoopsOfAll(ts, id)) == Headers(FlatAll(ts), id)
    decreases ts
  {
    hide Flat, LoopsOf, Headers, Targets;
    if ts != [] {
      var next := id + |Flat(ts[0])|;
      OneBackEdgePerTree(ts[0], id);
      OneBackEdgePerLoop(ts[1..], next);
      TargetsAppend(LoopsOf(ts[0], id), LoopsOfAll(ts[1..], next));
      HeadersAppend(Flat(ts[0]), FlatAll(ts[1..]), id);
    } else {
      NoTargets();
      NoHeaders(id);
    }
  }

  lemma {:induction false} OneBackEdgePerTree(t: Tree, id: Id)
    ensures Targets(LoopsOf(t, id)) == Headers(Flat(t), id)
    decreases t
  {
    hide FlatAll, LoopsOfAll, FlatArms, LoopsOfArms, Headers, Targets;
    match t
    case Leaf =>
      HeadersOne(Plain(false), id);
      NoTargets();
    case InlineHandler =>
      HeadersOne(Handler(DeclaresHandler), id);
      NoTargets();
    case HandlerBlock(body) =>
      OneBackEdgePerLoop(body, id + 2);
      HandlerHeaders(body, id);
    case Block(body) =>
      OneBackEdgePerLoop(body, id + 1);
      HeadersBetween(Begin, FlatAll(body), End(EndPlain), id);
    case Choice(isIf, first, arms) =>
      var start := id + 1 + |FlatAll(first)|;
      OneBackEdgePerLoop(first, id + 1);
      OneBackEdgePerArms(isIf, arms, start);
      TargetsAppend(LoopsOfAll(first, id + 1), LoopsOfArms(isIf, arms, start));
      ChoiceHeaders(isIf, first, arms, id);
    case Loop(body, plainEnd) =>
      OneBackEdgePerLoop(body, id + 1);
      LoopTargets(body, plainEnd, id);
      HeadersBetween(LoopHead, FlatAll(body), LoopEnd(plainEnd), id);
  }

  lemma {:induction false} LoopTargets(body: seq<Tree>, plainEnd: bool, id: Id)
    ensures Targets(LoopsOf(Loop(body, plainEnd), id)) == Targets(LoopsOfAll(body, id + 1)) + multiset{id}
  {
    hide FlatAll, LoopsOfAll, Targets;
    var back := LoopBack(id + 1 + |FlatAll(body)|, id);
    TargetsAppend(LoopsOfAll(body, id + 1), [back]);
    TargetsOne(back);
  }

  lemma {:induction false} TargetsOne(back: LoopBack)
    ensures Targets([back]) == multiset{back.target}
  {
    assert [back][1..] == [];
  }

  lemma {:induction false} NoTargets()
    ensures Targets([]) == multiset{}
  {
  }

  lemma {:induction false} HandlerHeaders(body: seq<Tree>, id: Id)
    ensures Headers(Flat(HandlerBlock(body)), id) == Headers(FlatAll(body), id + 2)
  {
    hide FlatAll, Headers;
    var block := [Begin] + FlatAll(body) + [End(EndPlain)];
    HeadersBetween(Begin, FlatAll(body), End(EndPlain), id + 1);
    HeadersOne(Handler(DeclaresHandler), id);
    HeadersAppend([Handler(DeclaresHandler)], block, id);
    assert Flat(HandlerBlock(body)) == [Handler(DeclaresHandler)] + block;
  }

  lemma {:induction false} ChoiceHeaders(isIf: bool, first: seq<Tree>, arms: seq<Arm>, id: Id)
    ensures Headers(Flat(Choice(isIf, first, arms)), id) ==
      Headers(FlatAll(first), id + 1) + Headers(FlatArms(isIf, arms), id + 1 + |FlatAll(first)|)
  {
    hide FlatAll, FlatArms, Headers;
    var a, b := FlatAll(first), FlatArms(isIf, arms);
    HeadersAppend(a, b, id + 1);
    HeadersBetween(ChoiceHead(isIf), a + b, ChoiceEnd(isIf), id);
    assert Flat(Choice(isIf, first, arms)) == [ChoiceHead(isIf)] + (a + b) + [ChoiceEnd(isIf)];
  }

  lemma {:induction false} OneBackEdgePerArms(isIf: bool, arms: seq<Arm>, id: Id)
    ensures Targets(LoopsOfArms(isIf, arms, id)) == Headers(FlatArms(isIf, arms), id)
    decreases arms
  {
    hide FlatAll, LoopsOfAll, Headers, Targets;
    if arms != [] {
      var body := arms[0].body;
      var next := id + 1 + |FlatAll(body)|;
      OneBackEdgePerLoop(body, id + 1);
      OneBackEdgePerArms(isIf, arms[1..], next);
      TargetsAppend(LoopsOfAll(body, id + 1), LoopsOfArms(isIf, arms[1..], next));
      ArmHeaders(isIf, arms, id);
    } else {
      NoTargets();
      NoHeaders(id);
    }
  }

  lemma {:induction false} NoHeaders(id: Id)
    ensures Headers([], id) == multiset{}
  {
  }

  lemma {:induction false} ArmHeaders(isIf: bool, arms: seq<Arm>, id: Id)
    requires arms != []
    ensures Headers(FlatArms(isIf, arms), id) ==
      Headers(FlatAll(arms[0].body), id + 1) + Headers(FlatArms(isIf, arms[1..]), id + 1 + |FlatAll(arms[0].body)|)
  {
    hide FlatAll, Headers;
    var head, body := ArmHead(isIf, arms[0]), FlatAll(arms[0].body);
    HeadersOne(head, id);
    HeadersAppend([head], body, id);
    HeadersAppend([head] + body, FlatArms(isIf, arms[1..]), id);
  }

  // ----- the tracker object and the loop that drives it -----

  class StructuredRegionTracker {
    const dialect: Dialect
    var frames: Frames

    constructor (dialect: Dialect)
      ensures this.dialect == dialect && frames == []
    {
      this.dialect, frames := dialect, [];
    }

    method FindNearest(kinds: set<FrameKind>) returns (found: Option<nat>)
      ensures found == Nearest(frames, kinds)
    {
      var i := |frames|;
      assert frames[..i] == frames;
      while i > 0
        invariant 0 <= i <= |frames|
        invariant Nearest(frames, kinds) == Nearest(frames[..i], kinds)
      {
        i := i - 1;
        assert frames[..i + 1][..i] == frames[..i];
        if frames[i].kind in kinds {
          return Some(i);
        }
      }
      found := None;
    }

    /** Updates the stack for one statement and returns the frames that it closed. */
    method AfterNode(id: Id, s: Statement, next: Option<Statement>) returns (closed: seq<Frame>)
      modifies this
      ensures (frames, closed) == After(dialect, old(frames), id, s, next)
    {
      closed := [];
      var single := dialect == TSql && !BeginsNext(next);
      match s
      case Condition(OpensIf) => frames := Push(frames, IF, id, single);
      case Condition(ElseIf) => var done := SetActive({IF}, id);
      case Condition(Else) => var done := SetActive({IF, CASE}, id);
      case Condition(When) => var done := SetActive({CASE, HANDLER}, id);
      case CaseHead => frames := Push(frames, CASE, id, false);
      case LoopHead => frames := Push(frames, LOOP, id, single);
      case Handler(form) =>
        var inlineHandler := (dialect == Db2 || dialect == MySql) && form == DeclaresHandler && !BeginsNext(next);
        if !inlineHandler {
          if form == BeginTry {
            frames := Push(frames, TRYCATCH, id, false);
          } else {
            var done := false;
            if form == BeginCatch {
              done := SetActive({TRYCATCH}, id);
            } else if form == WhenClause {
              done := SetActive({HANDLER}, id);
            }
            if !done {
              frames := Push(frames, HANDLER, id, false);
            }
          }
        }
      case Begin =>
        var owner := if frames == [] then None else Some((frames[|frames| - 1].kind, frames[|frames| - 1].root));
        frames := frames + [Frame(BLOCK, id, id, owner, false)];
      case End(form) => closed := Close(form, next);
      case Plain(_) =>
        if dialect == TSql && frames != [] && frames[|frames| - 1].singleStatement {
          closed := [frames[|frames| - 1]];
          frames := frames[..|frames| - 1];
        }
    }

    method SetActive(kinds: set<FrameKind>, id: Id) returns (done: bool)
      modifies this
      ensures match Activate(old(frames), kinds, id)
        case Some(now) => done && frames == now
        case None => !done && frames == old(frames)
    {
      var i := FindNearest(kinds);
      done := i != None;
      if done {
        frames := frames[i.value := frames[i.value].(active := id)];
      }
    }

    method Close(form: EndForm, next: Option<Statement>) returns (closed: seq<Frame>)
      modifies this
      ensures (frames, closed) == CloseForEnd(dialect, old(frames), form, next)
    {
      closed := [];
      match form
      case EndIf => closed := PopThrough(IF);
      case EndLoop => closed := PopThrough(LOOP);
      case EndCase => closed := PopThrough(CASE);
      case EndCatch => closed := PopThrough(TRYCATCH);
      case EndTry =>
      case EndPlain =>
        if frames != [] {
          var top := frames[|frames| - 1];
          frames := frames[..|frames| - 1];
          closed := [top];
          var popOwner;
          if top.kind == BLOCK {
            popOwner := top.owner != None && (top.owner.value.0 == HANDLER || dialect == TSql)
              && OwnerIsOpen(frames, top.owner.value)
              && !(dialect == TSql && top.owner.value.0 == IF && ElseNext(next));
          } else {
            popOwner := top.kind == HANDLER && frames != [] && frames[|frames| - 1].kind == BLOCK;
          }
          ghost var below := frames;
          if popOwner {
            assert [top, below[|below| - 1]] == closed + [below[|below| - 1]];
            closed := closed + [frames[|frames| - 1]];
            frames := frames[..|frames| - 1];
          }
        }
    }

    method PopThrough(kind: FrameKind) returns (closed: seq<Frame>)
      modifies this
      ensures (frames, closed) == PopUntil(old(frames), kind)
    {
      closed := [];
      while frames != []
        invariant PopUntil(old(frames), kind).0 == PopUntil(frames, kind).0
        invariant PopUntil(old(frames), kind).1 == closed + PopUntil(frames, kind).1
        decreases |frames|
      {
        var top := frames[|frames| - 1];
        if top.kind == kind {
          frames := frames[..|frames| - 1];
          closed := closed + [top];
          return;
        }
        ghost var rest := PopUntil(frames[..|frames| - 1], kind).1;
        assert closed + ([top] + rest) == closed + [top] + rest;
        frames := frames[..|frames| - 1];
        closed := closed + [top];
      }
      assert closed + [] == closed;
    }

    method Drain() returns (remaining: Frames)
      modifies this
      ensures frames == [] && remaining == old(frames)
    {
      remaining := frames;
      frames := [];
    }
  }

  lemma {:induction false} RunStep(d: Dialect, frames: Frames, ss: seq<Statement>, i: nat, done: Run)
    requires i < |ss|
    ensures
      var s, next := Reclassify(frames, ss[i]), if i + 1 < |ss| then Some(ss[i + 1]) else None;
      var (now, closed) := After(d, frames, i + 1, s, next);
      var step := Run([], [Info(ParentFor(frames, s), IsConditional(frames))], BackEdges(i + 1, closed));
      Then(done, RunAll(d, frames, ss[i..], None, i + 1)) == Then(Then(done, step), RunAll(d, now, ss[i + 1..], None, i + 2))
  {
    hide After, Reclassify, ParentFor, IsConditional, BackEdges;
    assert ss[i..][0] == ss[i] && ss[i..][1..] == ss[i + 1..];
    var s, next := Reclassify(frames, ss[i]), if i + 1 < |ss| then Some(ss[i + 1]) else None;
    assert next == First(ss[i + 1..], None);
    var (now, closed) := After(d, frames, i + 1, s, next);
    var rest := RunAll(d, now, ss[i + 1..], None, i + 2);
    Regroup(done.infos, [Info(ParentFor(frames, s), IsConditional(frames))], rest.infos);
    Regroup(done.backs, BackEdges(i + 1, closed), rest.backs);
  }

  /** The loop over the statements: records each of them and drives the tracker. */
  method ParseStream(d: Dialect, ss: seq<Statement>)
    returns (infos: seq<Info>, backs: seq<LoopBack>, remaining: Frames)
    ensures Run(remaining, infos, backs) == RunAll(d, [], ss, None, 1)
  {
    hide After, Reclassify, ParentFor, IsConditional, BackEdges;
    var tracker := new StructuredRegionTracker(d);
    infos, backs := [], [];
    var i := 0;
    assert ss[0..] == ss;
    ghost var whole := RunAll(d, [], ss, None, 1);
    assert [] + whole.infos == whole.infos && [] + whole.backs == whole.backs;
    while i < |ss|
      invariant 0 <= i <= |ss| && tracker.dialect == d
      invariant Then(Run([], infos, backs), RunAll(d, tracker.frames, ss[i..], None, i + 1)) == whole
    {
      var s := Reclassify(tracker.frames, ss[i]);
      var next := if i + 1 < |ss| then Some(ss[i + 1]) else None;
      var info := Info(ParentFor(tracker.frames, s), IsConditional(tracker.frames));
      RunStep(d, tracker.frames, ss, i, Run([], infos, backs));
      var closed := tracker.AfterNode(i + 1, s, next);
      infos := infos + [info];
      backs := backs + BackEdges(i + 1, closed);
      i := i + 1;
    }
    remaining := tracker.Drain();
    assert infos + [] == infos && backs + [] == backs;
  }
}
