/** The refined control-flow graph by positions: from which statement to which each kind of edge leads. */
module RefinedEdges {
  import opened Basics
  import opened ControlFlow

  // ----- first and last positions -----

  lemma {:induction false} FirstInIs(ns: Nodes, lo: nat, hi: nat, q: Query)
    requires hi <= |ns|
    ensures var r := FirstIn(ns, lo, hi, q);
      forall j | lo <= j < (if r != None then r.value else hi) :: !Meets(ns, ns[j], q)
    decreases hi - lo
  {
    hide Meets;
    if lo < hi && !Meets(ns, ns[lo], q) {
      FirstInIs(ns, lo + 1, hi, q);
    }
  }

  lemma {:induction false} LastInIs(ns: Nodes, lo: nat, hi: nat, q: Query)
    requires hi <= |ns|
    ensures var r := LastIn(ns, lo, hi, q);
      forall j | (if r != None then r.value + 1 else lo) <= j < hi :: !Meets(ns, ns[j], q)
    decreases hi
  {
    hide Meets;
    if lo < hi && !Meets(ns, ns[hi - 1], q) {
      LastInIs(ns, lo, hi - 1, q);
    }
  }

  lemma {:induction false} FirstInIff(ns: Nodes, lo: nat, hi: nat, q: Query, k: nat)
    requires hi <= |ns|
    ensures FirstIn(ns, lo, hi, q) == Some(k) <==>
      lo <= k < hi && Meets(ns, ns[k], q) && forall j | lo <= j < k :: !Meets(ns, ns[j], q)
  {
    hide Meets;
    FirstInIs(ns, lo, hi, q);
  }

  lemma {:induction false} LastInIff(ns: Nodes, lo: nat, hi: nat, q: Query, k: nat)
    requires hi <= |ns|
    ensures LastIn(ns, lo, hi, q) == Some(k) <==>
      lo <= k < hi && Meets(ns, ns[k], q) && forall j | k < j < hi :: !Meets(ns, ns[j], q)
  {
    hide Meets;
    LastInIs(ns, lo, hi, q);
  }

  /** t is the statement behind position k, or the exit behind the last one. */
  predicate Behind(ns: Nodes, k: nat, exit: Id, t: Id) {
    t == if k + 1 < |ns| then ns[k + 1].id else exit
  }

  /** Statement k stands anywhere inside statement i. */
  predicate Inside(ns: Nodes, k: nat, i: nat)
    requires k < |ns| && i < |ns|
  {
    IsDescendant(ns, ns[k].id, ns[i].id)
  }

  predicate IsTransfer(n: Node) {
    n.kind == RETURN || n.kind == ERROR_RAISE || n.kind == GOTO || n.kind == LOOP_CONTROL
  }

  // ----- joins -----

  predicate IsChoice(n: Node) {
    n.kind == CASE || (n.kind == CONDITION && n.branch == OpensBranch)
  }

  /** The last statement inside the choice at i. */
  ghost predicate EndsChoice(ns: Nodes, i: nat, last: nat) {
    && i < last < |ns| && Inside(ns, last, i)
    && forall j | last < j < |ns| :: !Inside(ns, j, i)
  }

  /** An arm of the choice at i starts at a: the choice itself, or an ELSE, ELSEIF or WHEN of it. */
  predicate StartsArm(ns: Nodes, i: nat, last: nat, a: nat)
    requires i < last < |ns|
  {
    || a == i
    || (i < a <= last && ns[a].kind == CONDITION && ns[a].parent == Some(ns[i].id) && ns[a].branch != OpensBranch)
  }

  /** Statement b, no BEGIN or END, stands inside the arm that starts at a, before the next arm. */
  ghost predicate InArm(ns: Nodes, i: nat, last: nat, a: nat, b: nat)
    requires i < last < |ns|
  {
    && i <= a < b <= last && ns[b].kind != BLOCK && Inside(ns, b, a)
    && forall c | a < c <= b :: !StartsArm(ns, i, last, c)
  }

  ghost predicate EndsArm(ns: Nodes, i: nat, last: nat, a: nat, b: nat)
    requires i < last < |ns|
  {
    StartsArm(ns, i, last, a) && InArm(ns, i, last, a, b) && forall c | b < c <= last :: !InArm(ns, i, last, a, c)
  }

  /** JOIN: from the last statement of an arm, unless it is a transfer, to the statement behind the
      choice. */
  ghost predicate JoinAt(ns: Nodes, i: nat, exit: Id, e: Edge)
    requires i < |ns|
  {
    exists last: nat, a: nat, b: nat | EndsChoice(ns, i, last) && EndsArm(ns, i, last, a, b) ::
      && IsChoice(ns[i]) && !IsTransfer(ns[b]) && Behind(ns, last, exit, e.target)
      && e == Edge(ns[b].id, e.target, BRANCH, Some("JOIN"))
  }

  /** FALSE: from an IF without ELSE to the statement behind it. */
  ghost predicate NoElseAt(ns: Nodes, i: nat, exit: Id, e: Edge)
    requires i < |ns|
  {
    exists last: nat | EndsChoice(ns, i, last) ::
      && ns[i].kind == CONDITION && ns[i].branch == OpensBranch
      && (forall a | i < a <= last :: !(ns[a].kind == CONDITION && ns[a].parent == Some(ns[i].id) && ns[a].branch == ELSE))
      && Behind(ns, last, exit, e.target) && e == Edge(ns[i].id, e.target, FALSE, ns[i].condition)
  }

  /** NO_MATCH: from every CASE to the statement behind it. */
  ghost predicate NoMatchAt(ns: Nodes, i: nat, exit: Id, e: Edge)
    requires i < |ns|
  {
    exists last: nat | EndsChoice(ns, i, last) ::
      ns[i].kind == CASE && Behind(ns, last, exit, e.target) && e == Edge(ns[i].id, e.target, BRANCH, Some("NO_MATCH"))
  }

  lemma {:induction false} ArmMeets(ns: Nodes, i: nat, last: nat, c: nat)
    requires i < last < |ns| && i < c <= last
    ensures Meets(ns, ns[c], ArmOf(ns[i].id)) <==> StartsArm(ns, i, last, c)
  {
    hide IsDescendant;
  }

  lemma {:induction false} BodyMeets(ns: Nodes, a: nat, b: nat)
    requires a < |ns| && b < |ns|
    ensures Meets(ns, ns[b], BodyOf(ns[a].id)) <==> ns[b].kind != BLOCK && Inside(ns, b, a)
  {
    hide IsDescendant;
  }

  /** The end of the arm that starts at a, where the next one starts at stop or there is none. */
  lemma {:induction false} OneArm(ns: Nodes, i: nat, last: nat, a: nat, stop: nat, b: nat)
    requires i < last < |ns| && i <= a < stop <= last + 1 && StartsArm(ns, i, last, a)
    requires forall c | a < c < stop :: !StartsArm(ns, i, last, c)
    requires stop <= last ==> StartsArm(ns, i, last, stop)
    ensures LastIn(ns, a + 1, stop, BodyOf(ns[a].id)) == Some(b) <==> EndsArm(ns, i, last, a, b)
  {
    hide StartsArm, Inside, LastIn, Meets;
    LastInIff(ns, a + 1, stop, BodyOf(ns[a].id), b);
    forall c: nat | a < c <= last
      ensures InArm(ns, i, last, a, c) <==> c < stop && ns[c].kind != BLOCK && Inside(ns, c, a)
      ensures InArm(ns, i, last, a, c) <==> c < stop && Meets(ns, ns[c], BodyOf(ns[a].id))
    {
      BodyMeets(ns, a, c);
    }
    hide InArm;
  }

  ghost predicate JoinsFrom(ns: Nodes, i: nat, last: nat, k: nat, join: Id, e: Edge)
    requires i < last < |ns|
  {
    exists a: nat, b: nat | EndsArm(ns, i, last, a, b) :: k <= a && !IsTransfer(ns[b]) && e == Edge(ns[b].id, join, BRANCH, Some("JOIN"))
  }

  lemma {:induction false} ArmJoinsAre(ns: Nodes, i: nat, last: nat, k: nat, join: Id, e: Edge)
    requires i < last < |ns| && i <= k <= last && StartsArm(ns, i, last, k)
    ensures e in ArmJoins(ns, ns[i].id, k, last, join) <==> JoinsFrom(ns, i, last, k, join, e)
    decreases last - k
  {
    hide Meets, StartsArm, EndsArm;
    var next := FirstIn(ns, k + 1, last + 1, ArmOf(ns[i].id));
    var stop := if next == None then last + 1 else next.value;
    FirstInIs(ns, k + 1, last + 1, ArmOf(ns[i].id));
    forall c | k < c <= last ensures Meets(ns, ns[c], ArmOf(ns[i].id)) <==> StartsArm(ns, i, last, c) {
      ArmMeets(ns, i, last, c);
    }
    forall b: nat ensures LastIn(ns, k + 1, stop, BodyOf(ns[k].id)) == Some(b) <==> EndsArm(ns, i, last, k, b) {
      OneArm(ns, i, last, k, stop, b);
    }
    forall a: nat, b: nat | EndsArm(ns, i, last, a, b) ensures StartsArm(ns, i, last, a) && i <= a <= last {
      ArmStarts(ns, i, last, a, b);
    }
    if next != None {
      ArmJoinsAre(ns, i, last, next.value, join, e);
    }
    JoinsSplit(ns, i, last, k, stop, join, e);
  }

  lemma {:induction false} ArmStarts(ns: Nodes, i: nat, last: nat, a: nat, b: nat)
    requires i < last < |ns| && EndsArm(ns, i, last, a, b)
    ensures StartsArm(ns, i, last, a) && i <= a < b <= last
  {
  }

  lemma {:induction false} JoinsSplit(ns: Nodes, i: nat, last: nat, k: nat, stop: nat, join: Id, e: Edge)
    requires i < last < |ns| && i <= k < stop
    requires forall a: nat, b: nat | EndsArm(ns, i, last, a, b) && a > k :: a >= stop
    ensures JoinsFrom(ns, i, last, k, join, e) <==>
      || JoinsFrom(ns, i, last, stop, join, e)
      || exists b: nat | EndsArm(ns, i, last, k, b) :: !IsTransfer(ns[b]) && e == Edge(ns[b].id, join, BRANCH, Some("JOIN"))
  {
    hide EndsArm, IsTransfer;
  }

  lemma {:induction false} ChoiceEnds(ns: Nodes, i: nat, last: nat)
    requires i < |ns|
    ensures LastIn(ns, i + 1, |ns|, Under(ns[i].id)) == Some(last) <==> EndsChoice(ns, i, last)
  {
    hide Inside, LastIn, Meets;
    LastInIff(ns, i + 1, |ns|, Under(ns[i].id), last);
    forall j: nat | j < |ns| ensures Meets(ns, ns[j], Under(ns[i].id)) <==> Inside(ns, j, i) {
      UnderMeets(ns, j, i);
    }
  }

  lemma {:induction false} JoinsAre(ns: Nodes, i: nat, exit: Id, e: Edge)
    requires i < |ns|
    ensures e in Joins(ns, i, exit) <==> JoinAt(ns, i, exit, e) || NoElseAt(ns, i, exit, e) || NoMatchAt(ns, i, exit, e)
  {
    hide ArmJoins, EndsArm, HasElse, Inside, IsTransfer, Meets, LastIn;
    var end := LastIn(ns, i + 1, |ns|, Under(ns[i].id));
    forall last: nat ensures end == Some(last) <==> EndsChoice(ns, i, last) {
      ChoiceEnds(ns, i, last);
    }
    if IsChoice(ns[i]) && end != None {
      var last := end.value;
      assert EndsChoice(ns, i, last);
      JoinsOf(ns, i, last, exit, e);
      forall a: nat, b: nat | EndsArm(ns, i, last, a, b) ensures i <= a {
        ArmStarts(ns, i, last, a, b);
      }
    }
  }

  /** The joins of the choice at i, which ends at last. */
  lemma {:induction false} JoinsOf(ns: Nodes, i: nat, last: nat, exit: Id, e: Edge)
    requires i < |ns| && IsChoice(ns[i]) && EndsChoice(ns, i, last)
    requires LastIn(ns, i + 1, |ns|, Under(ns[i].id)) == Some(last)
    ensures var join := FirstAfter(ns, last, exit);
      e in Joins(ns, i, exit) <==>
        || JoinsFrom(ns, i, last, i, join, e)
        || (&& ns[i].kind == CONDITION && e == Edge(ns[i].id, join, FALSE, ns[i].condition)
            && forall a | i < a <= last :: !(ns[a].kind == CONDITION && ns[a].parent == Some(ns[i].id) && ns[a].branch == ELSE))
        || (ns[i].kind == CASE && e == Edge(ns[i].id, join, BRANCH, Some("NO_MATCH")))
  {
    hide ArmJoins, EndsArm, HasElse, Inside, IsTransfer, Meets, LastIn;
    FirstArm(ns, i, last);
    ArmJoinsAre(ns, i, last, i, FirstAfter(ns, last, exit), e);
    ElseIs(ns, i, last);
  }

  lemma {:induction false} UnderMeets(ns: Nodes, j: nat, i: nat)
    requires j < |ns| && i < |ns|
    ensures Meets(ns, ns[j], Under(ns[i].id)) <==> Inside(ns, j, i)
  {
    hide IsDescendant;
  }

  lemma {:induction false} FirstArm(ns: Nodes, i: nat, last: nat)
    requires i < last < |ns|
    ensures StartsArm(ns, i, last, i)
  {
  }

  lemma {:induction false} ElseIs(ns: Nodes, i: nat, last: nat)
    requires i < last < |ns| && IsChoice(ns[i])
    ensures ns[i].kind == CONDITION ==> (HasElse(ns, ns[i], i + 1, last) <==>
      exists a | i < a <= last :: ns[a].kind == CONDITION && ns[a].parent == Some(ns[i].id) && ns[a].branch == ELSE)
  {
    hide IsDescendant;
    FirstInIs(ns, i + 1, last + 1, ElseOf(ns[i].id));
  }

  // ----- loops -----

  predicate EndsWithKeyword(n: Node) {
    StartsWith(n.text, "END LOOP") || StartsWith(n.text, "END WHILE") || StartsWith(n.text, "END REPEAT")
  }

  /** An END of the loop at i that is worded as one, or behind which the loop is left. */
  predicate MayEndLoop(ns: Nodes, i: nat, k: nat)
    requires i < |ns| && k < |ns|
  {
    && ns[k].kind == BLOCK && StartsWith(ns[k].text, "END")
    && (ns[k].parent == Some(ns[i].id) || Inside(ns, k, i))
    && (EndsWithKeyword(ns[k]) || k + 1 == |ns| || !Inside(ns, k + 1, i))
  }

  /** t is behind the first such END behind the loop, or the exit if there is none. */
  ghost predicate BehindLoop(ns: Nodes, i: nat, exit: Id, t: Id)
    requires i < |ns|
  {
    || (exists k: nat | i < k < |ns| :: MayEndLoop(ns, i, k) && (forall j | i < j < k :: !MayEndLoop(ns, i, j)) && Behind(ns, k, exit, t))
    || (t == exit && forall k | i < k < |ns| :: !MayEndLoop(ns, i, k))
  }

  /** FALSE: from a loop to the statement behind the END of its body. */
  ghost predicate LoopExitAt(ns: Nodes, i: nat, exit: Id, e: Edge)
    requires i < |ns|
  {
    && ns[i].kind == LOOP && BehindLoop(ns, i, exit, e.target)
    && e == Edge(ns[i].id, e.target, FALSE, Some(Given(ns[i].condition, "LOOP_EXIT")))
  }

  lemma {:induction false} LoopEndIs(ns: Nodes, i: nat, k: nat)
    requires i < k && i < |ns|
    ensures var r := LoopEndFrom(ns, ns[i].id, k);
      && (r != None ==> k <= r.value < |ns| && MayEndLoop(ns, i, r.value))
      && forall j | k <= j < (if r != None then r.value else |ns|) :: !MayEndLoop(ns, i, j)
    decreases |ns| - k
  {
    hide StartsWith, IsDescendant;
    if k < |ns| && !MayEndLoop(ns, i, k) {
      LoopEndIs(ns, i, k + 1);
    }
  }

  lemma {:induction false} LoopTargetIs(ns: Nodes, i: nat, exit: Id, t: Id)
    requires i < |ns|
    ensures LoopExitTarget(ns, i, exit) == t <==> BehindLoop(ns, i, exit, t)
  {
    hide LoopEndFrom, MayEndLoop;
    LoopEndIs(ns, i, i + 1);
  }

  lemma {:induction false} LoopExitsAre(ns: Nodes, i: nat, exit: Id, e: Edge)
    requires i < |ns|
    ensures e in LoopExits(ns, i, exit) <==> LoopExitAt(ns, i, exit, e)
  {
    hide LoopExitTarget, BehindLoop;
    LoopTargetIs(ns, i, exit, e.target);
  }

  // ----- handlers -----

  /** k is the first position from lo on with the property; the properties follow. */
  ghost predicate FirstEnd(ns: Nodes, lo: nat, k: nat, parent: Option<Id>) {
    && lo <= k < |ns| && ClosesUnder(ns, ns[k], parent)
    && forall j | lo <= j < k :: !ClosesUnder(ns, ns[j], parent)
  }

  /** An END of the given statement, or of one inside it. */
  predicate ClosesUnder(ns: Nodes, n: Node, parent: Option<Id>) {
    && n.kind == BLOCK && StartsWith(n.text, "END")
    && (n.parent == parent || (parent != None && parent.value in Ancestry(ns, n)))
  }

  ghost predicate FirstWorded(ns: Nodes, lo: nat, k: nat, kind: Kind, prefix: string) {
    && lo <= k < |ns| && ns[k].kind == kind && StartsWith(ns[k].text, prefix)
    && forall j | lo <= j < k :: !(ns[j].kind == kind && StartsWith(ns[j].text, prefix))
  }

  lemma {:induction false} FirstEndIs(ns: Nodes, lo: nat, parent: Option<Id>, k: nat)
    ensures FirstIn(ns, lo, |ns|, EndUnder(parent)) == Some(k) <==> FirstEnd(ns, lo, k, parent)
  {
    hide StartsWith, Ancestry, FirstIn;
    FirstInIff(ns, lo, |ns|, EndUnder(parent), k);
  }

  lemma {:induction false} FirstWordedIs(ns: Nodes, lo: nat, kind: Kind, prefix: string, k: nat)
    ensures FirstIn(ns, lo, |ns|, Wording(kind, prefix)) == Some(k) <==> FirstWorded(ns, lo, k, kind, prefix)
  {
    hide StartsWith, FirstIn;
    FirstInIff(ns, lo, |ns|, Wording(kind, prefix), k);
  }

  /** HANDLER_DECLARATION: from a declared handler to the statement behind the END of its block. */
  ghost predicate DeclarationAt(ns: Nodes, i: nat, exit: Id, e: Edge)
    requires i < |ns|
  {
    && ns[i].kind == ERROR_HANDLER && StartsWith(ns[i].text, "DECLARE ") && i + 1 < |ns|
    && ns[i + 1].kind == BLOCK && StartsWith(ns[i + 1].text, "BEGIN") && ns[i + 1].parent == Some(ns[i].id)
    && exists k: nat | FirstEnd(ns, i + 2, k, Some(ns[i + 1].id)) ::
         Behind(ns, k, exit, e.target) && e == Edge(ns[i].id, e.target, NEXT, Some("HANDLER_DECLARATION"))
  }

  ghost predicate BehindCatch(ns: Nodes, catch: nat, exit: Id, t: Id) {
    exists k: nat | FirstWorded(ns, catch + 1, k, BLOCK, "END CATCH") :: Behind(ns, k, exit, t)
  }

  /** TRY_SUCCESS: from END TRY to the statement behind END CATCH. */
  ghost predicate TrySuccessAt(ns: Nodes, i: nat, exit: Id, e: Edge)
    requires i < |ns|
  {
    && ns[i].kind == ERROR_HANDLER && StartsWith(ns[i].text, "BEGIN TRY")
    && (exists endTry: nat | FirstWorded(ns, i + 1, endTry, BLOCK, "END TRY") ::
          e == Edge(ns[endTry].id, e.target, NEXT, Some("TRY_SUCCESS")))
    && exists catch: nat | FirstWorded(ns, i + 1, catch, ERROR_HANDLER, "BEGIN CATCH") ::
         BehindCatch(ns, catch, exit, e.target)
  }

  /** NO_EXCEPTION: from the statement in front of an exception section to the END of the section. */
  ghost predicate NoExceptionAt(ns: Nodes, i: nat, e: Edge)
    requires i < |ns|
  {
    && ns[i].kind == ERROR_HANDLER && StartsWith(ns[i].text, "EXCEPTION")
    && i > 0 && ns[i - 1].kind != RETURN && ns[i - 1].kind != ERROR_RAISE && ns[i - 1].kind != GOTO
    && exists k: nat | FirstEnd(ns, i + 1, k, ns[i].parent) :: e == Edge(ns[i - 1].id, ns[k].id, NEXT, Some("NO_EXCEPTION"))
  }

  lemma {:induction false} OneWording(text: string)
    ensures !(StartsWith(text, "DECLARE ") && StartsWith(text, "BEGIN TRY"))
    ensures !(StartsWith(text, "DECLARE ") && StartsWith(text, "EXCEPTION"))
    ensures !(StartsWith(text, "BEGIN TRY") && StartsWith(text, "EXCEPTION"))
  {
    assert "DECLARE "[0] == 'D' && "BEGIN TRY"[0] == 'B' && "EXCEPTION"[0] == 'E';
    if StartsWith(text, "DECLARE ") {
      assert text[0] == 'D';
    } else if StartsWith(text, "BEGIN TRY") {
      assert text[0] == 'B';
    }
  }

  lemma {:induction false} HandlerSkipsAre(ns: Nodes, i: nat, exit: Id, e: Edge)
    requires i < |ns|
    ensures e in HandlerSkips(ns, i, exit) <==>
      DeclarationAt(ns, i, exit, e) || TrySuccessAt(ns, i, exit, e) || NoExceptionAt(ns, i, e)
  {
    hide StartsWith, FirstIn, DeclarationAt, TrySuccessAt, NoExceptionAt;
    OneWording(ns[i].text);
    DeclarationIs(ns, i, exit, e);
    TrySuccessIs(ns, i, exit, e);
    NoExceptionIs(ns, i, exit, e);
    WordingTells(ns, i, exit, e);
  }

  lemma {:induction false} WordingTells(ns: Nodes, i: nat, exit: Id, e: Edge)
    requires i < |ns|
    ensures DeclarationAt(ns, i, exit, e) ==> ns[i].kind == ERROR_HANDLER && StartsWith(ns[i].text, "DECLARE ") && i + 1 < |ns|
    ensures TrySuccessAt(ns, i, exit, e) ==> ns[i].kind == ERROR_HANDLER && StartsWith(ns[i].text, "BEGIN TRY")
    ensures NoExceptionAt(ns, i, e) ==> ns[i].kind == ERROR_HANDLER && StartsWith(ns[i].text, "EXCEPTION")
  {
    hide StartsWith, FirstEnd, FirstWorded;
  }

  lemma {:induction false} BehindIs(ns: Nodes, k: nat, exit: Id, t: Id)
    ensures Behind(ns, k, exit, t) <==> t == FirstAfter(ns, k, exit)
  {
  }

  /** The first END is one position, or there is none. */
  lemma {:induction false} OnlyEnd(ns: Nodes, lo: nat, parent: Option<Id>)
    ensures var end := FirstIn(ns, lo, |ns|, EndUnder(parent));
      && (end != None ==> FirstEnd(ns, lo, end.value, parent))
      && forall k: nat | FirstEnd(ns, lo, k, parent) :: end == Some(k)
  {
    hide FirstEnd, FirstIn;
    var end := FirstIn(ns, lo, |ns|, EndUnder(parent));
    if end != None {
      FirstEndIs(ns, lo, parent, end.value);
    }
    forall k: nat | FirstEnd(ns, lo, k, parent) ensures end == Some(k) {
      FirstEndIs(ns, lo, parent, k);
    }
  }

  lemma {:induction false} OnlyWorded(ns: Nodes, lo: nat, kind: Kind, prefix: string)
    ensures var r := FirstIn(ns, lo, |ns|, Wording(kind, prefix));
      && (r != None ==> FirstWorded(ns, lo, r.value, kind, prefix))
      && forall k: nat | FirstWorded(ns, lo, k, kind, prefix) :: r == Some(k)
  {
    hide FirstWorded, FirstIn;
    var r := FirstIn(ns, lo, |ns|, Wording(kind, prefix));
    if r != None {
      FirstWordedIs(ns, lo, kind, prefix, r.value);
    }
    forall k: nat | FirstWorded(ns, lo, k, kind, prefix) ensures r == Some(k) {
      FirstWordedIs(ns, lo, kind, prefix, k);
    }
  }

  lemma {:induction false} DeclarationIs(ns: Nodes, i: nat, exit: Id, e: Edge)
    requires i < |ns|
    ensures ns[i].kind == ERROR_HANDLER && StartsWith(ns[i].text, "DECLARE ") ==>
      (e in HandlerSkips(ns, i, exit) <==> DeclarationAt(ns, i, exit, e))
  {
    hide StartsWith, FirstIn, FirstEnd, Behind, FirstAfter;
    OneWording(ns[i].text);
    if ns[i].kind == ERROR_HANDLER && StartsWith(ns[i].text, "DECLARE ") && i + 1 < |ns| {
      var begin := ns[i + 1];
      var end := FirstIn(ns, i + 2, |ns|, EndUnder(Some(begin.id)));
      OnlyEnd(ns, i + 2, Some(begin.id));
      if end != None {
        BehindIs(ns, end.value, exit, e.target);
      }
      assert DeclarationAt(ns, i, exit, e) <==>
        && begin.kind == BLOCK && StartsWith(begin.text, "BEGIN") && begin.parent == Some(ns[i].id)
        && end != None && e == Edge(ns[i].id, FirstAfter(ns, end.value, exit), NEXT, Some("HANDLER_DECLARATION"));
    }
  }

  lemma {:induction false} TrySuccessIs(ns: Nodes, i: nat, exit: Id, e: Edge)
    requires i < |ns|
    ensures ns[i].kind == ERROR_HANDLER && StartsWith(ns[i].text, "BEGIN TRY") ==>
      (e in HandlerSkips(ns, i, exit) <==> TrySuccessAt(ns, i, exit, e))
  {
    hide StartsWith, FirstIn, FirstWorded;
    OneWording(ns[i].text);
    var endTry := FirstIn(ns, i + 1, |ns|, Wording(BLOCK, "END TRY"));
    var catch := FirstIn(ns, i + 1, |ns|, Wording(ERROR_HANDLER, "BEGIN CATCH"));
    OnlyWorded(ns, i + 1, BLOCK, "END TRY");
    OnlyWorded(ns, i + 1, ERROR_HANDLER, "BEGIN CATCH");
    if ns[i].kind == ERROR_HANDLER && StartsWith(ns[i].text, "BEGIN TRY") {
      if endTry != None && catch != None {
        var end := FirstIn(ns, catch.value + 1, |ns|, Wording(BLOCK, "END CATCH"));
        OnlyWorded(ns, catch.value + 1, BLOCK, "END CATCH");
        if end != None {
          BehindIs(ns, end.value, exit, e.target);
        }
        hide Behind, FirstAfter;
        assert BehindCatch(ns, catch.value, exit, e.target) <==> end != None && e.target == FirstAfter(ns, end.value, exit);
        assert TrySuccessAt(ns, i, exit, e) <==>
          end != None && e == Edge(ns[endTry.value].id, FirstAfter(ns, end.value, exit), NEXT, Some("TRY_SUCCESS"));
      }
    }
  }

  lemma {:induction false} NoExceptionIs(ns: Nodes, i: nat, exit: Id, e: Edge)
    requires i < |ns|
    ensures ns[i].kind == ERROR_HANDLER && StartsWith(ns[i].text, "EXCEPTION") ==>
      (e in HandlerSkips(ns, i, exit) <==> NoExceptionAt(ns, i, e))
  {
    hide StartsWith, FirstIn, FirstEnd;
    OneWording(ns[i].text);
    var end := FirstIn(ns, i + 1, |ns|, EndUnder(ns[i].parent));
    OnlyEnd(ns, i + 1, ns[i].parent);
    if ns[i].kind == ERROR_HANDLER && StartsWith(ns[i].text, "EXCEPTION") {
      assert NoExceptionAt(ns, i, e) <==>
        && i > 0 && end != None && !IsTerminal(ns[i - 1].kind)
        && e == Edge(ns[i - 1].id, ns[end.value].id, NEXT, Some("NO_EXCEPTION"));
    }
  }

  // ----- failures -----

  /** The statement that holds the handler at k: the innermost BEGIN around it, or else its parent. */
  ghost predicate IsScope(ns: Nodes, h: Node, scope: Option<Id>) {
    var up := Ancestry(ns, h);
    || (exists j: nat | j < |up| ::
          IsBegin(ns, up[j]) && (forall i | 0 <= i < j :: !IsBegin(ns, up[i])) && scope == Some(up[j]))
    || (scope == h.parent && forall id | id in up :: !IsBegin(ns, id))
  }

  predicate IsBegin(ns: Nodes, id: Id) {
    var n := Find(ns, id);
    n != None && n.value.kind == BLOCK && StartsWith(n.value.text, "BEGIN")
  }

  /** The condition of the handler covers what n may raise.  By name it covers any exception of n; NOT FOUND
      covers queries and fetches only; SQLEXCEPTION, OTHERS and CATCH cover everything; EXCEPTION alone
      covers nothing; a WHEN of another name covers n only where nothing may be missed. */
  predicate Covers(h: Node, n: Node, conservative: bool) {
    || Names(h, n)
    || (IsMissing(h) && (n.kind == CURSOR_FETCH || n.kind == SELECT_INTO || n.kind == QUERY))
    || (!IsMissing(h) && IsGeneral(h))
    || (!IsMissing(h) && !IsGeneral(h) && h.text != "EXCEPTION" && !StartsWith(h.text, "EXCEPTION ")
        && (StartsWith(h.text, "WHEN ") ==> conservative))
  }

  /** One text contains another iff it stands somewhere in it. */
  lemma {:induction false} ContainsIs(text: string, part: string)
    ensures Contains(text, part) <==> exists k: nat :: StandsAt(text, part, k)
    decreases |text|
  {
    hide StandsAt;
    StandsFirst(text, part);
    if text != [] {
      ContainsIs(text[1..], part);
      if k: nat :| StandsAt(text[1..], part, k) {
        StandsLater(text, part, k + 1);
      }
      if k: nat :| k > 0 && StandsAt(text, part, k) {
        StandsLater(text, part, k);
      }
    } else {
      NowhereElse(part);
    }
  }

  lemma {:induction false} StandsFirst(text: string, part: string)
    ensures StandsAt(text, part, 0) <==> part <= text
  {
  }

  lemma {:induction false} NowhereElse(part: string)
    ensures forall k: nat | StandsAt([], part, k) :: k == 0
  {
  }

  lemma {:induction false} StandsLater(text: string, part: string, k: nat)
    requires text != [] && k > 0
    ensures StandsAt(text, part, k) <==> StandsAt(text[1..], part, k - 1)
  {
    if k + |part| <= |text| {
      assert text[1..][k - 1..k - 1 + |part|] == text[k..k + |part|];
    }
  }

  predicate StandsAt(text: string, part: string, k: nat) {
    k + |part| <= |text| && text[k..k + |part|] == part
  }

  predicate Names(h: Node, n: Node) {
    exists k | k in n.keys :: Contains(Given(h.condition, h.text), k)
  }

  predicate IsMissing(h: Node) {
    Contains(h.text, "NOT FOUND") || Contains(h.text, "NO_DATA_FOUND")
  }

  predicate IsGeneral(h: Node) {
    Contains(h.text, "SQLEXCEPTION") || Contains(h.text, "OTHERS") || Contains(h.text, "BEGIN CATCH")
  }

  /** The handler at k may catch what the statement n raises. */
  ghost predicate Catches(ns: Nodes, n: Node, k: nat, conservative: bool)
    requires k < |ns|
  {
    && ns[k].kind == ERROR_HANDLER && Covers(ns[k], n, conservative)
    && ns[k].id != n.id && ns[k].id !in Ancestry(ns, n)
    && exists scope: Id | IsScope(ns, ns[k], Some(scope)) :: n.parent == Some(scope) || scope in Ancestry(ns, n)
  }

  ghost predicate InsideHandler(ns: Nodes, n: Node) {
    exists id | id in Ancestry(ns, n) :: Find(ns, id) != None && Find(ns, id).value.kind == ERROR_HANDLER
  }

  /** The handler at k is one of the deepest that may catch what n raises, and n is in no handler itself. */
  ghost predicate CatchesFirst(ns: Nodes, n: Node, k: nat, conservative: bool) {
    && k < |ns| && Catches(ns, n, k, conservative) && !InsideHandler(ns, n)
    && forall j | 0 <= j < |ns| && Catches(ns, n, j, conservative) :: |Ancestry(ns, ns[j])| <= |Ancestry(ns, ns[k])|
  }

  /** EXCEPTION: from a statement that may fail to each of the deepest handlers that may catch it. */
  ghost predicate FailureAt(ns: Nodes, i: nat, e: Edge)
    requires i < |ns|
  {
    && ns[i].kind in {QUERY, SELECT_INTO, CALL, CURSOR_FETCH, OtherFailing}
    && exists k: nat | CatchesFirst(ns, ns[i], k, true) ::
         e == Edge(ns[i].id, ns[k].id, EXCEPTION, Some(Given(ns[k].condition, ns[k].text)))
  }

  lemma {:induction false} FirstAncestorAt(ns: Nodes, chain: seq<Id>, q: Query)
    ensures var r := FirstAncestor(ns, chain, q);
      && (r == None ==> forall id | id in chain :: !(Find(ns, id) != None && Meets(ns, Find(ns, id).value, q)))
      && (r != None ==> exists j: nat | j < |chain| ::
            && Find(ns, chain[j]) == r && Meets(ns, r.value, q)
            && forall i | 0 <= i < j :: !(Find(ns, chain[i]) != None && Meets(ns, Find(ns, chain[i]).value, q)))
  {
    hide Find, Meets;
    if chain != [] {
      var n := Find(ns, chain[0]);
      if !(n != None && Meets(ns, n.value, q)) {
        FirstAncestorAt(ns, chain[1..], q);
        var r := FirstAncestor(ns, chain[1..], q);
        if r != None {
          var j: nat :| j < |chain[1..]| && Find(ns, chain[1..][j]) == r && Meets(ns, r.value, q)
            && forall i | 0 <= i < j :: !(Find(ns, chain[1..][i]) != None && Meets(ns, Find(ns, chain[1..][i]).value, q));
          assert chain[j + 1] == chain[1..][j];
          assert forall i | 0 < i < j + 1 :: chain[i] == chain[1..][i - 1];
        }
      }
    }
  }

  lemma {:induction false} BeginMeets(ns: Nodes, id: Id)
    ensures IsBegin(ns, id) <==> Find(ns, id) != None && Meets(ns, Find(ns, id).value, Wording(BLOCK, "BEGIN"))
  {
    hide StartsWith, Find;
  }

  /** The innermost BEGIN in a chain, or none. */
  lemma {:induction false} FirstBeginIs(ns: Nodes, up: seq<Id>)
    ensures var m := FirstAncestor(ns, up, Wording(BLOCK, "BEGIN"));
      if m == None then forall id | id in up :: !IsBegin(ns, id)
      else exists j: nat | j < |up| ::
        IsBegin(ns, up[j]) && (forall i | 0 <= i < j :: !IsBegin(ns, up[i])) && m.value.id == up[j]
  {
    hide FirstAncestor, IsBegin, Meets;
    forall id ensures IsBegin(ns, id) <==> Find(ns, id) != None && Meets(ns, Find(ns, id).value, Wording(BLOCK, "BEGIN")) {
      BeginMeets(ns, id);
    }
    FirstAncestorAt(ns, up, Wording(BLOCK, "BEGIN"));
  }

  lemma {:induction false} ScopeIs(ns: Nodes, h: Node, scope: Option<Id>)
    ensures HandlerScope(ns, h) == scope <==> IsScope(ns, h, scope)
  {
    hide Ancestry, IsBegin, FirstAncestor;
    var up := Ancestry(ns, h);
    FirstBeginIs(ns, up);
    var m := FirstAncestor(ns, up, Wording(BLOCK, "BEGIN"));
    if m != None {
      var j: nat :| j < |up| && IsBegin(ns, up[j]) && (forall i | 0 <= i < j :: !IsBegin(ns, up[i])) && m.value.id == up[j];
      assert HandlerScope(ns, h) == Some(up[j]);
      forall i: nat | i < |up| && IsBegin(ns, up[i]) && forall x | 0 <= x < i :: !IsBegin(ns, up[x]) ensures i == j {
      }
    }
  }

  lemma {:induction false} CoversIs(h: Node, n: Node, conservative: bool)
    ensures Specificity(h, n, conservative) != None <==> Covers(h, n, conservative)
  {
    hide Contains, StartsWith, Given;
  }

  lemma {:induction false} CatchesIs(ns: Nodes, n: Node, k: nat, conservative: bool)
    requires k < |ns|
    ensures Catches(ns, n, k, conservative) <==>
      ns[k].kind == ERROR_HANDLER && InScope(ns, ns[k], n) && Specificity(ns[k], n, conservative) != None
  {
    hide Ancestry, Specificity, Covers, HandlerScope, IsScope;
    CoversIs(ns[k], n, conservative);
    forall scope ensures HandlerScope(ns, ns[k]) == scope <==> IsScope(ns, ns[k], scope) {
      ScopeIs(ns, ns[k], scope);
    }
  }

  lemma {:induction false} CandidatesAre(ns: Nodes, n: Node, conservative: bool, k: nat, c: Candidate)
    requires k <= |ns|
    ensures c in CandidatesFrom(ns, n, conservative, k) <==>
      exists j: nat | k <= j < |ns| :: IsCandidate(ns, n, conservative, j, c)
    decreases |ns| - k
  {
    hide Ancestry, Specificity, Catches, InScope;
    if k < |ns| {
      CandidatesAre(ns, n, conservative, k + 1, c);
      CatchesIs(ns, n, k, conservative);
      assert IsCandidate(ns, n, conservative, k, c) <==>
        && ns[k].kind == ERROR_HANDLER && InScope(ns, ns[k], n) && Specificity(ns[k], n, conservative) != None
        && c == Candidate(|Ancestry(ns, ns[k])|, Specificity(ns[k], n, conservative).value, ns[k]);
      hide IsCandidate;
    }
  }

  ghost predicate IsCandidate(ns: Nodes, n: Node, conservative: bool, j: nat, c: Candidate)
    requires j < |ns|
  {
    Catches(ns, n, j, conservative) && c.depth == |Ancestry(ns, ns[j])|
    && Some(c.fit) == Specificity(ns[j], n, conservative) && c.handler == ns[j]
  }

  lemma {:induction false} MaxDepthIs(cs: seq<Candidate>)
    ensures forall c | c in cs :: c.depth <= MaxDepth(cs)
    ensures cs != [] ==> exists c | c in cs :: c.depth == MaxDepth(cs)
  {
    if cs != [] {
      MaxDepthIs(cs[1..]);
      assert cs[0] in cs;
    }
  }

  lemma {:induction false} OfDepthIs(cs: seq<Candidate>, d: nat, c: Candidate)
    ensures c in OfDepth(cs, d) <==> c in cs && c.depth == d
  {
    if cs != [] {
      OfDepthIs(cs[1..], d, c);
    }
  }

  lemma {:induction false} InsideHandlerIs(ns: Nodes, n: Node)
    ensures FirstAncestor(ns, Ancestry(ns, n), OfKind(ERROR_HANDLER)) != None <==> InsideHandler(ns, n)
  {
    hide Ancestry, FirstAncestor;
    FirstAncestorAt(ns, Ancestry(ns, n), OfKind(ERROR_HANDLER));
  }

  lemma {:induction false} HandlerCandidatesAre(ns: Nodes, n: Node, conservative: bool, c: Candidate)
    ensures c in HandlerCandidates(ns, n, conservative) <==>
      exists k: nat | CatchesFirst(ns, n, k, conservative) :: IsCandidate(ns, n, conservative, k, c)
  {
    hide Ancestry, Specificity, Catches, CandidatesFrom, OfDepth, MaxDepth, FirstAncestor, InsideHandler, IsCandidate;
    InsideHandlerIs(ns, n);
    var cs := CandidatesFrom(ns, n, conservative, 0);
    forall x ensures x in cs <==> exists j: nat | j < |ns| :: IsCandidate(ns, n, conservative, j, x) {
      CandidatesAre(ns, n, conservative, 0, x);
    }
    MaxDepthIs(cs);
    OfDepthIs(cs, MaxDepth(cs), c);
    DeepestAre(ns, n, conservative, cs, c);
  }

  /** The deepest candidates are those of the deepest handlers. */
  lemma {:induction false} DeepestAre(ns: Nodes, n: Node, conservative: bool, cs: seq<Candidate>, c: Candidate)
    requires forall x :: x in cs <==> exists j: nat | j < |ns| :: IsCandidate(ns, n, conservative, j, x)
    requires forall x | x in cs :: x.depth <= MaxDepth(cs)
    requires cs != [] ==> exists x | x in cs :: x.depth == MaxDepth(cs)
    ensures !InsideHandler(ns, n) ==>
      (c in cs && c.depth == MaxDepth(cs) <==>
        exists k: nat | CatchesFirst(ns, n, k, conservative) :: IsCandidate(ns, n, conservative, k, c))
  {
    hide Ancestry, MaxDepth, InsideHandler;
    forall j: nat | j < |ns| && Catches(ns, n, j, conservative)
      ensures |Ancestry(ns, ns[j])| <= MaxDepth(cs)
    {
      CatchesIs(ns, n, j, conservative);
      var x := Candidate(|Ancestry(ns, ns[j])|, Specificity(ns[j], n, conservative).value, ns[j]);
      assert IsCandidate(ns, n, conservative, j, x);
    }
    hide Catches, Specificity;
    if c in cs && c.depth == MaxDepth(cs) && !InsideHandler(ns, n) {
      var k: nat :| k < |ns| && IsCandidate(ns, n, conservative, k, c);
      assert CatchesFirst(ns, n, k, conservative);
    }
    if k: nat :| CatchesFirst(ns, n, k, conservative) && IsCandidate(ns, n, conservative, k, c) {
      assert c in cs;
      var x :| x in cs && x.depth == MaxDepth(cs);
      var j: nat :| j < |ns| && IsCandidate(ns, n, conservative, j, x);
      assert Catches(ns, n, j, conservative);
    }
  }

  lemma {:induction false} CauseEdgesAre(n: Node, cs: seq<Candidate>, e: Edge)
    ensures e in CauseEdges(n, cs) <==>
      exists c | c in cs :: e == Edge(n.id, c.handler.id, EXCEPTION, Some(Given(c.handler.condition, c.handler.text)))
  {
    hide Given;
    if cs != [] {
      CauseEdgesAre(n, cs[1..], e);
      assert cs == [cs[0]] + cs[1..];
    }
  }

  lemma {:induction false} CausesAre(ns: Nodes, i: nat, e: Edge)
    requires i < |ns|
    ensures e in Causes(ns, i) <==> FailureAt(ns, i, e)
  {
    hide HandlerCandidates, CatchesFirst, Given, Catches, Ancestry, Specificity;
    var cs := HandlerCandidates(ns, ns[i], true);
    CauseEdgesAre(ns[i], cs, e);
    forall k: nat | CatchesFirst(ns, ns[i], k, true) ensures k < |ns| && exists c :: IsCandidate(ns, ns[i], true, k, c) {
      CandidateOf(ns, ns[i], k, true);
    }
    forall c ensures c in cs <==> exists k: nat | CatchesFirst(ns, ns[i], k, true) :: IsCandidate(ns, ns[i], true, k, c) {
      HandlerCandidatesAre(ns, ns[i], true, c);
    }
  }

  lemma {:induction false} CandidateOf(ns: Nodes, n: Node, k: nat, conservative: bool)
    requires CatchesFirst(ns, n, k, conservative)
    ensures k < |ns| && exists c :: IsCandidate(ns, n, conservative, k, c)
  {
    hide Ancestry, Specificity, Catches;
    CatchesIs(ns, n, k, conservative);
    var x := Candidate(|Ancestry(ns, ns[k])|, Specificity(ns[k], n, conservative).value, ns[k]);
    assert IsCandidate(ns, n, conservative, k, x);
  }

  // ----- raises -----

  /** h fits n better than g does: a name before NOT FOUND, before a general condition, before the rest. */
  predicate FitsBetter(h: Node, g: Node, n: Node) {
    || (Names(h, n) && !Names(g, n))
    || (!Names(g, n) && IsMissing(h) && !IsMissing(g))
    || (!Names(g, n) && !IsMissing(g) && IsGeneral(h) && !IsGeneral(g))
  }

  /** The first of the best fitting handlers among the deepest. */
  ghost predicate BestHandler(ns: Nodes, n: Node, k: nat) {
    && CatchesFirst(ns, n, k, false)
    && forall j: nat | CatchesFirst(ns, n, j, false) ::
         !FitsBetter(ns[j], ns[k], n) && (j < k ==> FitsBetter(ns[k], ns[j], n))
  }

  /** A raise goes to the best handler, or to the exit if none catches it. */
  ghost predicate RaiseAt(ns: Nodes, i: nat, exit: Id, e: Edge)
    requires i < |ns|
  {
    && ns[i].kind == ERROR_RAISE && e == Edge(ns[i].id, e.target, EXCEPTION, Some(Given(ns[i].errorCode, "RAISE")))
    && (|| (exists k: nat | BestHandler(ns, ns[i], k) :: e.target == ns[k].id)
        || (e.target == exit && forall k: nat :: !CatchesFirst(ns, ns[i], k, false)))
  }

  /** How well the handler at k fits n. */
  function Fit(ns: Nodes, n: Node, k: nat): nat
    requires k < |ns|
  {
    match Specificity(ns[k], n, false)
    case Some(fit) => fit
    case None => 0
  }

  lemma {:induction false} FitIs(ns: Nodes, n: Node, j: nat, k: nat)
    requires CatchesFirst(ns, n, j, false) && CatchesFirst(ns, n, k, false)
    ensures Fit(ns, n, j) < Fit(ns, n, k) <==> FitsBetter(ns[k], ns[j], n)
  {
    hide Ancestry, Catches, Covers, IsScope, Contains, StartsWith, Given, InsideHandler;
    CatchesIs(ns, n, j, false);
    CatchesIs(ns, n, k, false);
  }

  /** cs are the candidates at the positions ps, in this order. */
  ghost predicate StandAt(ns: Nodes, n: Node, cs: seq<Candidate>, ps: seq<nat>) {
    && |ps| == |cs|
    && (forall i | 0 <= i < |ps| :: ps[i] < |ns| && IsCandidate(ns, n, false, ps[i], cs[i]))
    && forall i, j | 0 <= i < j < |ps| :: ps[i] < ps[j]
  }

  lemma {:induction false} StandMore(ns: Nodes, n: Node, cs: seq<Candidate>, ps: seq<nat>, c: Candidate, p: nat)
    requires StandAt(ns, n, cs, ps) && p < |ns| && IsCandidate(ns, n, false, p, c) && forall q | q in ps :: p < q
    ensures StandAt(ns, n, [c] + cs, [p] + ps)
  {
    hide IsCandidate;
    var more, positions := [c] + cs, [p] + ps;
    forall i | 0 <= i < |positions| ensures positions[i] < |ns| && IsCandidate(ns, n, false, positions[i], more[i]) {
      if i > 0 {
        assert positions[i] == ps[i - 1] && more[i] == cs[i - 1];
      }
    }
    forall i, j | 0 <= i < j < |positions| ensures positions[i] < positions[j] {
      assert positions[j] == ps[j - 1] && ps[j - 1] in ps;
      if i > 0 {
        assert positions[i] == ps[i - 1];
      }
    }
  }

  lemma {:induction false} StandLess(ns: Nodes, n: Node, cs: seq<Candidate>, ps: seq<nat>)
    requires StandAt(ns, n, cs, ps) && cs != []
    ensures StandAt(ns, n, cs[1..], ps[1..]) && ps[0] < |ns| && IsCandidate(ns, n, false, ps[0], cs[0])
    ensures forall q | q in ps[1..] :: ps[0] < q
  {
    hide IsCandidate;
    assert forall i | 0 < i < |ps| :: ps[1..][i - 1] == ps[i];
  }

  lemma {:induction false} CandidatesStand(ns: Nodes, n: Node, k: nat) returns (ps: seq<nat>)
    requires k <= |ns|
    ensures StandAt(ns, n, CandidatesFrom(ns, n, false, k), ps)
    ensures forall p | p in ps :: k <= p
    ensures forall j | k <= j < |ns| && Catches(ns, n, j, false) :: j in ps
    decreases |ns| - k
  {
    hide Ancestry, Specificity, Catches, InScope;
    if k == |ns| {
      ps := [];
    } else {
      ps := CandidatesStand(ns, n, k + 1);
      CatchesIs(ns, n, k, false);
      if Catches(ns, n, k, false) {
        var c := Candidate(|Ancestry(ns, ns[k])|, Specificity(ns[k], n, false).value, ns[k]);
        StandMore(ns, n, CandidatesFrom(ns, n, false, k + 1), ps, c, k);
        ps := [k] + ps;
      }
    }
  }

  lemma {:induction false} DeepStand(ns: Nodes, n: Node, cs: seq<Candidate>, ps: seq<nat>,
                                     d: nat) returns (qs: seq<nat>)
    requires StandAt(ns, n, cs, ps)
    ensures StandAt(ns, n, OfDepth(cs, d), qs) && forall q | q in qs :: q in ps
    ensures |ps| == |cs| && forall i | 0 <= i < |cs| && cs[i].depth == d :: ps[i] in qs
  {
    assert |ps| == |cs|;
    if cs == [] {
      qs := [];
    } else {
      StandLess(ns, n, cs, ps);
      hide StandAt, IsCandidate;
      qs := DeepStand(ns, n, cs[1..], ps[1..], d);
      assert forall i | 0 < i < |cs| :: cs[i] == cs[1..][i - 1] && ps[i] == ps[1..][i - 1];
      if cs[0].depth == d {
        StandMore(ns, n, OfDepth(cs[1..], d), qs, cs[0], ps[0]);
        assert OfDepth(cs, d) == [cs[0]] + OfDepth(cs[1..], d);
        qs := [ps[0]] + qs;
      } else {
        assert OfDepth(cs, d) == OfDepth(cs[1..], d);
      }
    }
  }

  lemma {:induction false} BestIs(cs: seq<Candidate>) returns (i: nat)
    requires cs != []
    ensures i < |cs| && Best(cs) == cs[i]
    ensures forall j | 0 <= j < |cs| :: cs[j].fit <= cs[i].fit && (j < i ==> cs[j].fit < cs[i].fit)
  {
    if |cs| == 1 {
      i := 0;
    } else {
      i := BestIs(cs[1..]);
      i := if cs[0].fit >= cs[1..][i].fit then 0 else i + 1;
      assert forall j | 0 < j < |cs| :: cs[j] == cs[1..][j - 1];
    }
  }

  lemma {:induction false} BestHandlerIs(ns: Nodes, n: Node)
    ensures var cs := HandlerCandidates(ns, n, false);
      && (cs == [] <==> forall k: nat :: !CatchesFirst(ns, n, k, false))
      && (cs != [] ==> exists k: nat :: BestHandler(ns, n, k) && ns[k] == Best(cs).handler)
  {
    hide Ancestry, Specificity, Catches, CandidatesFrom, OfDepth, MaxDepth, FirstAncestor, InsideHandler;
    var cs := HandlerCandidates(ns, n, false);
    var all := CandidatesFrom(ns, n, false, 0);
    forall c ensures c in cs <==> exists k: nat | CatchesFirst(ns, n, k, false) :: k < |ns| && IsCandidate(ns, n, false, k, c) {
      HandlerCandidatesAre(ns, n, false, c);
    }
    hide HandlerCandidates, IsCandidate;
    forall k: nat | CatchesFirst(ns, n, k, false) ensures k < |ns| && cs != [] {
      CandidateOf(ns, n, k, false);
      var c :| IsCandidate(ns, n, false, k, c);
      assert c in cs;
    }
    if cs != [] {
      assert cs[0] in cs;
      InsideHandlerIs(ns, n);
      var ps := CandidatesStand(ns, n, 0);
      var qs := DeepStand(ns, n, all, ps, MaxDepth(all));
      var i := BestIs(cs);
      BestStands(ns, n, cs, qs, i, all, ps);
    }
  }

  lemma {:induction false} BestStands(ns: Nodes, n: Node, cs: seq<Candidate>, qs: seq<nat>, i: nat,
                                      all: seq<Candidate>, ps: seq<nat>)
    requires StandAt(ns, n, all, ps) && StandAt(ns, n, cs, qs) && i < |cs|
    requires all == CandidatesFrom(ns, n, false, 0) && cs == HandlerCandidates(ns, n, false) && cs != []
    requires forall j | 0 <= j < |ns| && Catches(ns, n, j, false) :: j in ps
    requires forall x | 0 <= x < |all| && all[x].depth == MaxDepth(all) :: ps[x] in qs
    requires forall j | 0 <= j < |cs| :: cs[j].fit <= cs[i].fit && (j < i ==> cs[j].fit < cs[i].fit)
    ensures BestHandler(ns, n, qs[i]) && ns[qs[i]] == cs[i].handler
  {
    hide Ancestry, Specificity, Catches, CandidatesFrom, OfDepth, MaxDepth, FirstAncestor, InsideHandler;
    HandlerCandidatesAre(ns, n, false, cs[i]);
    assert cs[i] in cs;
    var k0: nat :| CatchesFirst(ns, n, k0, false) && IsCandidate(ns, n, false, k0, cs[i]);
    assert CatchesFirst(ns, n, qs[i], false);
    forall j: nat | CatchesFirst(ns, n, j, false)
      ensures j < |ns| && !FitsBetter(ns[j], ns[qs[i]], n) && (j < qs[i] ==> FitsBetter(ns[qs[i]], ns[j], n))
    {
      FitStands(ns, n, cs, qs, i, all, ps, j);
      hide IsCandidate, Fit, FitsBetter, CatchesFirst;
      FitIs(ns, n, j, qs[i]);
      FitIs(ns, n, qs[i], j);
    }
  }

  lemma {:induction false} FitStands(ns: Nodes, n: Node, cs: seq<Candidate>, qs: seq<nat>, i: nat,
                                     all: seq<Candidate>, ps: seq<nat>, j: nat)
    requires StandAt(ns, n, all, ps) && StandAt(ns, n, cs, qs) && i < |cs|
    requires all == CandidatesFrom(ns, n, false, 0) && cs == HandlerCandidates(ns, n, false) && cs != []
    requires CatchesFirst(ns, n, j, false) && j in ps
    requires forall x | 0 <= x < |all| && all[x].depth == MaxDepth(all) :: ps[x] in qs
    requires forall y | 0 <= y < |cs| :: cs[y].fit <= cs[i].fit && (y < i ==> cs[y].fit < cs[i].fit)
    ensures j < |ns| && qs[i] < |ns|
    ensures Fit(ns, n, j) <= Fit(ns, n, qs[i]) && (j < qs[i] ==> Fit(ns, n, j) < Fit(ns, n, qs[i]))
  {
    hide Ancestry, Specificity, Catches, CandidatesFrom, OfDepth, MaxDepth, FirstAncestor, InsideHandler;
    var x :| 0 <= x < |ps| && ps[x] == j;
    assert IsCandidate(ns, n, false, j, all[x]);
    SameDepth(ns, n, j, all[x], cs, all);
    var y :| 0 <= y < |qs| && qs[y] == j;
    assert IsCandidate(ns, n, false, qs[y], cs[y]) && IsCandidate(ns, n, false, qs[i], cs[i]);
  }

  lemma {:induction false} SameDepth(ns: Nodes, n: Node, j: nat, x: Candidate, cs: seq<Candidate>, all: seq<Candidate>)
    requires CatchesFirst(ns, n, j, false) && IsCandidate(ns, n, false, j, x)
    requires all == CandidatesFrom(ns, n, false, 0) && cs == HandlerCandidates(ns, n, false)
    ensures x.depth == MaxDepth(all)
  {
    hide Ancestry, Specificity, Catches, CandidatesFrom, OfDepth, MaxDepth, FirstAncestor, InsideHandler;
    HandlerCandidatesAre(ns, n, false, x);
    InsideHandlerIs(ns, n);
    OfDepthIs(all, MaxDepth(all), x);
  }

  lemma {:induction false} RaisesAre(ns: Nodes, i: nat, exit: Id, e: Edge)
    requires i < |ns| && ns[i].kind == ERROR_RAISE
    ensures e in Transfers(ns, i, exit) <==> RaiseAt(ns, i, exit, e)
  {
    hide HandlerCandidates, CatchesFirst, Given, Best, Fit;
    BestHandlerIs(ns, ns[i]);
    forall k: nat, j: nat | BestHandler(ns, ns[i], k) && BestHandler(ns, ns[i], j) ensures k == j {
      assert CatchesFirst(ns, ns[i], k, false) && CatchesFirst(ns, ns[i], j, false);
    }
  }

  // ----- jumps -----

  /** The last label of the given name. */
  ghost predicate LabelAt(ns: Nodes, name: string, k: nat) {
    && k < |ns| && ns[k].kind == LABEL && ns[k].name == Some(name)
    && forall j | k < j < |ns| :: !(ns[j].kind == LABEL && ns[j].name == Some(name))
  }

  lemma {:induction false} LabelIs(ns: Nodes, name: string)
    ensures var at := LabelNode(ns, name);
      && (at != None ==> LabelAt(ns, name, at.value))
      && forall k: nat | LabelAt(ns, name, k) :: at == Some(k)
  {
    hide LastIn;
    var at := LabelNode(ns, name);
    if at != None {
      LastInIff(ns, 0, |ns|, LabelNamed(name), at.value);
    }
    forall k: nat | LabelAt(ns, name, k) ensures at == Some(k) {
      LastInIff(ns, 0, |ns|, LabelNamed(name), k);
    }
  }

  predicate IsNamed(n: Node) {
    n.name != None && n.name.value != ""
  }

  ghost predicate ReturnAt(ns: Nodes, i: nat, exit: Id, e: Edge)
    requires i < |ns|
  {
    ns[i].kind == RETURN && e == Edge(ns[i].id, exit, BRANCH, Some("RETURN"))
  }

  /** GOTO: to the last label of the name. */
  ghost predicate GotoAt(ns: Nodes, i: nat, e: Edge)
    requires i < |ns|
  {
    && ns[i].kind == GOTO && IsNamed(ns[i])
    && exists k: nat | LabelAt(ns, ns[i].name.value, k) ::
         e == Edge(ns[i].id, ns[k].id, BRANCH, Some("GOTO " + ns[i].name.value))
  }

  lemma {:induction false} GotosAre(ns: Nodes, i: nat, exit: Id, e: Edge)
    requires i < |ns| && ns[i].kind == GOTO
    ensures e in Transfers(ns, i, exit) <==> GotoAt(ns, i, e)
  {
    hide LabelNode, LabelAt;
    if IsNamed(ns[i]) {
      LabelIs(ns, ns[i].name.value);
    }
  }

  /** The first loop behind the label at position at that stands under it. */
  ghost predicate FirstLoopUnder(ns: Nodes, at: nat, k: nat) {
    && at < k < |ns| && IsLoopUnder(ns, at, k)
    && forall j | at < j < k :: !IsLoopUnder(ns, at, j)
  }

  predicate IsLoopUnder(ns: Nodes, at: nat, k: nat)
    requires at < |ns| && k < |ns|
  {
    ns[k].kind == LOOP && (ns[k].parent == Some(ns[at].id) || ns[at].id in Ancestry(ns, ns[k]))
  }

  lemma {:induction false} LoopMeets(ns: Nodes, at: nat, k: nat)
    requires at < |ns| && k < |ns|
    ensures Meets(ns, ns[k], LoopUnder(ns[at].id)) <==> IsLoopUnder(ns, at, k)
  {
    hide Ancestry;
  }

  lemma {:induction false} LoopUnderIs(ns: Nodes, at: nat)
    requires at < |ns|
    ensures var r := LabelledLoop(ns, at);
      && (r != None ==> FirstLoopUnder(ns, at, r.value))
      && forall k: nat | FirstLoopUnder(ns, at, k) :: r == Some(k)
  {
    hide FirstIn, Meets, IsLoopUnder;
    var r := LabelledLoop(ns, at);
    forall k: nat | k < |ns| ensures Meets(ns, ns[k], LoopUnder(ns[at].id)) <==> IsLoopUnder(ns, at, k) {
      LoopMeets(ns, at, k);
    }
    if r != None {
      FirstInIff(ns, at + 1, |ns|, LoopUnder(ns[at].id), r.value);
    }
    forall k: nat | FirstLoopUnder(ns, at, k) ensures r == Some(k) {
      FirstInIff(ns, at + 1, |ns|, LoopUnder(ns[at].id), k);
    }
  }

  /** ITERATE with a label: back to the loop that it labels. */
  ghost predicate IteratesTo(ns: Nodes, n: Node, k: nat) {
    && n.control == "ITERATE" && IsNamed(n)
    && exists at: nat | LabelAt(ns, n.name.value, at) :: FirstLoopUnder(ns, at, k)
  }

  /** The END that carries the label of n, behind that label. */
  ghost predicate EndsLabelled(ns: Nodes, n: Node, k: nat) {
    && IsNamed(n)
    && exists at: nat | LabelAt(ns, n.name.value, at) :: FirstWorded(ns, at + 1, k, BLOCK, "END " + n.name.value)
  }

  predicate IsLoop(ns: Nodes, id: Id) {
    Find(ns, id) != None && Find(ns, id).value.kind == LOOP
  }

  /** The innermost loop around n, at its last position. */
  ghost predicate LoopAround(ns: Nodes, n: Node, k: nat) {
    var up := Ancestry(ns, n);
    && k < |ns| && ns[k].kind == LOOP && (forall j | k < j < |ns| :: ns[j].id != ns[k].id)
    && exists j: nat | j < |up| :: up[j] == ns[k].id && forall i | 0 <= i < j :: !IsLoop(ns, up[i])
  }

  /** LEAVE, EXIT, CONTINUE and ITERATE: to the labelled loop, behind the labelled END, or else to the
      header of the loop around or behind its END. */
  ghost predicate LoopControlAt(ns: Nodes, i: nat, exit: Id, e: Edge)
    requires i < |ns|
  {
    var n := ns[i];
    && n.kind == LOOP_CONTROL
    && (|| (exists k: nat | IteratesTo(ns, n, k) :: e == Edge(n.id, ns[k].id, LOOP_BACK, Some("ITERATE " + n.name.value)))
        || ((forall k: nat :: !IteratesTo(ns, n, k)) && LeavesLabelled(ns, n, exit, e))
        || ((forall k: nat :: !IteratesTo(ns, n, k) && !EndsLabelled(ns, n, k)) && LeavesLoop(ns, n, exit, e)))
  }

  ghost predicate LeavesLabelled(ns: Nodes, n: Node, exit: Id, e: Edge) {
    exists k: nat | EndsLabelled(ns, n, k) ::
      Behind(ns, k, exit, e.target) && e == Edge(n.id, e.target, BRANCH, Some(n.control + " " + n.name.value))
  }

  ghost predicate LeavesLoop(ns: Nodes, n: Node, exit: Id, e: Edge) {
    exists k: nat | LoopAround(ns, n, k) ::
      if n.control == "CONTINUE" || n.control == "ITERATE" then e == Edge(n.id, ns[k].id, LOOP_BACK, Some(n.control))
      else
        && BehindLoop(ns, k, exit, e.target)
        && e == Edge(n.id, e.target, BRANCH, Some(if n.control == "" then "LOOP_EXIT" else n.control))
  }

  lemma {:induction false} PositionIs(ns: Nodes, id: Id)
    ensures var r := PositionOf(ns, id);
      r != None ==> forall j | r.value < j < |ns| :: ns[j].id != id
    ensures forall k: nat | k < |ns| && ns[k].id == id && (forall j | k < j < |ns| :: ns[j].id != id) :: PositionOf(ns, id) == Some(k)
    decreases ns
  {
    if ns != [] {
      PositionIs(ns[..|ns| - 1], id);
    }
  }

  ghost predicate LoopStands(ns: Nodes, n: Node, loop: Node) {
    var at := PositionOf(ns, loop.id);
    at != None && ns[at.value] == loop && LoopAround(ns, n, at.value)
  }

  lemma {:induction false} LoopAroundIs(ns: Nodes, n: Node)
    ensures var r := EnclosingLoop(ns, n);
      && (r != None ==> LoopStands(ns, n, r.value))
      && forall k: nat | LoopAround(ns, n, k) :: r == Some(ns[k]) && PositionOf(ns, ns[k].id) == Some(k)
  {
    hide Ancestry, FirstAncestor, PositionOf;
    var up := Ancestry(ns, n);
    var r := EnclosingLoop(ns, n);
    FirstAncestorAt(ns, up, OfKind(LOOP));
    if r != None {
      PositionIs(ns, r.value.id);
    }
    forall k: nat | LoopAround(ns, n, k) ensures r == Some(ns[k]) && PositionOf(ns, ns[k].id) == Some(k) {
      PositionIs(ns, ns[k].id);
      assert Find(ns, ns[k].id) == Some(ns[k]);
      var j: nat :| j < |up| && up[j] == ns[k].id && forall i | 0 <= i < j :: !IsLoop(ns, up[i]);
      assert up[j] in up && IsLoop(ns, up[j]);
      var x: nat :| x < |up| && Find(ns, up[x]) == r && r.value.kind == LOOP && forall i | 0 <= i < x :: !IsLoop(ns, up[i]);
      assert IsLoop(ns, up[x]);
      assert x == j;
    }
  }

  lemma {:induction false} IteratesIs(ns: Nodes, n: Node)
    ensures var at := if IsNamed(n) then LabelNode(ns, n.name.value) else None;
      var back := if at != None && n.control == "ITERATE" then LabelledLoop(ns, at.value) else None;
      (back != None ==> IteratesTo(ns, n, back.value)) && forall k: nat | IteratesTo(ns, n, k) :: back == Some(k)
  {
    hide LabelNode, LabelAt, LabelledLoop, FirstLoopUnder;
    if IsNamed(n) {
      LabelIs(ns, n.name.value);
      var at := LabelNode(ns, n.name.value);
      if at != None {
        LoopUnderIs(ns, at.value);
      }
    }
  }

  lemma {:induction false} LabelledEndIs(ns: Nodes, n: Node)
    ensures var at := if IsNamed(n) then LabelNode(ns, n.name.value) else None;
      var end := if at != None then FirstIn(ns, at.value + 1, |ns|, Wording(BLOCK, "END " + n.name.value)) else None;
      (end != None ==> EndsLabelled(ns, n, end.value)) && forall k: nat | EndsLabelled(ns, n, k) :: end == Some(k)
  {
    hide LabelNode, LabelAt, FirstIn, FirstWorded;
    if IsNamed(n) {
      LabelIs(ns, n.name.value);
      var at := LabelNode(ns, n.name.value);
      if at != None {
        OnlyWorded(ns, at.value + 1, BLOCK, "END " + n.name.value);
      }
    }
  }

  lemma {:induction false} LeavesLoopIs(ns: Nodes, n: Node, exit: Id, e: Edge)
    ensures LeavesLoop(ns, n, exit, e) <==>
      var loop := EnclosingLoop(ns, n);
      loop != None &&
        if n.control == "CONTINUE" || n.control == "ITERATE" then e == Edge(n.id, loop.value.id, LOOP_BACK, Some(n.control))
        else
          var i := PositionOf(ns, loop.value.id);
          e == Edge(n.id, if i == None then exit else LoopExitTarget(ns, i.value, exit), BRANCH,
                    Some(if n.control == "" then "LOOP_EXIT" else n.control))
  {
    hide EnclosingLoop, LoopAround, PositionOf, LoopExitTarget, BehindLoop;
    LoopAroundIs(ns, n);
    forall k: nat | k < |ns| ensures LoopExitTarget(ns, k, exit) == e.target <==> BehindLoop(ns, k, exit, e.target) {
      LoopTargetIs(ns, k, exit, e.target);
    }
  }

  lemma {:induction false} LoopControlsAre(ns: Nodes, i: nat, exit: Id, e: Edge)
    requires i < |ns| && ns[i].kind == LOOP_CONTROL
    ensures e in Transfers(ns, i, exit) <==> LoopControlAt(ns, i, exit, e)
  {
    hide LabelNode, LabelledLoop, FirstIn, EnclosingLoop, IteratesTo, EndsLabelled, LeavesLoop, PositionOf, LoopExitTarget;
    var n := ns[i];
    IteratesIs(ns, n);
    LabelledEndIs(ns, n);
    LeavesLoopIs(ns, n, exit, e);
  }

  // ----- calls -----

  predicate CallsRoutine(n: Node, name: string) {
    n.kind == CALL && n.callTarget == Some(name) && name != ""
  }

  /** The routines called in front of position k. */
  ghost function CalledBefore(ns: Nodes, k: nat): set<string>
    requires k <= |ns|
  {
    set j | 0 <= j < k && ns[j].callTarget != None && CallsRoutine(ns[j], ns[j].callTarget.value) :: ns[j].callTarget.value
  }

  ghost predicate FirstCall(ns: Nodes, k: nat, name: string) {
    k < |ns| && CallsRoutine(ns[k], name) && name !in CalledBefore(ns, k)
  }

  /** CALLS: from each call to its routine, numbered by how many others are called before its first call. */
  ghost predicate CallAt(ns: Nodes, i: nat, e: Edge)
    requires i < |ns|
  {
    exists name: string, k: nat | FirstCall(ns, k, name) ::
      CallsRoutine(ns[i], name) && e == Edge(ns[i].id, TargetId(|CalledBefore(ns, k)|), CALLS, Some(name))
  }

  lemma {:induction false} BeforeTake(ns: Nodes, m: nat, k: nat)
    requires k <= m <= |ns|
    ensures CalledBefore(ns[..m], k) == CalledBefore(ns, k)
  {
    assert forall j | 0 <= j < k :: ns[..m][j] == ns[j];
  }

  lemma {:induction false} BeforeNext(ns: Nodes, k: nat)
    requires k < |ns|
    ensures forall name :: name in CalledBefore(ns, k + 1) <==> name in CalledBefore(ns, k) || CallsRoutine(ns[k], name)
  {
    var was, now := CalledBefore(ns, k), CalledBefore(ns, k + 1);
    forall name ensures name in now <==> name in was || CallsRoutine(ns[k], name) {
      if CallsRoutine(ns[k], name) {
        assert ns[k].callTarget.value == name;
      }
    }
  }

  /** What the call at the end adds. */
  function LastCallee(ns: Nodes): set<string>
    requires ns != []
  {
    var n := ns[|ns| - 1];
    if n.kind == CALL && n.callTarget != None && n.callTarget.value != "" then {n.callTarget.value} else {}
  }

  lemma {:induction false} BeforeLast(ns: Nodes)
    requires ns != []
    ensures CalledBefore(ns, |ns|) == CalledBefore(ns[..|ns| - 1], |ns| - 1) + LastCallee(ns)
  {
    var k: nat := |ns| - 1;
    BeforeTake(ns, k, k);
    BeforeNext(ns, k);
    hide CalledBefore;
    forall name ensures CallsRoutine(ns[k], name) <==> name in LastCallee(ns) {
    }
  }

  lemma {:induction false} OneMore(s: set<string>, x: string)
    ensures |s + {x}| == if x in s then |s| else |s| + 1
  {
    if x in s {
      assert s + {x} == s;
    }
  }

  lemma {:induction false} CalleesAre(ns: Nodes)
    ensures forall name :: name in Callees(ns) <==> name in CalledBefore(ns, |ns|)
    ensures |Callees(ns)| == |CalledBefore(ns, |ns|)|
  {
    hide CalledBefore;
    if ns == [] {
      NoneBefore();
    } else {
      var n, before := ns[|ns| - 1], ns[..|ns| - 1];
      CalleesAre(before);
      BeforeLast(ns);
      if LastCallee(ns) != {} {
        OneMore(CalledBefore(before, |before|), n.callTarget.value);
      } else {
        assert CalledBefore(ns, |ns|) == CalledBefore(before, |before|);
      }
    }
  }

  lemma {:induction false} NoneBefore()
    ensures CalledBefore([], 0) == {}
  {
  }

  lemma {:induction false} IndexOfLast(names: seq<string>, more: seq<string>, name: string)
    ensures name in names ==> IndexIn(names + more, name) == IndexIn(names, name)
    ensures name !in names && more != [] && more[0] == name ==> IndexIn(names + more, name) == |names|
  {
    if names == [] {
      assert names + more == more;
    } else {
      IndexOfLast(names[1..], more, name);
      assert (names + more)[1..] == names[1..] + more;
      assert names == [names[0]] + names[1..];
    }
  }

  lemma {:induction false} CalleeNumber(ns: Nodes, k: nat, name: string)
    requires FirstCall(ns, k, name)
    ensures IndexIn(Callees(ns), name) == |CalledBefore(ns, k)|
    decreases |ns|
  {
    var m: nat := |ns| - 1;
    CalleesAre(ns[..m]);
    BeforeTake(ns, m, m);
    BeforeTake(ns, m, k);
    if k < m {
      assert ns[..m][k] == ns[k];
      CalleeNumber(ns[..m], k, name);
      assert name in CalledBefore(ns, m) by {
        assert ns[k].callTarget.value == name;
      }
      hide CalledBefore;
      if Callees(ns) != Callees(ns[..m]) {
        IndexOfLast(Callees(ns[..m]), [ns[m].callTarget.value], name);
      }
    } else {
      hide CalledBefore;
      IndexOfLast(Callees(ns[..m]), [name], name);
    }
  }

  lemma {:induction false} CallEdgesAre(ns: Nodes, callees: seq<string>, e: Edge)
    ensures e in CallEdges(ns, callees) <==>
      exists i: nat | i < |ns| :: HasCallEdge(ns[i], callees, e)
  {
    if ns != [] {
      CallEdgesAre(ns[1..], callees, e);
      assert forall i | 0 < i < |ns| :: ns[i] == ns[1..][i - 1];
      assert HasCallEdge(ns[0], callees, e) ==> e in CallEdges(ns, callees);
      hide HasCallEdge;
      if i: nat :| i < |ns| && HasCallEdge(ns[i], callees, e) {
        if i > 0 {
          assert HasCallEdge(ns[1..][i - 1], callees, e);
        }
      }
    }
  }

  predicate HasCallEdge(n: Node, callees: seq<string>, e: Edge) {
    && n.callTarget != None && CallsRoutine(n, n.callTarget.value)
    && e == Edge(n.id, TargetId(IndexIn(callees, n.callTarget.value)), CALLS, n.callTarget)
  }

  lemma {:induction false} HasFirstCall(ns: Nodes, i: nat, name: string) returns (k: nat)
    requires i < |ns| && CallsRoutine(ns[i], name)
    ensures FirstCall(ns, k, name)
    decreases i
  {
    k := i;
    if name in CalledBefore(ns, i) {
      var j :| 0 <= j < i && ns[j].callTarget != None && CallsRoutine(ns[j], ns[j].callTarget.value) && ns[j].callTarget.value == name;
      k := HasFirstCall(ns, j, name);
    }
  }

  lemma {:induction false} CallsAre(ns: Nodes, e: Edge)
    ensures e in CallEdges(ns, Callees(ns)) <==> exists i: nat | i < |ns| :: CallAt(ns, i, e)
  {
    hide CallEdges, Callees, CalledBefore, TargetId, FirstCall;
    CallEdgesAre(ns, Callees(ns), e);
    forall i: nat | i < |ns| ensures HasCallEdge(ns[i], Callees(ns), e) <==> CallAt(ns, i, e) {
      forall name: string, k: nat | FirstCall(ns, k, name)
        ensures k < |ns| && IndexIn(Callees(ns), name) == |CalledBefore(ns, k)|
      {
        CalleeNumber(ns, k, name);
        FirstCallStands(ns, k, name);
      }
      if HasCallEdge(ns[i], Callees(ns), e) {
        var k := HasFirstCall(ns, i, ns[i].callTarget.value);
      }
    }
  }

  lemma {:induction false} FirstCallStands(ns: Nodes, k: nat, name: string)
    requires FirstCall(ns, k, name)
    ensures k < |ns|
  {
  }

  // ----- external routines -----

  /** The nodes that are refined are all but the external routines, in their order. */
  lemma {:induction false} SourceNodesJoin(a: Nodes, b: Nodes)
    ensures SourceNodes(a + b) == SourceNodes(a) + SourceNodes(b)
    ensures forall n :: SourceNodes([n]) == if n.kind == CALL_TARGET then [] else [n]
  {
    forall n: Node ensures SourceNodes([n]) == if n.kind == CALL_TARGET then [] else [n] {
      assert [n][1..] == [] && SourceNodes([]) == [];
    }
    if a == [] {
      assert a + b == b;
    } else {
      assert (a + b)[0] == a[0] && (a + b)[1..] == a[1..] + b;
      SourceNodesJoin(a[1..], b);
    }
  }

  /** What a string of digits says. */
  function Value(digits: string): int {
    if digits == [] then 0 else Value(digits[..|digits| - 1]) * 10 + (digits[|digits| - 1] as int - '0' as int)
  }

  lemma {:induction false} DecimalIs(n: nat)
    ensures Value(Decimal(n)) == n && Decimal(n) != []
  {
    var d := Decimal(n);
    var digit := ('0' as int + n % 10) as char;
    if n < 10 {
      assert d == [digit] && d[..0] == [];
    } else {
      DecimalIs(n / 10);
      assert d == Decimal(n / 10) + [digit];
      assert d[..|d| - 1] == Decimal(n / 10);
    }
  }

  lemma {:induction false} ZerosAdd(k: nat, d: string)
    ensures Value(seq(k, i => '0') + d) == Value(d)
    decreases |d|, k
  {
    var zeros := seq(k, i => '0');
    var s := zeros + d;
    if d == [] {
      if k > 0 {
        assert s == zeros && s[..k - 1] == seq(k - 1, i => '0') + [];
        ZerosAdd(k - 1, []);
      } else {
        assert s == [];
      }
    } else {
      assert s[..|s| - 1] == zeros + d[..|d| - 1] && s[|s| - 1] == d[|d| - 1];
      ZerosAdd(k, d[..|d| - 1]);
    }
  }

  /** External routines are told apart by their ids, which carry their numbers in at least four digits. */
  lemma {:induction false} TargetIdIs(k: nat)
    ensures var id := TargetId(k);
      "call-target-" <= id && |id| >= 16 && Value(id[12..]) == k + 1
    ensures forall j: nat :: TargetId(j) == TargetId(k) ==> j == k
  {
    TargetValue(k);
    forall j: nat | TargetId(j) == TargetId(k) ensures j == k {
      TargetValue(j);
    }
  }

  lemma {:induction false} TargetValue(k: nat)
    ensures var id := TargetId(k);
      "call-target-" <= id && |id| >= 16 && Value(id[12..]) == k + 1
  {
    var id, d, head := TargetId(k), Decimal(k + 1), "call-target-";
    assert |head| == 12;
    DecimalIs(k + 1);
    if |d| < 4 {
      ZerosAdd(4 - |d|, d);
      assert id[12..] == seq(4 - |d|, i => '0') + d;
    } else {
      assert id[12..] == d;
    }
  }

  // ----- data dependencies -----

  /** Statement w is the last in front of position r that writes the variable. */
  ghost predicate LastWriter(ns: Nodes, w: nat, r: nat, name: string) {
    && w < r <= |ns| && name in ns[w].writeVars
    && forall j | w < j < r :: name !in ns[j].writeVars
  }

  /** DATA_DEPENDENCY: from the last writer in front of a reader, other than the reader, to it. */
  ghost predicate DependencyAt(ns: Nodes, r: nat, e: Edge)
    requires r < |ns|
  {
    exists w: nat, name: string | LastWriter(ns, w, r, name) ::
      name in ns[r].readVars && ns[w].id != ns[r].id && e == Edge(ns[w].id, ns[r].id, DATA_DEPENDENCY, Some(name))
  }

  ghost predicate Records(ns: Nodes, k: nat, writers: map<string, Id>) {
    && (forall w: nat, name: string | LastWriter(ns, w, k, name) :: name in writers && writers[name] == ns[w].id)
    && forall name | name in writers :: HasWriter(ns, k, name)
  }

  ghost predicate HasWriter(ns: Nodes, k: nat, name: string) {
    exists w: nat :: LastWriter(ns, w, k, name)
  }

  lemma {:induction false} WrittenIs(writers: map<string, Id>, vars: seq<string>, id: Id, name: string)
    ensures var now := Written(writers, vars, id);
      && (name in now <==> name in writers || name in vars)
      && (name in now ==> now[name] == if name in vars then id else writers[name])
    decreases vars
  {
    if vars != [] {
      WrittenIs(writers[vars[0] := id], vars[1..], id, name);
      assert name in vars <==> name == vars[0] || name in vars[1..];
    }
  }

  lemma {:induction false} ReadEdgesAre(vars: seq<string>, writers: map<string, Id>, id: Id, e: Edge)
    ensures e in ReadEdges(vars, writers, id) <==>
      exists name | name in vars :: name in writers && writers[name] != id && e == Edge(writers[name], id, DATA_DEPENDENCY, Some(name))
  {
    if vars != [] {
      ReadEdgesAre(vars[1..], writers, id, e);
      assert vars == [vars[0]] + vars[1..];
    }
  }

  lemma {:induction false} WriterNext(ns: Nodes, w: nat, k: nat, name: string)
    requires k < |ns|
    ensures LastWriter(ns, w, k + 1, name) <==>
      if name in ns[k].writeVars then w == k else LastWriter(ns, w, k, name)
  {
  }

  lemma {:induction false} RecordsNext(ns: Nodes, k: nat, next: nat, writers: map<string, Id>)
    requires k < |ns| && next == k + 1 && Records(ns, k, writers)
    ensures Records(ns, next, Written(writers, ns[k].writeVars, ns[k].id))
  {
    hide LastWriter, Written;
    var now := Written(writers, ns[k].writeVars, ns[k].id);
    forall w: nat, name: string | LastWriter(ns, w, next, name)
      ensures w < |ns| && name in now && now[name] == ns[w].id
    {
      WriterNext(ns, w, k, name);
      WriterStands(ns, w, next, name);
      WrittenIs(writers, ns[k].writeVars, ns[k].id, name);
    }
    forall name | name in now ensures HasWriter(ns, next, name) {
      WrittenIs(writers, ns[k].writeVars, ns[k].id, name);
      var w: nat := if name in ns[k].writeVars then k else var w: nat :| LastWriter(ns, w, k, name); w;
      WriterNext(ns, w, k, name);
    }
  }

  lemma {:induction false} WriterStands(ns: Nodes, w: nat, k: nat, name: string)
    ensures LastWriter(ns, w, k, name) ==> w < |ns|
  {
  }

  lemma {:induction false} DependencyIs(ns: Nodes, k: nat, writers: map<string, Id>, e: Edge)
    requires k < |ns| && Records(ns, k, writers)
    ensures e in ReadEdges(ns[k].readVars, writers, ns[k].id) <==> DependencyAt(ns, k, e)
  {
    hide LastWriter;
    ReadEdgesAre(ns[k].readVars, writers, ns[k].id, e);
    forall w: nat, name: string ensures LastWriter(ns, w, k, name) ==> w < |ns| {
      WriterStands(ns, w, k, name);
    }
  }

  lemma {:induction false} DataEdgesFrom(ns: Nodes, k: nat, writers: map<string, Id>, e: Edge)
    requires k <= |ns| && Records(ns, k, writers)
    ensures e in DataEdges(ns[k..], writers) <==> exists r: nat | k <= r < |ns| :: DependencyAt(ns, r, e)
    decreases |ns| - k
  {
    hide Records, DependencyAt, ReadEdges, Written;
    if k < |ns| {
      assert ns[k..][0] == ns[k] && ns[k..][1..] == ns[k + 1..];
      DependencyIs(ns, k, writers, e);
      RecordsNext(ns, k, k + 1, writers);
      DataEdgesFrom(ns, k + 1, Written(writers, ns[k].writeVars, ns[k].id), e);
    }
  }

  lemma {:induction false} DependenciesAre(ns: Nodes, e: Edge)
    ensures e in DataEdges(ns, map[]) <==> exists r: nat | r < |ns| :: DependencyAt(ns, r, e)
  {
    hide DependencyAt;
    assert ns[0..] == ns;
    DataEdgesFrom(ns, 0, map[], e);
  }

  // ----- the refined edges -----

  /** The node of the given id is the one at k. */
  ghost predicate IsAt(ns: Nodes, id: Id, k: nat) {
    k < |ns| && ns[k].id == id && forall j | k < j < |ns| :: ns[j].id != id
  }

  predicate OpensSection(n: Node) {
    n.kind == ERROR_HANDLER
    && (StartsWith(n.text, "BEGIN CATCH") || StartsWith(n.text, "EXCEPTION") || StartsWith(n.text, "WHEN "))
  }

  /** An edge in source order is kept unless it leaves a transfer or leads on into a handler section. */
  ghost predicate KeptAt(ns: Nodes, e: Edge) {
    && (exists k: nat | IsAt(ns, e.source, k) :: !IsTransfer(ns[k]))
    && (e.kind == NEXT ==> forall k: nat | IsAt(ns, e.target, k) :: !OpensSection(ns[k]))
  }

  lemma {:induction false} FindIs(ns: Nodes, id: Id)
    ensures Find(ns, id) == None ==> forall k: nat :: !IsAt(ns, id, k)
    ensures Find(ns, id) != None ==> exists k: nat :: IsAt(ns, id, k)
    ensures forall k: nat | IsAt(ns, id, k) :: Find(ns, id) == Some(ns[k])
  {
    hide PositionOf;
    PositionIs(ns, id);
    if Find(ns, id) != None {
      assert IsAt(ns, id, PositionOf(ns, id).value);
    }
  }

  lemma {:induction false} StaysIs(ns: Nodes, e: Edge)
    ensures Stays(ns, e) <==> KeptAt(ns, e)
  {
    hide Find, IsAt, StartsWith;
    FindIs(ns, e.source);
    FindIs(ns, e.target);
    forall id, k: nat | IsAt(ns, id, k) ensures k < |ns| {
      AtStands(ns, id, k);
    }
  }

  lemma {:induction false} AtStands(ns: Nodes, id: Id, k: nat)
    requires IsAt(ns, id, k)
    ensures k < |ns|
  {
  }

  /** The statement at i calls for the edge e, by the kind of the edge. */
  ghost predicate CallsFor(ns: Nodes, i: nat, exit: Id, e: Edge)
    requires i < |ns|
  {
    match e.kind
    case NEXT => DeclarationAt(ns, i, exit, e) || TrySuccessAt(ns, i, exit, e) || NoExceptionAt(ns, i, e)
    case BRANCH =>
      || JoinAt(ns, i, exit, e) || NoMatchAt(ns, i, exit, e)
      || ReturnAt(ns, i, exit, e) || GotoAt(ns, i, e) || LoopControlAt(ns, i, exit, e)
    case TRUE => false
    case FALSE => NoElseAt(ns, i, exit, e) || LoopExitAt(ns, i, exit, e)
    case LOOP_BACK => LoopControlAt(ns, i, exit, e)
    case EXCEPTION => FailureAt(ns, i, e) || RaiseAt(ns, i, exit, e)
    case CALLS => CallAt(ns, i, e)
    case DATA_DEPENDENCY => DependencyAt(ns, i, e)
  }

  lemma {:induction false} TransfersAre(ns: Nodes, i: nat, exit: Id, e: Edge)
    requires i < |ns|
    ensures e in Transfers(ns, i, exit) <==>
      ReturnAt(ns, i, exit, e) || RaiseAt(ns, i, exit, e) || GotoAt(ns, i, e) || LoopControlAt(ns, i, exit, e)
  {
    hide RaiseTarget, LabelNode, LoopControlEdge, BestHandler, CatchesFirst, LabelAt, IteratesTo, LeavesLabelled, LeavesLoop;
    match ns[i].kind
    case RETURN =>
    case ERROR_RAISE => RaisesAre(ns, i, exit, e);
    case GOTO => GotosAre(ns, i, exit, e);
    case LOOP_CONTROL => LoopControlsAre(ns, i, exit, e);
    case _ =>
  }

  ghost predicate Proposes(ns: Nodes, i: nat, exit: Id, e: Edge)
    requires i < |ns|
  {
    exists pass :: e in EdgesAt(pass, ns, i, exit)
  }

  lemma {:induction false} PassesAre(ns: Nodes, i: nat, exit: Id, e: Edge)
    requires i < |ns|
    ensures Proposes(ns, i, exit, e) <==>
      || e in HandlerSkips(ns, i, exit) || e in Transfers(ns, i, exit) || e in LoopExits(ns, i, exit)
      || e in Joins(ns, i, exit) || e in Causes(ns, i)
  {
    hide HandlerSkips, Transfers, LoopExits, Joins, Causes;
    assert e in EdgesAt(SkipHandlers, ns, i, exit) <==> e in HandlerSkips(ns, i, exit);
    assert e in EdgesAt(Transfer, ns, i, exit) <==> e in Transfers(ns, i, exit);
    assert e in EdgesAt(LeaveLoops, ns, i, exit) <==> e in LoopExits(ns, i, exit);
    assert e in EdgesAt(JoinArms, ns, i, exit) <==> e in Joins(ns, i, exit);
    assert e in EdgesAt(Fail, ns, i, exit) <==> e in Causes(ns, i);
    hide EdgesAt;
    if Proposes(ns, i, exit, e) {
      var pass :| e in EdgesAt(pass, ns, i, exit);
      match pass
      case SkipHandlers =>
      case Transfer =>
      case LeaveLoops =>
      case JoinArms =>
      case Fail =>
    }
  }

  lemma {:induction false} ProposesIs(ns: Nodes, i: nat, exit: Id, e: Edge)
    requires i < |ns| && IsControl(e.kind)
    ensures Proposes(ns, i, exit, e) <==> CallsFor(ns, i, exit, e)
  {
    hide Proposes, HandlerSkips, Transfers, LoopExits, Joins, Causes, DeclarationAt, TrySuccessAt, NoExceptionAt;
    hide JoinAt, NoMatchAt, ReturnAt, GotoAt, LoopControlAt, NoElseAt, LoopExitAt, FailureAt, RaiseAt, CallAt, DependencyAt;
    PassesAre(ns, i, exit, e);
    HandlerSkipsAre(ns, i, exit, e);
    TransfersAre(ns, i, exit, e);
    LoopExitsAre(ns, i, exit, e);
    JoinsAre(ns, i, exit, e);
    CausesAre(ns, i, e);
    KindsTell(ns, i, exit, e);
  }

  lemma {:induction false} KindsTell(ns: Nodes, i: nat, exit: Id, e: Edge)
    requires i < |ns|
    ensures DeclarationAt(ns, i, exit, e) || TrySuccessAt(ns, i, exit, e) || NoExceptionAt(ns, i, e) ==> e.kind == NEXT
    ensures JoinAt(ns, i, exit, e) || NoMatchAt(ns, i, exit, e) || ReturnAt(ns, i, exit, e) || GotoAt(ns, i, e) ==> e.kind == BRANCH
    ensures LoopControlAt(ns, i, exit, e) ==> e.kind == BRANCH || e.kind == LOOP_BACK
    ensures NoElseAt(ns, i, exit, e) || LoopExitAt(ns, i, exit, e) ==> e.kind == FALSE
    ensures FailureAt(ns, i, e) || RaiseAt(ns, i, exit, e) ==> e.kind == EXCEPTION
  {
    hide FirstEnd, FirstWorded, Behind, BehindCatch, EndsChoice, EndsArm, LabelAt, IteratesTo, EndsLabelled, LoopAround;
    hide BehindLoop, CatchesFirst, BestHandler, StartsWith;
  }

  lemma {:induction false} OtherProposals(ns: Nodes, exit: Id, e: Edge)
    requires !IsControl(e.kind)
    ensures e in Proposals(ns, exit) <==>
      (e.kind == CALLS && e in CallEdges(ns, Callees(ns))) || (e.kind == DATA_DEPENDENCY && e in DataEdges(ns, map[]))
  {
    hide PassEdges, CallEdges, DataEdges;
    forall pass ensures e !in PassEdges(pass, ns, 0, exit) {
      PassesAreControl(pass, ns, exit, e);
    }
    var a, b, c := PassEdges(SkipHandlers, ns, 0, exit), PassEdges(Transfer, ns, 0, exit), PassEdges(LeaveLoops, ns, 0, exit);
    var d, f := PassEdges(JoinArms, ns, 0, exit), PassEdges(Fail, ns, 0, exit);
    InSum(a + b + c + d + f + CallEdges(ns, Callees(ns)), DataEdges(ns, map[]), e);
    InSum(a + b + c + d + f, CallEdges(ns, Callees(ns)), e);
    InSum(a + b + c + d, f, e);
    InSum(a + b + c, d, e);
    InSum(a + b, c, e);
    InSum(a, b, e);
  }

  lemma {:induction false} PassesAreControl(pass: Pass, ns: Nodes, exit: Id, e: Edge)
    ensures e in PassEdges(pass, ns, 0, exit) ==> IsControl(e.kind)
  {
    hide EdgesAt;
    PassEdgeIsSomewhere(pass, ns, 0, exit, e);
    if e in PassEdges(pass, ns, 0, exit) {
      var i :| 0 <= i < |ns| && e in EdgesAt(pass, ns, i, exit);
      EdgeIsControl(pass, ns, i, exit, e);
    }
  }

  lemma {:induction false} EdgeIsControl(pass: Pass, ns: Nodes, i: nat, exit: Id, e: Edge)
    requires i < |ns| && e in EdgesAt(pass, ns, i, exit)
    ensures IsControl(e.kind)
  {
    hide HandlerSkips, Transfers, LoopExits, Joins, Causes;
    match pass
    case SkipHandlers => HandlerSkipsAre(ns, i, exit, e);
    case Transfer => TransfersAre(ns, i, exit, e);
    case LeaveLoops => LoopExitsAre(ns, i, exit, e);
    case JoinArms => JoinsAre(ns, i, exit, e);
    case Fail => CausesAre(ns, i, e);
    hide *;
    KindsTell(ns, i, exit, e);
  }

  /** The refined edges are those kept of the given ones and those that some statement calls for, other
      than in vain. */
  lemma {:induction false} RefinedByPosition(ns: Nodes, edges: seq<Edge>, exit: Id, e: Edge)
    ensures Refined(ns, edges, exit, e) <==>
      || (e in edges && KeptAt(ns, e))
      || ((e.source != e.target || e.kind == LOOP_BACK) && exists i: nat | i < |ns| :: CallsFor(ns, i, exit, e))
  {
    hide Stays, KeptAt, Proposals;
    StaysIs(ns, e);
    ProposedByPosition(ns, exit, e);
    hide CallsFor;
  }

  lemma {:induction false} ProposedByPosition(ns: Nodes, exit: Id, e: Edge)
    ensures e in Proposals(ns, exit) <==> exists i: nat | i < |ns| :: CallsFor(ns, i, exit, e)
  {
    hide Proposals, EdgesAt, CallsFor;
    if IsControl(e.kind) {
      ProposalIsFrom(ns, exit, e);
      forall i: nat | i < |ns| ensures Proposes(ns, i, exit, e) <==> CallsFor(ns, i, exit, e) {
        ProposesIs(ns, i, exit, e);
      }
      if e in Proposals(ns, exit) {
        var pass, i :| 0 <= i < |ns| && e in EdgesAt(pass, ns, i, exit);
        assert Proposes(ns, i, exit, e);
      }
    } else {
      hide CallAt, DependencyAt;
      OtherProposals(ns, exit, e);
      CallsAre(ns, e);
      DependenciesAre(ns, e);
      forall i: nat | i < |ns|
        ensures CallsFor(ns, i, exit, e) <==> if e.kind == CALLS then CallAt(ns, i, e) else DependencyAt(ns, i, e)
      {
        EvidenceIs(ns, i, exit, e);
      }
    }
  }

  lemma {:induction false} EvidenceIs(ns: Nodes, i: nat, exit: Id, e: Edge)
    requires i < |ns| && !IsControl(e.kind)
    ensures CallsFor(ns, i, exit, e) <==> if e.kind == CALLS then CallAt(ns, i, e) else DependencyAt(ns, i, e)
  {
    hide CallAt, DependencyAt;
  }

  // ----- ancestors -----

  function ParentOf(ns: Nodes, id: Id): Option<Id> {
    match Find(ns, id)
    case Some(n) => n.parent
    case None => None
  }

  /** The parent that position k of the chain should hold. */
  function Next(ns: Nodes, n: Node, up: seq<Id>, k: nat): Option<Id>
    requires k <= |up|
  {
    if k == 0 then n.parent else ParentOf(ns, up[k - 1])
  }

  ghost predicate Climbs(ns: Nodes, n: Node, up: seq<Id>) {
    forall k: nat | k < |up| :: ClimbsAt(ns, n, up, k)
  }

  predicate ClimbsAt(ns: Nodes, n: Node, up: seq<Id>, k: nat)
    requires k < |up|
  {
    up[k] != "" && up[k] !in up[..k] && Next(ns, n, up, k) == Some(up[k])
  }

  /** up goes from n to its parent, from there to the parent's parent and so on, without meeting one
      twice, and as far as that is possible. */
  ghost predicate IsLineage(ns: Nodes, n: Node, up: seq<Id>) {
    && Climbs(ns, n, up)
    && var next := Next(ns, n, up, |up|);
       next == None || next.value == "" || next.value in up
  }

  lemma {:induction false} ClimbsOn(ns: Nodes, n: Node, up: seq<Id>, id: Id)
    requires Climbs(ns, n, up) && id != "" && id !in up && Next(ns, n, up, |up|) == Some(id)
    ensures Climbs(ns, n, up + [id])
  {
    hide ParentOf;
    var more := up + [id];
    forall k: nat | k < |more| ensures ClimbsAt(ns, n, more, k) {
      assert Next(ns, n, more, k) == Next(ns, n, up, k);
      assert more[..k] == up[..k];
      if k < |up| {
        assert ClimbsAt(ns, n, up, k) && more[k] == up[k];
      } else {
        assert up[..k] == up;
      }
    }
  }

  lemma {:induction false} AncestorsClimb(ns: Nodes, n: Node, up: seq<Id>, current: Option<Id>, seen: set<Id>)
    requires Climbs(ns, n, up) && current == Next(ns, n, up, |up|) && forall id :: id in seen <==> id in up
    ensures IsLineage(ns, n, up + Ancestors(ns, current, seen))
    decreases |IdsOf(ns) - seen|, if current != None && current.value !in IdsOf(ns) then 1 else 0
  {
    hide Climbs, Next, IsLineage, Find, IdsOf;
    if current == None || current.value == "" || current.value in seen {
      assert up + Ancestors(ns, current, seen) == up;
      LineageEnds(ns, n, up);
    } else {
      var id := current.value;
      ClimbsOn(ns, n, up, id);
      var more := up + [id];
      NextOf(ns, n, more);
      match Find(ns, id)
      case None =>
        assert up + Ancestors(ns, current, seen) == more;
        LineageEnds(ns, n, more);
      case Some(parent) =>
        FewerIds(ns, seen, id);
        AncestorsClimb(ns, n, more, parent.parent, seen + {id});
        assert up + Ancestors(ns, current, seen) == more + Ancestors(ns, parent.parent, seen + {id});
    }
  }

  lemma {:induction false} FewerIds(ns: Nodes, seen: set<Id>, id: Id)
    requires id !in seen && Find(ns, id) != None
    ensures |IdsOf(ns) - (seen + {id})| < |IdsOf(ns) - seen|
  {
    assert IdsOf(ns) - seen == (IdsOf(ns) - (seen + {id})) + {id};
  }

  lemma {:induction false} NextOf(ns: Nodes, n: Node, up: seq<Id>)
    requires up != []
    ensures Next(ns, n, up, |up|) == ParentOf(ns, up[|up| - 1])
  {
  }

  lemma {:induction false} LineageEnds(ns: Nodes, n: Node, up: seq<Id>)
    requires Climbs(ns, n, up)
    requires var next := Next(ns, n, up, |up|); next == None || next.value == "" || next.value in up
    ensures IsLineage(ns, n, up)
  {
  }

  lemma {:induction false} NextAgrees(ns: Nodes, n: Node, up: seq<Id>, other: seq<Id>, k: nat)
    requires k <= |up| && k <= |other| && up[..k] == other[..k]
    ensures Next(ns, n, up, k) == Next(ns, n, other, k)
  {
    hide ParentOf;
    if k > 0 {
      assert up[k - 1] == up[..k][k - 1] == other[..k][k - 1] == other[k - 1];
    }
  }

  lemma {:induction false} SamePrefix(ns: Nodes, n: Node, up: seq<Id>, other: seq<Id>, k: nat)
    requires Climbs(ns, n, up) && Climbs(ns, n, other) && k <= |up| && k <= |other|
    ensures up[..k] == other[..k]
    decreases k
  {
    if k > 0 {
      SamePrefix(ns, n, up, other, k - 1);
      NextAgrees(ns, n, up, other, k - 1);
      assert ClimbsAt(ns, n, up, k - 1) && ClimbsAt(ns, n, other, k - 1);
      assert up[..k] == up[..k - 1] + [up[k - 1]] && other[..k] == other[..k - 1] + [other[k - 1]];
    }
  }

  lemma {:induction false} NotLonger(ns: Nodes, n: Node, up: seq<Id>, other: seq<Id>)
    requires IsLineage(ns, n, up) && IsLineage(ns, n, other)
    ensures |other| <= |up|
  {
    if |other| > |up| {
      var k := |up|;
      LineageClimbs(ns, n, up);
      LineageClimbs(ns, n, other);
      hide Climbs, ClimbsAt;
      SamePrefix(ns, n, up, other, k);
      NextAgrees(ns, n, up, other, k);
      assert up[..k] == up;
      Above(ns, n, other, k);
    }
  }

  /** The ancestors of a statement are its lineage. */
  lemma {:induction false} AncestryIsLineage(ns: Nodes, n: Node, up: seq<Id>)
    ensures up == Ancestry(ns, n) <==> IsLineage(ns, n, up)
  {
    hide Ancestors, IsLineage;
    assert Climbs(ns, n, []);
    AncestorsClimb(ns, n, [], n.parent, {});
    var own := Ancestry(ns, n);
    assert [] + own == own;
    if IsLineage(ns, n, up) {
      NotLonger(ns, n, up, own);
      NotLonger(ns, n, own, up);
      assert Climbs(ns, n, up) && Climbs(ns, n, own) by {
        LineageClimbs(ns, n, up);
        LineageClimbs(ns, n, own);
      }
      SamePrefix(ns, n, up, own, |up|);
      assert up[..|up|] == up && own[..|own|] == own;
    }
  }

  lemma {:induction false} Above(ns: Nodes, n: Node, up: seq<Id>, k: nat)
    requires Climbs(ns, n, up) && k < |up|
    ensures var next := Next(ns, n, up, k); next != None && next.value != "" && next.value !in up[..k]
  {
    assert ClimbsAt(ns, n, up, k);
  }

  lemma {:induction false} LineageClimbs(ns: Nodes, n: Node, up: seq<Id>)
    requires IsLineage(ns, n, up)
    ensures Climbs(ns, n, up)
  {
  }
}
