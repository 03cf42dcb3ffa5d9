/** What the block matcher makes of single pieces of a procedure, and inputs on which it goes wrong. */
module MatchedPieces {
  import opened Basics
  import opened BlockMatcher
  import opened MatchedBodies

  // ----- one piece -----


  /** A CASE expression whose pieces leave g leaves the stack as it was exactly when g is empty and no
      closer follows. */
  lemma {:induction false} ExpressionIsLeftIff(ts: seq<Token>, p: nat, n: Node, stack: Stack, g: Stack)
    requires IsExpression(n) && 0 < p && Stands(ts, p, Flat(n)) && Shape(n) && ts[p - 1].key != END
    requires ExpressionCase in stack || !IsCaseStatementStart(ts, p)
    requires AfterAll(ts, p + 1, n.inner, stack + [ExpressionCase]) == Some(stack + [ExpressionCase] + g)
    ensures Moves(ts, p, State(stack, 0), p + |Flat(n)|, State(stack, 0)) <==>
      g == [] && !IsCloser(KeyAt(ts, p + |Flat(n)|))
  {
    hide FlatAll, AfterAll, ShapeAll, StateAt, AtEnd, Opening, IsCaseStatementStart;
    BracketParts(ts, p, n);
    ExpressionOpens(ts, p, stack);
    NodeRuns(ts, p, n, stack);
    EndOfExpression(ts, p + 1 + |FlatAll(n.inner)|, stack, g);
  }

  lemma {:induction false} EndOfExpression(ts: seq<Token>, q: nat, stack: Stack, g: Stack)
    ensures AtEnd(ts, q, stack + [ExpressionCase] + g) == Some(stack) <==> g == [] && !IsCloser(KeyAt(ts, q + 1))
  {
    hide CutAt;
    var all := stack + [ExpressionCase] + g;
    var k := if IsCloser(KeyAt(ts, q + 1)) then KeyAt(ts, q + 1) else BEGIN;
    assert all[|stack|] == ExpressionCase && all[..|stack|] == stack;
    CutIsAtFrame(all, k);
  }

  /** A cut takes a frame of its own kind first. */
  lemma {:induction false} CutIsAtFrame(stack: Stack, k: Key)
    ensures var i := |CutAt(stack, k)|; i == |stack| || (i < |stack| && stack[i] == Open(k))
  {
  }

  /** What n pushes if it is a stray keyword. */
  function StrayFrame(ts: seq<Token>, p: nat, n: Node): Stack {
    if n.Stray? then Pushed(ts, p, n.t.key) else []
  }

  /** The frames that the stray keywords among ns push. */
  function StrayFrames(ts: seq<Token>, p: nat, ns: seq<Node>): Stack
    requires p + |FlatAll(ns)| <= |ts|
    decreases ns
  {
    if ns == [] then [] else StrayFrame(ts, p, ns[0]) + StrayFrames(ts, p + |Flat(ns[0])|, ns[1..])
  }

  /** Like TidyAll inside a CASE expression, but with stray keywords among its own pieces. */
  predicate Loose(ts: seq<Token>, p: nat, ns: seq<Node>)
    requires 0 < p && p + |FlatAll(ns)| <= |ts|
    decreases ns
  {
    ns != [] ==>
      && Tidy(ts, p, ns[0], !ns[0].Stray?)
      && Loose(ts, p + |Flat(ns[0])|, ns[1..])
  }

  lemma {:induction false} LooseLeaves(ts: seq<Token>, p: nat, ns: seq<Node>, stack: Stack)
    requires 0 < p && Stands(ts, p, FlatAll(ns)) && ShapeAll(ns) && Loose(ts, p, ns) && ExpressionCase in stack
    ensures AfterAll(ts, p, ns, stack) == Some(stack + StrayFrames(ts, p, ns))
    decreases ns
  {
    hide Flat, Shape, Tidy, After, StrayFrame;
    if ns == [] {
      assert stack + [] == stack;
    } else {
      StandsParts(ts, p, Flat(ns[0]), FlatAll(ns[1..]));
      var q, g := p + |Flat(ns[0])|, StrayFrame(ts, p, ns[0]);
      LooseNodeLeaves(ts, p, ns[0], stack);
      LooseLeaves(ts, q, ns[1..], stack + g);
      assert stack + g + StrayFrames(ts, q, ns[1..]) == stack + (g + StrayFrames(ts, q, ns[1..]));
    }
  }

  lemma {:induction false} LooseNodeLeaves(ts: seq<Token>, p: nat, n: Node, stack: Stack)
    requires 0 < p && Stands(ts, p, Flat(n)) && Shape(n) && Tidy(ts, p, n, !n.Stray?) && ExpressionCase in stack
    ensures After(ts, p, n, stack) == Some(stack + StrayFrame(ts, p, n))
  {
    hide IsForLoopStart, IsCaseStatementStart, FlatAll, AfterAll, TidyAll, ShapeAll, AtEnd, IsText, IsGroup;
    assert stack + [] == stack;
    if n.Stray? {
      StandsOne(ts, p, n.t);
    } else if n.Bracket? {
      ScalarBracket(ts, p, n);
      ExpressionIsClean(ts, p, n, stack, true);
    }
  }

  /** A CASE expression with stray keywords in it leaves the stack as it was exactly when none of them
      opens anything and no closer follows. */
  lemma {:induction false} ExpressionIsLeftIffNoStray(ts: seq<Token>, p: nat, n: Node, stack: Stack)
    requires IsExpression(n) && 0 < p && Stands(ts, p, Flat(n)) && Shape(n) && ts[p - 1].key != END
    requires ExpressionCase in stack || !IsCaseStatementStart(ts, p)
    requires Loose(ts, p + 1, n.inner)
    ensures Moves(ts, p, State(stack, 0), p + |Flat(n)|, State(stack, 0)) <==>
      StrayFrames(ts, p + 1, n.inner) == [] && !IsCloser(KeyAt(ts, p + |Flat(n)|))
  {
    hide FlatAll, AfterAll, ShapeAll, Loose, StrayFrames, Moves, Opening, IsCaseStatementStart;
    BracketParts(ts, p, n);
    ExpressionOpens(ts, p, stack);
    LooseLeaves(ts, p + 1, n.inner, stack + [ExpressionCase]);
    ExpressionIsLeftIff(ts, p, n, stack, StrayFrames(ts, p + 1, n.inner));
  }

  /** A tidy CASE expression leaves the stack as it was exactly when no closer follows its END; a closer cuts
      the stack at a frame of its own kind. */
  lemma {:induction false} ExpressionIsLeftIffNoCloserFollows(ts: seq<Token>, p: nat, n: Node, stack: Stack)
    requires IsExpression(n) && 0 < p && Stands(ts, p, Flat(n)) && Shape(n) && ts[p - 1].key != END
    requires ExpressionCase in stack || !IsCaseStatementStart(ts, p)
    requires TidyAll(ts, p + 1, n.inner, true) && Rooted(stack)
    ensures
      var following := KeyAt(ts, p + |Flat(n)|);
      var misread := CutAt(stack + [ExpressionCase], following);
      && (IsCloser(following) ==> misread != stack)
      && Moves(ts, p, State(stack, 0), p + |Flat(n)|, State(if IsCloser(following) then misread else stack, 0))
  {
    hide FlatAll, AfterAll, ShapeAll, TidyAll, StateAt, AtEnd, Opening, CutAt, IsCaseStatementStart;
    BracketParts(ts, p, n);
    ExpressionOpens(ts, p, stack);
    NodeRuns(ts, p, n, stack);
    var q, inside := p + 1 + |FlatAll(n.inner)|, stack + [ExpressionCase];
    ScalarsAreClean(ts, p + 1, n.inner, inside);
    if IsCloser(KeyAt(ts, q + 1)) {
      RootedEnds(ts, q, KeyAt(ts, q + 1), inside);
      CutIsAtFrame(inside, KeyAt(ts, q + 1));
    } else {
      ExpressionCloses(ts, q, stack);
    }
  }

  /** A CASE statement whose arms leave g, with no CASE statement open in it, leaves the stack as it was
      exactly when it is recognised: the token before it starts a statement, and no CASE expression is
      open.  Otherwise its END CASE does not match it. */
  lemma {:induction false} CaseIsLeftIffRecognised(ts: seq<Token>, p: nat, n: Node, stack: Stack, g: Stack)
    requires IsCompound(n) && n.open.key == CASE && 0 < p && Stands(ts, p, Flat(n)) && Shape(n) && ts[p - 1].key != END
    requires Rooted(stack) && Open(CASE) !in g
    requires var inside := stack + Own(ts, p, CASE, stack); AfterAll(ts, p + 1, n.inner, inside) == Some(inside + g)
    ensures
      var misread := CutAt(stack + [ExpressionCase] + g, CASE);
      var recognised := IsCaseStatementStart(ts, p) && ExpressionCase !in stack;
      && misread != stack
      && Moves(ts, p, State(stack, 0), p + |Flat(n)|, State(if recognised then stack else misread, 0))
  {
    hide FlatAll, AfterAll, ShapeAll, StateAt, AtEnd, Opening, IsCaseStatementStart, CutAt;
    BracketParts(ts, p, n);
    CompoundOpens(ts, p, CASE, stack);
    NodeRuns(ts, p, n, stack);
    var q, own := p + 1 + |FlatAll(n.inner)|, Own(ts, p, CASE, stack);
    CutIsAtFrame(stack + [ExpressionCase] + g, CASE);
    if own == [Open(CASE)] {
      OwnEnds(ts, q, CASE, stack, g);
    } else {
      RootedEnds(ts, q, CASE, stack + own + g);
    }
  }

  lemma {:induction false} RootedEnds(ts: seq<Token>, q: nat, k: Key, stack: Stack)
    requires IsCloser(k) && KeyAt(ts, q + 1) == k && Rooted(stack)
    ensures AtEnd(ts, q, stack) == Some(CutAt(stack, k))
  {
  }

  /** A recognised compound takes away whatever its pieces leave, CASE expressions and blocks included,
      unless that holds a frame of its own kind. */
  lemma {:induction false} RecognisedCompoundIsLeft(ts: seq<Token>, p: nat, n: Node, stack: Stack, g: Stack)
    requires IsCompound(n) && 0 < p && Stands(ts, p, Flat(n)) && Shape(n) && ts[p - 1].key != END && stack != []
    requires Own(ts, p, n.open.key, stack) == [Open(n.open.key)] && Open(n.open.key) !in g
    requires var inside := stack + [Open(n.open.key)]; AfterAll(ts, p + 1, n.inner, inside) == Some(inside + g)
    ensures Moves(ts, p, State(stack, 0), p + |Flat(n)|, State(stack, 0))
  {
    hide FlatAll, AfterAll, ShapeAll, StateAt, AtEnd, Opening, Own;
    BracketParts(ts, p, n);
    CompoundOpens(ts, p, n.open.key, stack);
    NodeRuns(ts, p, n, stack);
    OwnEnds(ts, p + 1 + |FlatAll(n.inner)|, n.open.key, stack, g);
  }

  /** The END FOR of a loop that was not taken for one leaves the stack below it alone exactly when
      no FOR frame is open there or its own body left one. */
  lemma {:induction false} ForIsLeftIff(ts: seq<Token>, p: nat, n: Node, stack: Stack, g: Stack)
    requires IsCompound(n) && n.open.key == FOR && 0 < p && Stands(ts, p, Flat(n)) && Shape(n) && Rooted(stack)
    requires !IsForLoopStart(ts, p) && AfterAll(ts, p + 1, n.inner, stack) == Some(stack + g)
    ensures
      var now := CutAt(stack + g, FOR);
      && Moves(ts, p, State(stack, 0), p + |Flat(n)|, State(now, 0))
      && (stack <= now <==> Open(FOR) !in stack || Open(FOR) in g)
  {
    hide FlatAll, AfterAll, ShapeAll, StateAt, AtEnd, CutAt, IsForLoopStart;
    BracketParts(ts, p, n);
    NodeRuns(ts, p, n, stack);
    RootedEnds(ts, p + 1 + |FlatAll(n.inner)|, FOR, stack + g);
    ForCuts(stack, g);
  }

  lemma {:induction false} ForCuts(stack: Stack, g: Stack)
    ensures stack <= CutAt(stack + g, FOR) <==> Open(FOR) !in stack || Open(FOR) in g
  {
    if Open(FOR) in g || Open(FOR) !in stack {
      CutStays(stack, g, FOR);
    } else {
      var all := stack + g;
      assert forall j | |stack| <= j < |all| :: all[j] == g[j - |stack|];
      assert Innermost(all, FOR) != None;
    }
  }

  // ----- inputs -----

  function Tok(k: Key): Token {
    Token(k, false, k != OpenParen && k != CloseParen && k != Semicolon && k != Colon)
  }

  /** The stacks that a run of single tokens leads through. */
  ghost predicate Goes(ts: seq<Token>, i: nat, stack: Stack, j: nat, now: Stack) {
    Moves(ts, i, State(stack, 0), j, State(now, 0))
  }

  lemma {:induction false} Next(ts: seq<Token>, i: nat, s0: Stack, j: nat, stack: Stack, now: Stack)
    requires Goes(ts, i, s0, j, stack) && j < |ts|
    requires IsText(ts[j]) ==> now == stack
    requires !IsText(ts[j]) ==> ts[j].key !in {OpenParen, CloseParen}
    requires ts[j].key == END ==> AtEnd(ts, j, stack) == Some(now)
    requires ts[j].key == BEGIN || IsCloser(ts[j].key) ==> now == Opening(ts, j, stack)
    ensures Goes(ts, i, s0, j + 1, now)
  {
    hide StateAt, AtEnd, Opening;
    var k := ts[j].key;
    if k == END {
      EndMoves(ts, j, stack);
    } else if k == BEGIN || IsCloser(k) {
      OpenerMoves(ts, j, stack);
    } else {
      TextMoves(ts, j, stack);
    }
    Onwards(ts, i, State(s0, 0), j, State(stack, 0), j + 1, State(now, 0));
  }

  lemma {:induction false} Begin(ts: seq<Token>, stack: Stack)
    requires |ts| > 1
    ensures Goes(ts, 1, stack, 1, stack)
  {
  }

  /** The machine stops at the END at j. */
  lemma {:induction false} StopsThere(ts: seq<Token>, s0: Stack, j: nat, stack: Stack)
    requires Goes(ts, 1, s0, j, stack) && j < |ts| && ts[j].key == END && !IsCloser(KeyAt(ts, j + 1))
    requires Rooted(stack) && Alone(stack)
    ensures StopsAt(ts, 1, State(s0, 0)) == Some(j)
  {
    hide StateAt, StopsAt;
    StopsAtIff(ts, 1, State(s0, 0), j, stack);
  }

  lemma {:induction false} StopsNowhere(ts: seq<Token>, s0: Stack, stack: Stack)
    requires Goes(ts, 1, s0, |ts|, stack)
    ensures StopsAt(ts, 1, State(s0, 0)) == None
  {
    hide StateAt;
    StateDecides(ts, 1, State(s0, 0), |ts|);
  }

  /** A CASE behind an ordinary word counts as an expression. */
  lemma {:induction false} CaseBehindWord(ts: seq<Token>)
    requires |ts| > 3 && ts[1] == Tok(Other) && ts[2] == Tok(CASE)
    ensures Goes(ts, 1, [Open(BEGIN)], 3, [Open(BEGIN), ExpressionCase])
  {
    hide StateAt, AtEnd, Opening;
    var s0, s1 := [Open(BEGIN)], [Open(BEGIN), ExpressionCase];
    Begin(ts, s0);
    Next(ts, 1, s0, 1, s0, s0);
    ExpressionOpens(ts, 2, s0);
    assert s0 + [ExpressionCase] == s1;
    Next(ts, 1, s0, 2, s0, s1);
  }

  /** Behind END and a closer that matches nothing, the next END closes the expression. */
  lemma {:induction false} LostEnd(ts: seq<Token>)
    requires |ts| == 7 && ts[3] == Tok(END) && IsCloser(ts[4].key) && ts[5] == Tok(Semicolon) && ts[6] == Tok(END)
    requires Goes(ts, 1, [Open(BEGIN)], 3, [Open(BEGIN), ExpressionCase])
    ensures StopsAt(ts, 1, State([Open(BEGIN)], 0)) == None
  {
    hide StateAt, StopsAt, CutAt, AtEnd, Goes;
    var s0, s1 := [Open(BEGIN)], [Open(BEGIN), ExpressionCase];
    CutNothing(s1, ts[4].key);
    RootedEnds(ts, 3, ts[4].key, s1);
    Next(ts, 1, s0, 3, s1, s1);
    Next(ts, 1, s0, 4, s1, s1);
    Next(ts, 1, s0, 5, s1, s1);
    ExpressionCloses(ts, 6, s0);
    assert s0 + [ExpressionCase] == s1;
    Next(ts, 1, s0, 6, s1, s0);
    StopsNowhere(ts, s0, s0);
  }

  /** BEGIN ... CASE ... REPEAT ... END; END  with a call of the REPEAT function in a CASE
      expression: the matcher stops at the END of the expression. */
  lemma {:induction false} StrayInExpressionEndsEarly()
    ensures
      var ts := [Tok(BEGIN), Tok(Other), Tok(CASE), Tok(REPEAT), Tok(END), Tok(Semicolon), Tok(END)];
      FirstBegin(ts, 0) == Some(0) && StopsAt(ts, 1, State([Open(BEGIN)], 0)) == Some(4)
  {
    hide StopsAt, StateAt, AtEnd, Goes;
    var ts := [Tok(BEGIN), Tok(Other), Tok(CASE), Tok(REPEAT), Tok(END), Tok(Semicolon), Tok(END)];
    var s1, s2 := [Open(BEGIN), ExpressionCase], [Open(BEGIN), ExpressionCase, Open(REPEAT)];
    CaseBehindWord(ts);
    assert s1 + [Open(REPEAT)] == s2;
    Next(ts, 1, [Open(BEGIN)], 3, s1, s2);
    StopsThere(ts, [Open(BEGIN)], 4, s2);
  }

  /** BEGIN ATOMIC CASE ... END CASE; END  with a CASE statement that is not preceded by a token
      that starts a statement: the matcher never stops. */
  lemma {:induction false} UnrecognisedCaseHidesEnd()
    ensures
      var ts := [Tok(BEGIN), Tok(Other), Tok(CASE), Tok(END), Tok(CASE), Tok(Semicolon), Tok(END)];
      FirstBegin(ts, 0) == Some(0) && StopsAt(ts, 1, State([Open(BEGIN)], 0)) == None
  {
    hide StopsAt;
    var ts := [Tok(BEGIN), Tok(Other), Tok(CASE), Tok(END), Tok(CASE), Tok(Semicolon), Tok(END)];
    CaseBehindWord(ts);
    LostEnd(ts);
  }

  /** BEGIN ... CASE ... END FOR ...; END  with a FOR clause behind a CASE expression: the
      matcher never stops. */
  lemma {:induction false} ForBehindExpressionHidesEnd()
    ensures
      var ts := [Tok(BEGIN), Tok(Other), Tok(CASE), Tok(END), Tok(FOR), Tok(Semicolon), Tok(END)];
      FirstBegin(ts, 0) == Some(0) && StopsAt(ts, 1, State([Open(BEGIN)], 0)) == None
  {
    hide StopsAt;
    var ts := [Tok(BEGIN), Tok(Other), Tok(CASE), Tok(END), Tok(FOR), Tok(Semicolon), Tok(END)];
    CaseBehindWord(ts);
    LostEnd(ts);
  }

  /** BEGIN LOOP CASE x END CASE; END LOOP; END  with a CASE statement that is not recognised, directly
      behind LOOP: END LOOP takes away what it leaves, and the matcher stops at token 10, the END of the
      body. */
  lemma {:induction false} CaseInLoopDoesNoHarm()
    ensures
      var ts := CaseInLoop();
      && |ts| == 11 && FirstBegin(ts, 0) == Some(0) && !IsCaseStatementStart(ts, 2)
      && StopsAt(ts, 1, State([Open(BEGIN)], 0)) == Some(10)
  {
    hide StopsAt, StateAt, AtEnd, Opening, Goes, CutAt, CaseInLoop;
    CaseInLoopTokens();
    var ts, s0, s2 := CaseInLoop(), [Open(BEGIN)], [Open(BEGIN), Open(LOOP), ExpressionCase];
    CaseInLoopOpens();
    CutNothing(s2, CASE);
    RootedEnds(ts, 4, CASE, s2);
    Next(ts, 1, s0, 4, s2, s2);
    BehindEnd(ts, 5, s2);
    Next(ts, 1, s0, 5, s2, s2);
    Next(ts, 1, s0, 6, s2, s2);
    CutLoop(s2);
    RootedEnds(ts, 7, LOOP, s2);
    Next(ts, 1, s0, 7, s2, s0);
    BehindEnd(ts, 8, s0);
    Next(ts, 1, s0, 8, s0, s0);
    Next(ts, 1, s0, 9, s0, s0);
    StopsThere(ts, s0, 10, s0);
  }

  function CaseInLoop(): seq<Token> {
    [Tok(BEGIN), Tok(LOOP), Tok(CASE), Tok(Other), Tok(END), Tok(CASE), Tok(Semicolon), Tok(END), Tok(LOOP),
     Tok(Semicolon), Tok(END)]
  }

  lemma {:induction false} CaseInLoopTokens()
    ensures var ts := CaseInLoop();
      && |ts| == 11 && ts[0] == Tok(BEGIN) && ts[1] == ts[8] == Tok(LOOP) && ts[2] == ts[5] == Tok(CASE)
      && ts[3] == Tok(Other) && ts[4] == ts[7] == ts[10] == Tok(END) && ts[6] == ts[9] == Tok(Semicolon)
  {
    hide Tok;
  }

  lemma {:induction false} CaseInLoopOpens()
    ensures |CaseInLoop()| == 11
    ensures Goes(CaseInLoop(), 1, [Open(BEGIN)], 4, [Open(BEGIN), Open(LOOP), ExpressionCase])
  {
    hide StateAt, AtEnd, Goes, CaseInLoop;
    CaseInLoopTokens();
    var ts, s0, s1 := CaseInLoop(), [Open(BEGIN)], [Open(BEGIN), Open(LOOP)];
    var s2 := s1 + [ExpressionCase];
    assert s2 == [Open(BEGIN), Open(LOOP), ExpressionCase];
    Begin(ts, s0);
    assert Opening(ts, 1, s0) == s1;
    Next(ts, 1, s0, 1, s0, s1);
    ExpressionOpens(ts, 2, s1);
    Next(ts, 1, s0, 2, s1, s2);
    Next(ts, 1, s0, 3, s2, s2);
  }

  lemma {:induction false} CutLoop(stack: Stack)
    requires stack == [Open(BEGIN), Open(LOOP), ExpressionCase]
    ensures CutAt(stack, LOOP) == [Open(BEGIN)]
  {
    assert Innermost(stack, LOOP) == Some(1);
  }

  /** BEGIN FOR v AS c CURSOR FOR s DO BEGIN FOR w AS s DO x; END FOR; END; END FOR; END  with a loop
      over a named cursor around a block that holds a loop over a plain query. */
  function NestedFors(): seq<Token> {
    [Tok(BEGIN), Tok(FOR), Tok(Other), Tok(AS), Tok(Other), Tok(CURSOR), Tok(FOR), Tok(Other), Tok(DO),
     Tok(BEGIN), Tok(FOR), Tok(Other), Tok(AS), Tok(Other), Tok(DO), Tok(Other), Tok(Semicolon), Tok(END), Tok(FOR),
     Tok(Semicolon), Tok(END), Tok(Semicolon), Tok(END), Tok(FOR), Tok(Semicolon), Tok(END)]
  }

  lemma {:induction false} TextsMove(ts: seq<Token>, s0: Stack, j: nat, m: nat, stack: Stack)
    requires Goes(ts, 1, s0, j, stack) && j <= m <= |ts|
    requires forall k | j <= k < m :: IsText(ts[k])
    ensures Goes(ts, 1, s0, m, stack)
    decreases m - j
  {
    hide Goes;
    if j < m {
      Next(ts, 1, s0, j, stack, stack);
      TextsMove(ts, s0, j + 1, m, stack);
    }
  }

  lemma {:induction false} NestedForTokens()
    ensures var ts := NestedFors();
      && |ts| == 26 && ts[0] == ts[9] == Tok(BEGIN) && ts[1] == ts[6] == ts[10] == ts[18] == ts[23] == Tok(FOR)
      && ts[3] == Tok(AS) && ts[5] == Tok(CURSOR) && ts[17] == ts[20] == Tok(END) && ts[21] == Tok(Semicolon)
  {
    hide Tok;
  }

  lemma {:induction false} NestedForTexts()
    ensures var ts := NestedFors();
      && |ts| == 26
      && (forall k | 2 <= k < 6 || 7 <= k < 9 || 11 <= k < 17 || k == 19 :: IsText(ts[k]))
      && (forall k | 7 <= k < 20 :: ts[k].key != CURSOR && !ts[k].glued)
  {
  }

  lemma {:induction false} NestedForsAreTaken()
    ensures var ts := NestedFors();
      |ts| == 26 && IsForLoopStart(ts, 1) && !IsForLoopStart(ts, 6) && !IsForLoopStart(ts, 10)
  {
    NestedForTokens();
    NestedForTexts();
    hide NestedFors;
    var ts := NestedFors();
    var ahead := Lookahead(ts, 1);
    assert ahead == ts[2..11] && ahead[1] == ts[3] && ahead[3] == ts[5];
    assert ahead[1] in ahead && ahead[3] in ahead;
  }

  lemma {:induction false} NotTaken(ts: seq<Token>, p: nat, stack: Stack)
    requires 0 < p < |ts| && ts[p].key == FOR && !IsForLoopStart(ts, p)
    ensures Opening(ts, p, stack) == stack
  {
  }

  /** The matcher stops at token 20, the END of the inner block; the body ends at token 25. */
  lemma {:induction false} NestedForsEndEarly()
    ensures var ts := NestedFors();
      && |ts| == 26 && FirstBegin(ts, 0) == Some(0)
      && StopsAt(ts, 1, State([Open(BEGIN)], 0)) == Some(20)
  {
    hide StopsAt, StateAt, IsForLoopStart, CutAt, AtEnd, Opening, NestedFors, Goes;
    NestedForTokens();
    NestedForTexts();
    var ts, s0, s2 := NestedFors(), [Open(BEGIN)], [Open(BEGIN), Open(FOR), Open(BEGIN)];
    OuterForOpens();
    NestedForsAreTaken();
    NotTaken(ts, 10, s2);
    Next(ts, 1, s0, 10, s2, s2);
    TextsMove(ts, s0, 11, 17, s2);
    CutInnerFor(s2);
    RootedEnds(ts, 17, FOR, s2);
    Next(ts, 1, s0, 17, s2, s0);
    assert Opening(ts, 18, s0) == s0 by {
      BehindEnd(ts, 18, s0);
    }
    Next(ts, 1, s0, 18, s0, s0);
    TextsMove(ts, s0, 19, 20, s0);
    StopsThere(ts, s0, 20, s0);
  }

  lemma {:induction false} BehindEnd(ts: seq<Token>, p: nat, stack: Stack)
    requires 0 < p < |ts| && ts[p - 1].key == END
    ensures Opening(ts, p, stack) == stack
  {
  }

  lemma {:induction false} OuterForOpens()
    ensures |NestedFors()| == 26
    ensures Goes(NestedFors(), 1, [Open(BEGIN)], 10, [Open(BEGIN), Open(FOR), Open(BEGIN)])
  {
    hide StateAt, IsForLoopStart, NestedFors, Goes;
    NestedForTokens();
    NestedForTexts();
    NestedForsAreTaken();
    var ts, s0, s1 := NestedFors(), [Open(BEGIN)], [Open(BEGIN), Open(FOR)];
    Begin(ts, s0);
    assert Opening(ts, 1, s0) == s1;
    Next(ts, 1, s0, 1, s0, s1);
    TextsMove(ts, s0, 2, 6, s1);
    NotTaken(ts, 6, s1);
    Next(ts, 1, s0, 6, s1, s1);
    TextsMove(ts, s0, 7, 9, s1);
    assert Opening(ts, 9, s1) == [Open(BEGIN), Open(FOR), Open(BEGIN)];
    Next(ts, 1, s0, 9, s1, [Open(BEGIN), Open(FOR), Open(BEGIN)]);
  }

  lemma {:induction false} CutInnerFor(stack: Stack)
    requires stack == [Open(BEGIN), Open(FOR), Open(BEGIN)]
    ensures CutAt(stack, FOR) == [Open(BEGIN)]
  {
    assert Innermost(stack, FOR) == Some(1);
  }
}
