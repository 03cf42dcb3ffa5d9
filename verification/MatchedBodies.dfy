/** When the block matcher finds the END of a procedure, read off the body. */
module MatchedBodies {
  import opened Basics
  import opened BlockMatcher

  // ----- ENDs that stay in their block -----

  /** No END in n reaches below the BEGIN of the block around it: of the stack, the lowest frames up to
      floor stay, and the BEGIN of that block is the last of them. */
  predicate Kept(ts: seq<Token>, p: nat, n: Node, stack: Stack, floor: nat)
    requires 0 < p && p + |Flat(n)| <= |ts|
    decreases n
  {
    n.Bracket? ==>
      var inside, now := Opening(ts, p, stack), After(ts, p, n, stack);
      && KeptAll(ts, p + 1, n.inner, inside, if IsBlock(n) then |inside| else floor)
      && now != None && |now.value| >= floor
  }

  predicate KeptAll(ts: seq<Token>, p: nat, ns: seq<Node>, stack: Stack, floor: nat)
    requires 0 < p && p + |FlatAll(ns)| <= |ts|
    decreases ns
  {
    ns != [] ==>
      && Kept(ts, p, ns[0], stack, floor)
      && var now := After(ts, p, ns[0], stack);
         now != None ==> KeptAll(ts, p + |Flat(ns[0])|, ns[1..], now.value, floor)
  }

  /** The END at q may close a block: no closer follows and no CASE expression is on top. */
  predicate MayCloseBlock(ts: seq<Token>, q: nat, stack: Option<Stack>) {
    !IsCloser(KeyAt(ts, q + 1)) && (stack != None ==> !TopIsExpression(stack.value))
  }

  /** Every block in n is opened by its BEGIN and may be closed by its END. */
  predicate Sealed(ts: seq<Token>, p: nat, n: Node, stack: Stack)
    requires 0 < p && p + |Flat(n)| <= |ts|
    decreases n
  {
    n.Bracket? ==>
      var inside := Opening(ts, p, stack);
      && SealedAll(ts, p + 1, n.inner, inside)
      && (IsBlock(n) ==>
            && ts[p - 1].key != END
            && MayCloseBlock(ts, p + 1 + |FlatAll(n.inner)|, AfterAll(ts, p + 1, n.inner, inside)))
  }

  predicate SealedAll(ts: seq<Token>, p: nat, ns: seq<Node>, stack: Stack)
    requires 0 < p && p + |FlatAll(ns)| <= |ts|
    decreases ns
  {
    ns != [] ==>
      && Sealed(ts, p, ns[0], stack)
      && var now := After(ts, p, ns[0], stack);
         now != None ==> SealedAll(ts, p + |Flat(ns[0])|, ns[1..], now.value)
  }

  /** Frame floor - 1 is the BEGIN of the current block, and no block is open above it. */
  ghost predicate Level(stack: Stack, floor: nat) {
    && Rooted(stack) && 0 < floor <= |stack| && stack[floor - 1] == Open(BEGIN)
    && forall i | floor <= i < |stack| :: stack[i] != Open(BEGIN)
  }

  /** The number of open blocks. */
  ghost function Begins(stack: Stack): nat {
    multiset(stack)[Open(BEGIN)]
  }

  lemma {:induction false} PrefixBegins(now: Stack, stack: Stack)
    requires now <= stack
    ensures Begins(now) <= Begins(stack)
  {
    assert stack == now + stack[|now|..];
  }

  lemma {:induction false} LevelBegins(stack: Stack, floor: nat)
    requires Level(stack, floor)
    ensures Begins(stack) == Begins(stack[..floor])
  {
    assert stack == stack[..floor] + stack[floor..];
  }

  lemma {:induction false} LevelPrefix(now: Stack, stack: Stack, floor: nat)
    requires Level(stack, floor) && now <= stack
    ensures |now| >= floor ==> Level(now, floor) && now[..floor] == stack[..floor]
    ensures |now| < floor ==> Begins(now) < Begins(stack)
  {
    if |now| < floor {
      assert stack == now + stack[|now|..];
      assert stack[floor - 1] in stack[|now|..];
    }
  }

  /** The stack inside a bracket. */
  lemma {:induction false} OpeningLevel(ts: seq<Token>, p: nat, n: Node, stack: Stack, floor: nat)
    requires 0 < p < |ts| && Shape(n) && n.Bracket? && ts[p] == n.open && Rooted(stack)
    requires IsBlock(n) ==> ts[p - 1].key != END
    ensures var inside := Opening(ts, p, stack);
      && Rooted(inside) && stack <= inside
      && Begins(inside) == Begins(stack) + (if IsBlock(n) then 1 else 0)
      && (Level(stack, floor) ==>
            && floor <= |inside| && inside[..floor] == stack[..floor]
            && Level(inside, if IsBlock(n) then |inside| else floor))
      && (IsBlock(n) ==> inside == stack + [Open(BEGIN)])
  {
    hide ShapeAll, IsCaseStatementStart, IsForLoopStart;
    OpeningPushes(ts, p, stack);
  }

  /** The END of a sealed block takes exactly the innermost BEGIN. */
  lemma {:induction false} BlockEndTakes(ts: seq<Token>, q: nat, stack: Stack)
    requires Rooted(stack) && MayCloseBlock(ts, q, Some(stack))
    ensures var now := AtEnd(ts, q, stack);
      && (now != None ==> Begins(now.value) < Begins(stack))
      && forall floor | 1 < floor && Level(stack, floor) :: now == Some(stack[..floor - 1])
  {
    assert stack[0] in stack;
    var i := Innermost(stack, BEGIN).value;
    assert CutAt(stack, BEGIN) == stack[..i];
    assert stack == stack[..i] + stack[i..] && stack[i] in stack[i..];
    assert forall floor: nat | Level(stack, floor) :: i + 1 == floor;
  }

  lemma {:induction false} KeptStays(ts: seq<Token>, p: nat, ns: seq<Node>, stack: Stack, floor: nat)
    requires 0 < p && Stands(ts, p, FlatAll(ns)) && ShapeAll(ns) && SealedAll(ts, p, ns, stack)
    requires Level(stack, floor) && KeptAll(ts, p, ns, stack, floor)
    ensures var now := AfterAll(ts, p, ns, stack);
      now != None && Level(now.value, floor) && now.value[..floor] == stack[..floor]
    decreases ns
  {
    hide Flat, After, Kept, Sealed, Shape, Level;
    if ns != [] {
      StandsParts(ts, p, Flat(ns[0]), FlatAll(ns[1..]));
      KeptNodeStays(ts, p, ns[0], stack, floor);
      KeptStays(ts, p + |Flat(ns[0])|, ns[1..], After(ts, p, ns[0], stack).value, floor);
    }
  }

  lemma {:induction false} KeptNodeStays(ts: seq<Token>, p: nat, n: Node, stack: Stack, floor: nat)
    requires 0 < p && Stands(ts, p, Flat(n)) && Shape(n) && Sealed(ts, p, n, stack)
    requires Level(stack, floor) && Kept(ts, p, n, stack, floor)
    ensures var now := After(ts, p, n, stack);
      now != None && Level(now.value, floor) && now.value[..floor] == stack[..floor]
    decreases n
  {
    hide FlatAll, AfterAll, KeptAll, SealedAll, ShapeAll, AtEnd, Opening, MayCloseBlock, IsForLoopStart;
    if n.Bracket? {
      BracketParts(ts, p, n);
      OpeningLevel(ts, p, n, stack, floor);
      var inside := Opening(ts, p, stack);
      var low := if IsBlock(n) then |inside| else floor;
      KeptStays(ts, p + 1, n.inner, inside, low);
      var last := AfterAll(ts, p + 1, n.inner, inside).value;
      if IsBlock(n) {
        BlockEndTakes(ts, p + 1 + |FlatAll(n.inner)|, last);
        assert last[..low - 1] == last[..low][..low - 1] == stack;
      } else {
        LevelPrefix(After(ts, p, n, stack).value, last, floor);
      }
    } else if n.Stray? {
      StandsOne(ts, p, n.t);
      OpeningPushes(ts, p, stack);
    }
  }

  /** In sealed pieces no block is opened for good. */
  lemma {:induction false} NeverGrows(ts: seq<Token>, p: nat, ns: seq<Node>, stack: Stack)
    requires 0 < p && Stands(ts, p, FlatAll(ns)) && ShapeAll(ns) && SealedAll(ts, p, ns, stack) && Rooted(stack)
    ensures var now := AfterAll(ts, p, ns, stack);
      now != None ==> Rooted(now.value) && Begins(now.value) <= Begins(stack)
    decreases ns
  {
    hide Flat, After, Sealed, Shape, Rooted, Begins;
    if ns != [] {
      StandsParts(ts, p, Flat(ns[0]), FlatAll(ns[1..]));
      NodeNeverGrows(ts, p, ns[0], stack);
      match After(ts, p, ns[0], stack)
      case None =>
      case Some(now) => NeverGrows(ts, p + |Flat(ns[0])|, ns[1..], now);
    }
  }

  lemma {:induction false} NodeNeverGrows(ts: seq<Token>, p: nat, n: Node, stack: Stack)
    requires 0 < p && Stands(ts, p, Flat(n)) && Shape(n) && Sealed(ts, p, n, stack) && Rooted(stack)
    ensures var now := After(ts, p, n, stack); now != None ==> Rooted(now.value) && Begins(now.value) <= Begins(stack)
    decreases n
  {
    hide FlatAll, AfterAll, SealedAll, ShapeAll, AtEnd, Opening, MayCloseBlock, Begins;
    if n.Bracket? {
      BracketParts(ts, p, n);
      OpeningLevel(ts, p, n, stack, 0);
      var inside := Opening(ts, p, stack);
      NeverGrows(ts, p + 1, n.inner, inside);
      match AfterAll(ts, p + 1, n.inner, inside)
      case None =>
      case Some(last) => EndTakes(ts, p, n, stack, last);
    } else if n.Stray? {
      StandsOne(ts, p, n.t);
      StrayOpensNoBlock(ts, p, stack);
    }
  }

  lemma {:induction false} StrayOpensNoBlock(ts: seq<Token>, p: nat, stack: Stack)
    requires 0 < p < |ts| && IsCloser(ts[p].key) && Rooted(stack)
    ensures Rooted(Opening(ts, p, stack)) && Begins(Opening(ts, p, stack)) == Begins(stack)
  {
    OpeningPushes(ts, p, stack);
  }

  /** The END of a bracket whose body has not opened a block for good. */
  lemma {:induction false} EndTakes(ts: seq<Token>, p: nat, n: Node, stack: Stack, last: Stack)
    requires 0 < p && Stands(ts, p, Flat(n)) && n.Bracket? && Rooted(last)
    requires AfterAll(ts, p + 1, n.inner, Opening(ts, p, stack)) == Some(last)
    requires IsBlock(n) ==> MayCloseBlock(ts, p + 1 + |FlatAll(n.inner)|, Some(last))
    ensures var now := After(ts, p, n, stack);
      now != None ==>
        && Rooted(now.value) && now.value <= last
        && Begins(now.value) <= Begins(last) - if IsBlock(n) then 1 else 0
  {
    hide FlatAll, AfterAll, AtEnd, Opening, MayCloseBlock, Begins;
    var q := p + 1 + |FlatAll(n.inner)|;
    match AtEnd(ts, q, last)
    case None =>
    case Some(now) =>
      EndKeepsRoot(ts, q, last);
      PrefixBegins(now, last);
      if IsBlock(n) {
        BlockEndTakes(ts, q, last);
      }
  }

  /** Once an END has reached below the BEGIN of its block, a block is missing or the machine has
      stopped. */
  lemma {:induction false} LostIsMissed(ts: seq<Token>, p: nat, ns: seq<Node>, stack: Stack, floor: nat)
    requires 0 < p && Stands(ts, p, FlatAll(ns)) && ShapeAll(ns) && SealedAll(ts, p, ns, stack)
    requires Level(stack, floor) && !KeptAll(ts, p, ns, stack, floor)
    ensures var now := AfterAll(ts, p, ns, stack); now != None ==> Begins(now.value) < Begins(stack)
    decreases ns
  {
    hide Flat, After, Kept, Sealed, Shape, Level, Begins, Rooted;
    var q := p + |Flat(ns[0])|;
    StandsParts(ts, p, Flat(ns[0]), FlatAll(ns[1..]));
    match After(ts, p, ns[0], stack)
    case None =>
    case Some(now) =>
      if Kept(ts, p, ns[0], stack, floor) {
        KeptNodeStays(ts, p, ns[0], stack, floor);
        LostIsMissed(ts, q, ns[1..], now, floor);
        LevelBegins(stack, floor);
        LevelBegins(now, floor);
      } else {
        LostNodeIsMissed(ts, p, ns[0], stack, floor);
        LevelIsRooted(stack, floor);
        NodeNeverGrows(ts, p, ns[0], stack);
        NeverGrows(ts, q, ns[1..], now);
      }
  }

  lemma {:induction false} LevelIsRooted(stack: Stack, floor: nat)
    requires Level(stack, floor)
    ensures Rooted(stack)
  {
  }

  lemma {:induction false} LostNodeIsMissed(ts: seq<Token>, p: nat, n: Node, stack: Stack, floor: nat)
    requires 0 < p && Stands(ts, p, Flat(n)) && Shape(n) && Sealed(ts, p, n, stack)
    requires Level(stack, floor) && !Kept(ts, p, n, stack, floor)
    ensures var now := After(ts, p, n, stack); now != None ==> Begins(now.value) < Begins(stack)
    decreases n
  {
    hide FlatAll, AfterAll, KeptAll, SealedAll, ShapeAll, AtEnd, Opening, MayCloseBlock, Begins, Level;
    BracketParts(ts, p, n);
    LevelIsRooted(stack, floor);
    OpeningLevel(ts, p, n, stack, floor);
    var inside := Opening(ts, p, stack);
    var low := if IsBlock(n) then |inside| else floor;
    NeverGrows(ts, p + 1, n.inner, inside);
    match AfterAll(ts, p + 1, n.inner, inside)
    case None =>
    case Some(last) =>
      EndTakes(ts, p, n, stack, last);
      if !KeptAll(ts, p + 1, n.inner, inside, low) {
        LostIsMissed(ts, p + 1, n.inner, inside, low);
      } else {
        KeptStays(ts, p + 1, n.inner, inside, low);
        LowEnd(ts, p, n, stack, last, floor);
      }
  }

  /** The END of a bracket that is kept inside but not itself. */
  lemma {:induction false} LowEnd(ts: seq<Token>, p: nat, n: Node, stack: Stack, last: Stack, floor: nat)
    requires 0 < p && Stands(ts, p, Flat(n)) && Shape(n) && n.Bracket? && Level(stack, floor)
    requires n.open == ts[p] && (IsBlock(n) ==> ts[p - 1].key != END)
    requires AfterAll(ts, p + 1, n.inner, Opening(ts, p, stack)) == Some(last)
    requires IsBlock(n) ==> MayCloseBlock(ts, p + 1 + |FlatAll(n.inner)|, Some(last))
    requires var inside := Opening(ts, p, stack);
      var low := if IsBlock(n) then |inside| else floor;
      low <= |inside| && Level(last, low) && last[..low] == inside[..low]
    requires var now := After(ts, p, n, stack); now == None || |now.value| < floor
    ensures var now := After(ts, p, n, stack); now != None ==> Begins(now.value) < Begins(stack)
  {
    hide FlatAll, AfterAll, AtEnd, Opening, MayCloseBlock, Begins, ShapeAll;
    OpeningLevel(ts, p, n, stack, floor);
    if IsBlock(n) {
      BlockEndTakes(ts, p + 1 + |FlatAll(n.inner)|, last);
    } else {
      match After(ts, p, n, stack)
      case None =>
      case Some(now) =>
        LevelPrefix(now, last, floor);
        LevelBegins(last, floor);
        LevelBegins(stack, floor);
    }
  }

  /** When every inner block is opened by its BEGIN and may be closed by its END, the matcher finds the
      END of the body exactly when no END reaches below the BEGIN of its own block and the END of the body
      may close a block as well. */
  lemma {:induction false} SealedBodyIsFound(ts: seq<Token>, start: nat, b: nat, body: seq<Node>, end: Token)
    requires start <= |ts| && FirstBegin(ts, start) == Some(b) && end.key == END
    requires Stands(ts, b + 1, FlatAll(body) + [end]) && ShapeAll(body)
    requires SealedAll(ts, b + 1, body, [Open(BEGIN)])
    ensures
      var e, base := b + 1 + |FlatAll(body)|, [Open(BEGIN)];
      StopsAt(ts, b + 1, State(base, 0)) == Some(e) <==>
        KeptAll(ts, b + 1, body, base, 1) && MayCloseBlock(ts, e, AfterAll(ts, b + 1, body, base))
  {
    hide FlatAll, ShapeAll, AfterAll, StopsAt, FirstBegin, KeptAll, SealedAll, Begins;
    var base := [Open(BEGIN)];
    MatcherFindsEnd(ts, start, b, body, end);
    StandsParts(ts, b + 1, FlatAll(body), [end]);
    if KeptAll(ts, b + 1, body, base, 1) {
      KeptStays(ts, b + 1, body, base, 1);
    } else {
      LostIsMissed(ts, b + 1, body, base, 1);
      NeverGrows(ts, b + 1, body, base);
      OneBegin();
      match AfterAll(ts, b + 1, body, base)
      case None =>
      case Some(now) => RootedHasBegin(now);
    }
  }

  lemma {:induction false} OneBegin()
    ensures Begins([Open(BEGIN)]) == 1
  {
  }

  lemma {:induction false} RootedHasBegin(stack: Stack)
    requires Rooted(stack)
    ensures Begins(stack) > 0
  {
    assert stack[0] in stack;
  }

  // ----- bodies whose brackets are read as what they are -----

  /** Every keyword is read as what it is: a CASE counts as an expression only where it is one, inside a
      CASE expression there are no other brackets and no stray keywords, and no closer stands behind the
      END of an expression or a block.  Nothing is asked of FOR: it may be taken for a loop or not. */
  predicate Tidy(ts: seq<Token>, p: nat, n: Node, scalar: bool)
    requires 0 < p && p + |Flat(n)| <= |ts|
    decreases n
  {
    match n
    case Text(_) => true
    case Group(_) => true
    case Stray(t) => !scalar && t.key != CASE && ts[p - 1].key != END
    case Bracket(open, inner, _) =>
      && ts[p - 1].key != END && (IsCompound(n) || !IsCloser(KeyAt(ts, p + |Flat(n)|)))
      && (if IsExpression(n) then scalar || !IsCaseStatementStart(ts, p)
          else !scalar && (open.key == CASE ==> IsCaseStatementStart(ts, p)))
      && TidyAll(ts, p + 1, inner, IsExpression(n))
  }

  predicate TidyAll(ts: seq<Token>, p: nat, ns: seq<Node>, scalar: bool)
    requires 0 < p && p + |FlatAll(ns)| <= |ts|
    decreases ns
  {
    ns != [] ==> Tidy(ts, p, ns[0], scalar) && TidyAll(ts, p + |Flat(ns[0])|, ns[1..], scalar)
  }

  lemma {:induction false} ExpressionOpens(ts: seq<Token>, p: nat, stack: Stack)
    requires 0 < p < |ts| && ts[p].key == CASE && ts[p - 1].key != END
    requires ExpressionCase in stack || !IsCaseStatementStart(ts, p)
    ensures Opening(ts, p, stack) == stack + [ExpressionCase] && ExpressionCase in stack + [ExpressionCase]
  {
    assert (stack + [ExpressionCase])[|stack|] == ExpressionCase;
  }

  lemma {:induction false} ExpressionCloses(ts: seq<Token>, q: nat, stack: Stack)
    requires !IsCloser(KeyAt(ts, q + 1))
    ensures AtEnd(ts, q, stack + [ExpressionCase]) == Some(stack)
  {
    var inside := stack + [ExpressionCase];
    assert inside[|stack|] == ExpressionCase && inside[..|stack|] == stack;
  }

  /** A tidy CASE expression leaves the stack as it was. */
  lemma {:induction false} ExpressionIsClean(ts: seq<Token>, p: nat, n: Node, stack: Stack, scalar: bool)
    requires IsExpression(n) && 0 < p && Stands(ts, p, Flat(n)) && Shape(n) && Tidy(ts, p, n, scalar)
    requires scalar ==> ExpressionCase in stack
    ensures Sealed(ts, p, n, stack) && After(ts, p, n, stack) == Some(stack)
    decreases n, 1
  {
    hide FlatAll, AfterAll, SealedAll, ShapeAll, TidyAll, AtEnd, Opening, IsCaseStatementStart;
    BracketParts(ts, p, n);
    ExpressionOpens(ts, p, stack);
    ScalarsAreClean(ts, p + 1, n.inner, stack + [ExpressionCase]);
    ExpressionCloses(ts, p + 1 + |FlatAll(n.inner)|, stack);
  }

  lemma {:induction false} ScalarsAreClean(ts: seq<Token>, p: nat, ns: seq<Node>, stack: Stack)
    requires 0 < p && Stands(ts, p, FlatAll(ns)) && ShapeAll(ns) && TidyAll(ts, p, ns, true) && ExpressionCase in stack
    ensures SealedAll(ts, p, ns, stack) && AfterAll(ts, p, ns, stack) == Some(stack)
    decreases ns
  {
    hide Flat, IsCaseStatementStart, AtEnd, Opening, IsText, IsGroup, IsCompound, IsBlock, IsExpression;
    if ns != [] {
      StandsParts(ts, p, Flat(ns[0]), FlatAll(ns[1..]));
      if ns[0].Bracket? {
        ScalarBracket(ts, p, ns[0]);
        ExpressionIsClean(ts, p, ns[0], stack, true);
      }
      ScalarsAreClean(ts, p + |Flat(ns[0])|, ns[1..], stack);
    }
  }

  lemma {:induction false} ScalarBracket(ts: seq<Token>, p: nat, n: Node)
    requires n.Bracket? && 0 < p && p + |Flat(n)| <= |ts| && Tidy(ts, p, n, true)
    ensures IsExpression(n)
  {
  }

  /** What an opening keyword at p pushes if it is read as what it is: nothing for a FOR that is not taken
      for a loop. */
  function Pushed(ts: seq<Token>, p: nat, k: Key): Stack {
    if k == FOR && p < |ts| && !IsForLoopStart(ts, p) then [] else [Open(k)]
  }

  lemma {:induction false} OpensAsItIs(ts: seq<Token>, p: nat, n: Node, stack: Stack)
    requires 0 < p && Stands(ts, p, Flat(n)) && Shape(n) && Tidy(ts, p, n, false) && ExpressionCase !in stack
    requires n.Stray? || (n.Bracket? && !IsExpression(n))
    ensures p < |ts| && Opening(ts, p, stack) == stack + Pushed(ts, p, Flat(n)[0].key)
  {
    hide FlatAll, ShapeAll, TidyAll, IsForLoopStart, IsCaseStatementStart;
    if n.Bracket? {
      BracketParts(ts, p, n);
    } else {
      StandsOne(ts, p, n.t);
    }
  }

  lemma {:induction false} TidyIsSealed(ts: seq<Token>, p: nat, ns: seq<Node>, stack: Stack)
    requires 0 < p && Stands(ts, p, FlatAll(ns)) && ShapeAll(ns) && TidyAll(ts, p, ns, false)
    requires ExpressionCase !in stack
    ensures SealedAll(ts, p, ns, stack)
    ensures var now := AfterAll(ts, p, ns, stack); now != None ==> ExpressionCase !in now.value
    decreases ns
  {
    hide Flat, After, Sealed, Shape, Tidy;
    if ns != [] {
      StandsParts(ts, p, Flat(ns[0]), FlatAll(ns[1..]));
      TidyNodeIsSealed(ts, p, ns[0], stack);
      match After(ts, p, ns[0], stack)
      case None =>
      case Some(now) => TidyIsSealed(ts, p + |Flat(ns[0])|, ns[1..], now);
    }
  }

  lemma {:induction false} NoExpression(stack: Stack)
    requires ExpressionCase !in stack
    ensures !TopIsExpression(stack) && forall now | now <= stack :: ExpressionCase !in now
  {
  }

  lemma {:induction false} TidyNodeIsSealed(ts: seq<Token>, p: nat, n: Node, stack: Stack)
    requires 0 < p && Stands(ts, p, Flat(n)) && Shape(n) && Tidy(ts, p, n, false) && ExpressionCase !in stack
    ensures Sealed(ts, p, n, stack)
    ensures var now := After(ts, p, n, stack); now != None ==> ExpressionCase !in now.value
    decreases n
  {
    hide FlatAll, AfterAll, SealedAll, ShapeAll, TidyAll, AtEnd, Opening, IsCaseStatementStart, IsForLoopStart;
    if n.Bracket? && IsExpression(n) {
      ExpressionIsClean(ts, p, n, stack, false);
    } else if n.Bracket? {
      BracketParts(ts, p, n);
      OpensAsItIs(ts, p, n, stack);
      assert ExpressionCase !in Opening(ts, p, stack);
      hide Pushed, Stands, TopIsExpression;
      TidyIsSealed(ts, p + 1, n.inner, Opening(ts, p, stack));
      match AfterAll(ts, p + 1, n.inner, Opening(ts, p, stack))
      case None =>
      case Some(last) => NoExpression(last);
    } else if n.Stray? {
      OpensAsItIs(ts, p, n, stack);
    }
  }

  /** The matcher finds the END of a tidy body exactly when no END reaches below the BEGIN of its own
      block and no closer follows. */
  lemma {:induction false} TidyBodyIsFound(ts: seq<Token>, start: nat, b: nat, body: seq<Node>, end: Token)
    requires start <= |ts| && FirstBegin(ts, start) == Some(b) && end.key == END
    requires Stands(ts, b + 1, FlatAll(body) + [end]) && ShapeAll(body) && TidyAll(ts, b + 1, body, false)
    ensures
      var e := b + 1 + |FlatAll(body)|;
      StopsAt(ts, b + 1, State([Open(BEGIN)], 0)) == Some(e) <==>
        KeptAll(ts, b + 1, body, [Open(BEGIN)], 1) && !IsCloser(KeyAt(ts, e + 1))
  {
    hide FlatAll, ShapeAll, AfterAll, StopsAt, FirstBegin, KeptAll, SealedAll, TidyAll;
    StandsParts(ts, b + 1, FlatAll(body), [end]);
    TidyIsSealed(ts, b + 1, body, [Open(BEGIN)]);
    SealedBodyIsFound(ts, start, b, body, end);
  }

  /** All FOR loops of n are taken for loops, or none is, and then no other FOR of n is either. */
  predicate Uniform(ts: seq<Token>, p: nat, n: Node, taken: bool)
    requires p + |Flat(n)| <= |ts|
    decreases n
  {
    match n
    case Stray(t) => t.key == FOR && !taken ==> !IsForLoopStart(ts, p)
    case Bracket(open, inner, _) =>
      (open.key == FOR ==> IsForLoopStart(ts, p) == taken) && UniformAll(ts, p + 1, inner, taken)
    case _ => true
  }

  predicate UniformAll(ts: seq<Token>, p: nat, ns: seq<Node>, taken: bool)
    requires p + |FlatAll(ns)| <= |ts|
    decreases ns
  {
    ns != [] ==> Uniform(ts, p, ns[0], taken) && UniformAll(ts, p + |Flat(ns[0])|, ns[1..], taken)
  }

  ghost predicate FreeOf(stack: Stack, taken: bool) {
    ExpressionCase !in stack && (taken || Open(FOR) !in stack)
  }

  /** What a tidy body leaves: strays only. */
  ghost predicate Leaves(now: Option<Stack>, stack: Stack, g: Stack, taken: bool) {
    now == Some(stack + g) && FreeOf(g, taken) && Open(BEGIN) !in g
  }

  lemma {:induction false} CutStays(base: Stack, local: Stack, k: Key)
    requires Open(k) in local || Open(k) !in base
    ensures CutAt(base + local, k) == base + CutAt(local, k)
  {
    var all := base + local;
    if Open(k) in local {
      var i := Innermost(local, k).value;
      assert all[|base| + i] == Open(k);
      assert forall j | |base| + i < j < |all| :: all[j] == local[j - |base|];
      assert Innermost(all, k) == Some(|base| + i);
      assert all[..|base| + i] == base + local[..i];
    }
  }

  lemma {:induction false} CutOwn(below: Stack, k: Key, g: Stack)
    requires Open(k) !in g
    ensures CutAt(below + [Open(k)] + g, k) == below
  {
    var all := below + [Open(k)] + g;
    assert all[|below|] == Open(k);
    assert forall i | |below| < i < |all| :: all[i] == g[i - |below| - 1];
    assert Innermost(all, k) == Some(|below|);
    assert all[..|below|] == below;
  }

  lemma {:induction false} UniformIsKept(ts: seq<Token>, p: nat, ns: seq<Node>, taken: bool, stack: Stack, floor: nat)
      returns (g: Stack)
    requires 0 < p && Stands(ts, p, FlatAll(ns)) && ShapeAll(ns) && TidyAll(ts, p, ns, false)
    requires UniformAll(ts, p, ns, taken) && FreeOf(stack, taken) && 0 < floor <= |stack|
    ensures KeptAll(ts, p, ns, stack, floor) && Leaves(AfterAll(ts, p, ns, stack), stack, g, taken)
    decreases ns
  {
    hide Flat, Shape, Tidy, Uniform, Kept, After;
    if ns == [] {
      g := [];
      assert stack + g == stack;
    } else {
      StandsParts(ts, p, Flat(ns[0]), FlatAll(ns[1..]));
      var g1 := UniformNodeIsKept(ts, p, ns[0], taken, stack, floor);
      var g2 := UniformIsKept(ts, p + |Flat(ns[0])|, ns[1..], taken, stack + g1, floor);
      g := g1 + g2;
      assert stack + g1 + g2 == stack + g;
    }
  }

  lemma {:induction false} UniformNodeIsKept(ts: seq<Token>, p: nat, n: Node, taken: bool, stack: Stack, floor: nat)
      returns (g: Stack)
    requires 0 < p && Stands(ts, p, Flat(n)) && Shape(n) && Tidy(ts, p, n, false)
    requires Uniform(ts, p, n, taken) && FreeOf(stack, taken) && 0 < floor <= |stack|
    ensures Kept(ts, p, n, stack, floor) && Leaves(After(ts, p, n, stack), stack, g, taken)
    decreases n, 2
  {
    hide FlatAll, AfterAll, KeptAll, ShapeAll, TidyAll, UniformAll, AtEnd, Opening;
    hide IsCaseStatementStart, IsForLoopStart, Stands, IsBlock, IsCompound, IsExpression;
    g := [];
    assert stack + g == stack;
    if n.Bracket? && IsExpression(n) {
      ExpressionIsClean(ts, p, n, stack, false);
      ExpressionIsKept(ts, p, n, stack, floor, false);
    } else if n.Bracket? {
      g := UniformBracketIsKept(ts, p, n, taken, stack, floor);
    } else if n.Stray? {
      OpensAsItIs(ts, p, n, stack);
      g := Pushed(ts, p, n.t.key);
    }
  }

  lemma {:induction false} UniformBracketIsKept(ts: seq<Token>, p: nat, n: Node, taken: bool, stack: Stack, floor: nat)
      returns (g: Stack)
    requires n.Bracket? && !IsExpression(n) && 0 < p && Stands(ts, p, Flat(n)) && Shape(n) && Tidy(ts, p, n, false)
    requires Uniform(ts, p, n, taken) && FreeOf(stack, taken) && 0 < floor <= |stack|
    ensures Kept(ts, p, n, stack, floor) && Leaves(After(ts, p, n, stack), stack, g, taken)
    decreases n, 1
  {
    hide FlatAll, AfterAll, KeptAll, ShapeAll, TidyAll, UniformAll, AtEnd, Opening;
    hide IsCaseStatementStart, IsForLoopStart;
    BracketParts(ts, p, n);
    OpensAsItIs(ts, p, n, stack);
    var own := Pushed(ts, p, n.open.key);
    var low := if IsBlock(n) then |stack + own| else floor;
    assert FreeOf(stack + own, taken);
    var g1 := UniformIsKept(ts, p + 1, n.inner, taken, stack + own, low);
    g := UniformEnd(ts, p + 1 + |FlatAll(n.inner)|, n.open.key, taken, stack, own, g1);
  }

  /** The END of a compound that meets its own frame, or none. */
  lemma {:induction false} CompoundEnds(ts: seq<Token>, q: nat, k: Key, stack: Stack, local: Stack)
    requires IsCloser(k) && KeyAt(ts, q + 1) == k && stack != []
    requires Open(k) in local || Open(k) !in stack
    ensures AtEnd(ts, q, stack + local) == Some(stack + CutAt(local, k))
  {
    hide CutAt;
    CutStays(stack, local, k);
  }

  /** The END of a compound takes the frame of the compound and everything above it. */
  lemma {:induction false} OwnEnds(ts: seq<Token>, q: nat, k: Key, stack: Stack, g: Stack)
    requires IsCloser(k) && KeyAt(ts, q + 1) == k && stack != [] && Open(k) !in g
    ensures AtEnd(ts, q, stack + [Open(k)] + g) == Some(stack)
  {
    hide CutAt;
    CutOwn(stack, k, g);
  }

  /** The END of a block that meets its own BEGIN. */
  lemma {:induction false} BlockEnds(ts: seq<Token>, q: nat, stack: Stack, g: Stack)
    requires !IsCloser(KeyAt(ts, q + 1)) && stack != [] && Open(BEGIN) !in g && ExpressionCase !in g
    ensures AtEnd(ts, q, stack + [Open(BEGIN)] + g) == Some(stack)
  {
    hide CutAt;
    var all := stack + [Open(BEGIN)] + g;
    assert all[|all| - 1] == if g == [] then Open(BEGIN) else g[|g| - 1];
    CutOwn(stack, BEGIN, g);
  }

  lemma {:induction false} UniformEnd(ts: seq<Token>, q: nat, k: Key, taken: bool, stack: Stack, own: Stack,
                                      g1: Stack) returns (g: Stack)
    requires own == [Open(k)] || (own == [] && k == FOR && !taken)
    requires if IsCloser(k) then KeyAt(ts, q + 1) == k else k == BEGIN && !IsCloser(KeyAt(ts, q + 1))
    requires stack != [] && FreeOf(stack, taken) && FreeOf(own, taken) && FreeOf(g1, taken) && Open(BEGIN) !in g1
    ensures Leaves(AtEnd(ts, q, stack + own + g1), stack, g, taken)
  {
    hide AtEnd, CutAt, Innermost, KeyAt;
    assert stack + own + g1 == stack + (own + g1);
    if k == BEGIN {
      g := [];
      BlockEnds(ts, q, stack, g1);
      assert stack + g == stack;
    } else {
      assert own != [] ==> (own + g1)[0] == Open(k);
      CompoundEnds(ts, q, k, stack, own + g1);
      g := CutAt(own + g1, k);
      assert g == (own + g1)[..|g|];
    }
  }

  /** Inside a tidy CASE expression no END reaches anywhere. */
  lemma {:induction false} ExpressionIsKept(ts: seq<Token>, p: nat, n: Node, stack: Stack, floor: nat, scalar: bool)
    requires IsExpression(n) && 0 < p && Stands(ts, p, Flat(n)) && Shape(n) && Tidy(ts, p, n, scalar)
    requires (scalar ==> ExpressionCase in stack) && floor <= |stack|
    ensures Kept(ts, p, n, stack, floor)
    decreases n, 1
  {
    hide FlatAll, AfterAll, KeptAll, ShapeAll, TidyAll, AtEnd, Opening, IsCaseStatementStart;
    BracketParts(ts, p, n);
    ExpressionOpens(ts, p, stack);
    ExpressionIsClean(ts, p, n, stack, scalar);
    ScalarsAreKept(ts, p + 1, n.inner, stack + [ExpressionCase], floor);
  }

  lemma {:induction false} ScalarsAreKept(ts: seq<Token>, p: nat, ns: seq<Node>, stack: Stack, floor: nat)
    requires 0 < p && Stands(ts, p, FlatAll(ns)) && ShapeAll(ns) && TidyAll(ts, p, ns, true)
    requires ExpressionCase in stack && floor <= |stack|
    ensures KeptAll(ts, p, ns, stack, floor)
    decreases ns
  {
    hide Flat, Opening, AtEnd, IsCaseStatementStart, IsText, IsGroup, IsCompound, IsExpression, IsBlock;
    if ns != [] {
      StandsParts(ts, p, Flat(ns[0]), FlatAll(ns[1..]));
      if ns[0].Bracket? {
        ScalarBracket(ts, p, ns[0]);
        ExpressionIsClean(ts, p, ns[0], stack, true);
        ExpressionIsKept(ts, p, ns[0], stack, floor, true);
      }
      ScalarsAreKept(ts, p + |Flat(ns[0])|, ns[1..], stack, floor);
    }
  }

  /** When every FOR loop of a tidy body is taken for a loop, or no FOR of the body is, the matcher
      finds its END, whatever follows it except a closer. */
  lemma {:induction false} UniformBodyIsFound(ts: seq<Token>, start: nat, b: nat, body: seq<Node>, end: Token,
                                              taken: bool)
    requires start <= |ts| && FirstBegin(ts, start) == Some(b) && end.key == END
    requires Stands(ts, b + 1, FlatAll(body) + [end]) && ShapeAll(body) && TidyAll(ts, b + 1, body, false)
    requires UniformAll(ts, b + 1, body, taken)
    ensures var e := b + 1 + |FlatAll(body)|;
      StopsAt(ts, b + 1, State([Open(BEGIN)], 0)) == Some(e) <==> !IsCloser(KeyAt(ts, e + 1))
  {
    hide FlatAll, ShapeAll, TidyAll, UniformAll, KeptAll, AfterAll, StopsAt, FirstBegin;
    TidyBodyIsFound(ts, start, b, body, end);
    StandsParts(ts, b + 1, FlatAll(body), [end]);
    var _ := UniformIsKept(ts, b + 1, body, taken, [Open(BEGIN)], 1);
  }

  // ----- bodies with misread brackets -----

  /** The keyword at p is read as what it is: a CASE as a statement, a FOR as a loop. */
  predicate Recognised(ts: seq<Token>, p: nat, k: Key)
    requires p < |ts|
  {
    (k == CASE ==> IsCaseStatementStart(ts, p)) && (k == FOR ==> IsForLoopStart(ts, p))
  }

  /** The keywords of the recognised compounds around the pieces of n. */
  function Inside(ts: seq<Token>, p: nat, n: Node, around: set<Key>): set<Key>
    requires n.Bracket? && p < |ts|
  {
    if IsCompound(n) && Recognised(ts, p, n.open.key) then around + {n.open.key} else around
  }

  /** CASE statements and FOR loops may be recognised or not, but one that is not stands in no recognised
      one.  A closer may stand behind the END of a CASE expression, but only outside every CASE statement and
      compound of its own kind.  No stray keyword opens anything. */
  predicate Calm(ts: seq<Token>, p: nat, n: Node, around: set<Key>, scalar: bool)
    requires 0 < p && p + |Flat(n)| <= |ts|
    decreases n
  {
    match n
    case Text(_) => true
    case Group(_) => true
    case Stray(t) => ts[p - 1].key == END || (t.key == FOR && !IsForLoopStart(ts, p))
    case Bracket(open, inner, _) =>
      var following := KeyAt(ts, p + |Flat(n)|);
      && ts[p - 1].key != END
      && (IsExpression(n) ==>
            && (scalar || !IsCaseStatementStart(ts, p))
            && (IsCloser(following) ==> following !in around && CASE !in around))
      && (!IsExpression(n) ==>
            && !scalar && (IsBlock(n) ==> !IsCloser(following))
            && (IsCompound(n) && !Recognised(ts, p, open.key) ==> open.key !in around))
      && CalmAll(ts, p + 1, inner, Inside(ts, p, n, around), IsExpression(n))
  }

  predicate CalmAll(ts: seq<Token>, p: nat, ns: seq<Node>, around: set<Key>, scalar: bool)
    requires 0 < p && p + |FlatAll(ns)| <= |ts|
    decreases ns
  {
    ns != [] ==> Calm(ts, p, ns[0], around, scalar) && CalmAll(ts, p + |Flat(ns[0])|, ns[1..], around, scalar)
  }

  /** An unrecognised CASE, or a closer behind the END of a CASE expression, stands in n outside every
      recognised compound. */
  predicate Exposed(ts: seq<Token>, p: nat, n: Node)
    requires 0 < p && p + |Flat(n)| <= |ts|
    decreases n
  {
    n.Bracket? &&
    if IsCompound(n) then
      !Recognised(ts, p, n.open.key) && (n.open.key == CASE || ExposedAll(ts, p + 1, n.inner))
    else
      (IsExpression(n) && IsCloser(KeyAt(ts, p + |Flat(n)|))) || ExposedAll(ts, p + 1, n.inner)
  }

  predicate ExposedAll(ts: seq<Token>, p: nat, ns: seq<Node>)
    requires 0 < p && p + |FlatAll(ns)| <= |ts|
    decreases ns
  {
    ns != [] && (Exposed(ts, p, ns[0]) || ExposedAll(ts, p + |Flat(ns[0])|, ns[1..]))
  }

  /** Only the given compounds are open. */
  ghost predicate Known(stack: Stack, around: set<Key>) {
    forall k | Open(k) in stack :: k == BEGIN || k in around
  }

  /** What calm pieces leave: CASE expressions, and blocks that could not be closed for them. */
  ghost predicate Debris(g: Stack, scalar: bool) {
    forall f | f in g :: f == ExpressionCase || (!scalar && f == Open(BEGIN))
  }

  lemma {:induction false} DebrisJoins(a: Stack, b: Stack, stack: Stack, around: set<Key>, scalar: bool)
    requires Debris(a, scalar) && Debris(b, scalar)
    ensures Debris(a + b, scalar) && stack + a + b == stack + (a + b)
    ensures Known(stack, around) ==> Known(stack + a, around)
    ensures Open(CASE) in stack + a ==> Open(CASE) in stack
  {
  }

  // ----- CASE expressions -----

  lemma {:induction false} CutNothing(stack: Stack, k: Key)
    requires Open(k) !in stack
    ensures CutAt(stack, k) == stack
  {
  }

  /** The END of a CASE expression with debris g in it. */
  lemma {:induction false} ExpressionEnds(ts: seq<Token>, q: nat, stack: Stack, g: Stack)
    requires Debris(g, true)
    ensures !IsCloser(KeyAt(ts, q + 1)) ==> AtEnd(ts, q, stack + [ExpressionCase] + g) == Some(stack + g)
    ensures var k := KeyAt(ts, q + 1);
      IsCloser(k) && Open(k) !in stack ==>
        AtEnd(ts, q, stack + [ExpressionCase] + g) == Some(stack + ([ExpressionCase] + g))
  {
    hide CutAt, KeyAt;
    var all := stack + [ExpressionCase] + g;
    assert all == stack + ([ExpressionCase] + g);
    assert forall i | 0 <= i < |g| :: g[i] in g;
    assert all[|all| - 1] == ExpressionCase && all[..|all| - 1] == stack + g;
    var k := KeyAt(ts, q + 1);
    if Open(k) !in stack {
      CutNothing(all, k);
    }
  }

  lemma {:induction false} ExpressionLeaves(
      ts: seq<Token>, p: nat, n: Node, stack: Stack, around: set<Key>, scalar: bool) returns (g: Stack)
    requires IsExpression(n) && 0 < p && Stands(ts, p, Flat(n)) && Shape(n) && Calm(ts, p, n, around, scalar)
    requires Known(stack, around) && (scalar ==> ExpressionCase in stack)
    ensures After(ts, p, n, stack) == Some(stack + g) && Debris(g, true)
    ensures g == [] <==> !Exposed(ts, p, n)
    ensures CASE in around ==> g == []
    decreases n, 1
  {
    hide FlatAll, AfterAll, ShapeAll, CalmAll, ExposedAll, AtEnd, Opening, IsCaseStatementStart, Debris;
    BracketParts(ts, p, n);
    ExpressionOpens(ts, p, stack);
    assert Known(stack + [ExpressionCase], around);
    g := ScalarsLeave(ts, p + 1, n.inner, stack + [ExpressionCase], around);
    ExpressionEnds(ts, p + 1 + |FlatAll(n.inner)|, stack, g);
    if IsCloser(KeyAt(ts, p + |Flat(n)|)) {
      OneExpression();
      DebrisJoins([ExpressionCase], g, stack, around, true);
      g := [ExpressionCase] + g;
    }
  }

  lemma {:induction false} OneExpression()
    ensures Debris([ExpressionCase], true) && Debris([ExpressionCase], false)
  {
  }

  lemma {:induction false} ScalarsLeave(
      ts: seq<Token>, p: nat, ns: seq<Node>, stack: Stack, around: set<Key>) returns (g: Stack)
    requires 0 < p && Stands(ts, p, FlatAll(ns)) && ShapeAll(ns) && CalmAll(ts, p, ns, around, true)
    requires Known(stack, around) && ExpressionCase in stack
    ensures AfterAll(ts, p, ns, stack) == Some(stack + g) && Debris(g, true)
    ensures g == [] <==> !ExposedAll(ts, p, ns)
    ensures CASE in around ==> g == []
    decreases ns
  {
    hide Flat, After, Shape, Calm, Exposed, Known, Debris;
    if ns == [] {
      g := [];
      assert stack + g == stack;
      NoDebris();
    } else {
      StandsParts(ts, p, Flat(ns[0]), FlatAll(ns[1..]));
      var g1 := ScalarLeaves(ts, p, ns[0], stack, around);
      DebrisJoins(g1, g1, stack, around, true);
      var g2 := ScalarsLeave(ts, p + |Flat(ns[0])|, ns[1..], stack + g1, around);
      DebrisJoins(g1, g2, stack, around, true);
      g := g1 + g2;
    }
  }

  lemma {:induction false} NoDebris()
    ensures Debris([], true) && Debris([], false)
  {
  }

  lemma {:induction false} ScalarLeaves(ts: seq<Token>, p: nat, n: Node, stack: Stack, around: set<Key>)
      returns (g: Stack)
    requires 0 < p && Stands(ts, p, Flat(n)) && Shape(n) && Calm(ts, p, n, around, true)
    requires Known(stack, around) && ExpressionCase in stack
    ensures After(ts, p, n, stack) == Some(stack + g) && Debris(g, true)
    ensures g == [] <==> !Exposed(ts, p, n)
    ensures CASE in around ==> g == []
    decreases n, 2
  {
    hide FlatAll, AfterAll, ShapeAll, CalmAll, ExposedAll, AtEnd, Known, Debris, IsText, IsGroup;
    g := [];
    NoDebris();
    assert stack + g == stack;
    if n.Bracket? {
      g := ExpressionLeaves(ts, p, n, stack, around, true);
    } else if n.Stray? {
      CalmStray(ts, p, n, stack, around, true);
    }
  }

  lemma {:induction false} CalmStray(ts: seq<Token>, p: nat, n: Node, stack: Stack, around: set<Key>, scalar: bool)
    requires n.Stray? && 0 < p && Stands(ts, p, Flat(n)) && Calm(ts, p, n, around, scalar)
    ensures After(ts, p, n, stack) == Some(stack) && !Exposed(ts, p, n)
  {
    StandsOne(ts, p, n.t);
  }

  // ----- statements -----

  /** A CASE statement is open only as long as no CASE expression is. */
  ghost predicate Clear(stack: Stack) {
    ExpressionCase in stack ==> Open(CASE) !in stack
  }

  /** What a calm piece may do to the stack. */
  ghost predicate LeavesDebris(now: Option<Stack>, stack: Stack, g: Stack, exposed: bool) {
    && now == Some(stack + g) && Debris(g, false)
    && (ExpressionCase !in stack ==> (g == [] <==> !exposed))
    && (Open(CASE) in stack ==> g == [])
  }

  lemma {:induction false} CalmLeaves(ts: seq<Token>, p: nat, ns: seq<Node>, stack: Stack, around: set<Key>)
      returns (g: Stack)
    requires 0 < p && Stands(ts, p, FlatAll(ns)) && ShapeAll(ns) && CalmAll(ts, p, ns, around, false)
    requires Known(stack, around) && Clear(stack) && stack != []
    ensures LeavesDebris(AfterAll(ts, p, ns, stack), stack, g, ExposedAll(ts, p, ns))
    decreases ns
  {
    hide Flat, After, Shape, Calm, Exposed, Known, Debris;
    if ns == [] {
      g := [];
      assert stack + g == stack;
      NoDebris();
    } else {
      StandsParts(ts, p, Flat(ns[0]), FlatAll(ns[1..]));
      var g1 := CalmNodeLeaves(ts, p, ns[0], stack, around);
      DebrisJoins(g1, g1, stack, around, false);
      if g1 == [] {
        assert stack + g1 == stack;
      }
      var g2 := CalmLeaves(ts, p + |Flat(ns[0])|, ns[1..], stack + g1, around);
      DebrisJoins(g1, g2, stack, around, false);
      g := g1 + g2;
    }
  }

  lemma {:induction false} CalmNodeLeaves(ts: seq<Token>, p: nat, n: Node, stack: Stack, around: set<Key>)
      returns (g: Stack)
    requires 0 < p && Stands(ts, p, Flat(n)) && Shape(n) && Calm(ts, p, n, around, false)
    requires Known(stack, around) && Clear(stack) && stack != []
    ensures LeavesDebris(After(ts, p, n, stack), stack, g, Exposed(ts, p, n))
    decreases n, 2
  {
    hide FlatAll, AfterAll, ShapeAll, CalmAll, ExposedAll, AtEnd, Opening;
    hide IsText, IsGroup, IsBlock, IsExpression, IsCompound;
    g := [];
    assert stack + g == stack;
    if n.Bracket? && IsExpression(n) {
      g := ExpressionLeaves(ts, p, n, stack, around, false);
    } else if n.Bracket? && IsBlock(n) {
      g := CalmBlockLeaves(ts, p, n, stack, around);
    } else if n.Bracket? {
      g := CalmCompoundLeaves(ts, p, n, stack, around);
    } else if n.Stray? {
      CalmStray(ts, p, n, stack, around, false);
    }
  }

  lemma {:induction false} CalmBlockLeaves(ts: seq<Token>, p: nat, n: Node, stack: Stack, around: set<Key>)
      returns (g: Stack)
    requires IsBlock(n) && 0 < p && Stands(ts, p, Flat(n)) && Shape(n) && Calm(ts, p, n, around, false)
    requires Known(stack, around) && Clear(stack) && stack != []
    ensures LeavesDebris(After(ts, p, n, stack), stack, g, Exposed(ts, p, n))
    decreases n, 1
  {
    hide FlatAll, AfterAll, ShapeAll, CalmAll, ExposedAll, AtEnd, Debris;
    BracketParts(ts, p, n);
    assert Opening(ts, p, stack) == stack + [Open(BEGIN)];
    var g1 := CalmLeaves(ts, p + 1, n.inner, stack + [Open(BEGIN)], around);
    g := CalmBlockEnds(ts, p + 1 + |FlatAll(n.inner)|, stack, g1);
  }

  /** The END of a block takes its BEGIN if there is no debris, and the last piece of debris if there is. */
  lemma {:induction false} CalmBlockEnds(ts: seq<Token>, q: nat, stack: Stack, g1: Stack) returns (g: Stack)
    requires !IsCloser(KeyAt(ts, q + 1)) && stack != [] && Debris(g1, false)
    ensures AtEnd(ts, q, stack + [Open(BEGIN)] + g1) == Some(stack + g) && Debris(g, false)
    ensures g == [] <==> g1 == []
  {
    hide CutAt;
    var all := stack + [Open(BEGIN)] + g1;
    if g1 == [] {
      g := [];
      BlockEnds(ts, q, stack, []);
      assert stack + g == stack && all == stack + [Open(BEGIN)] + [];
    } else {
      var last := g1[|g1| - 1];
      g := [Open(BEGIN)] + g1[..|g1| - 1];
      assert all[|all| - 1] == last && last in g1;
      assert all[..|all| - 1] == stack + g;
      if last == Open(BEGIN) {
        assert all == (stack + g) + [Open(BEGIN)] + [];
        CutOwn(stack + g, BEGIN, []);
      }
      assert forall f | f in g :: f == Open(BEGIN) || f in g1;
    }
  }

  lemma {:induction false} CalmCompoundLeaves(ts: seq<Token>, p: nat, n: Node, stack: Stack, around: set<Key>)
      returns (g: Stack)
    requires IsCompound(n) && 0 < p && Stands(ts, p, Flat(n)) && Shape(n) && Calm(ts, p, n, around, false)
    requires Known(stack, around) && Clear(stack) && stack != []
    ensures LeavesDebris(After(ts, p, n, stack), stack, g, Exposed(ts, p, n))
    decreases n, 1
  {
    hide FlatAll, AfterAll, ShapeAll, CalmAll, ExposedAll, AtEnd, Opening, Debris, IsCaseStatementStart, IsForLoopStart;
    BracketParts(ts, p, n);
    var k, q := n.open.key, p + 1 + |FlatAll(n.inner)|;
    CompoundOpens(ts, p, k, stack);
    var own := Own(ts, p, k, stack);
    InsideCompound(ts, p, n, stack, around);
    var g1 := CalmLeaves(ts, p + 1, n.inner, stack + own, Inside(ts, p, n, around));
    g := CalmCompoundEnds(ts, q, k, stack, own, g1);
  }

  /** What the opening keyword of a compound pushes. */
  function Own(ts: seq<Token>, p: nat, k: Key, stack: Stack): Stack
    requires p < |ts|
  {
    if k == CASE && (ExpressionCase in stack || !IsCaseStatementStart(ts, p)) then [ExpressionCase]
    else if k == FOR && !IsForLoopStart(ts, p) then []
    else [Open(k)]
  }

  lemma {:induction false} CompoundOpens(ts: seq<Token>, p: nat, k: Key, stack: Stack)
    requires 0 < p < |ts| && ts[p].key == k && ts[p - 1].key != END
    ensures Opening(ts, p, stack) == stack + Own(ts, p, k, stack)
  {
    hide IsCaseStatementStart, IsForLoopStart;
    assert stack + [] == stack;
  }

  lemma {:induction false} InsideCompound(ts: seq<Token>, p: nat, n: Node, stack: Stack, around: set<Key>)
    requires IsCompound(n) && p < |ts| && Known(stack, around) && Clear(stack)
    requires Recognised(ts, p, n.open.key) || n.open.key !in around
    ensures var inside, own := Inside(ts, p, n, around), Own(ts, p, n.open.key, stack);
      && Known(stack + own, inside) && Clear(stack + own)
      && (own == [Open(n.open.key)] || (Open(n.open.key) !in stack && Debris(own, false)))
  {
    hide IsCaseStatementStart, IsForLoopStart;
  }

  /** The END of a compound takes its frame and the debris above it, or nothing at all. */
  lemma {:induction false} CalmCompoundEnds(ts: seq<Token>, q: nat, k: Key, stack: Stack, own: Stack,
                                            g1: Stack) returns (g: Stack)
    requires IsCloser(k) && KeyAt(ts, q + 1) == k && stack != [] && Debris(g1, false)
    requires own == [Open(k)] || (Open(k) !in stack && Debris(own, false))
    ensures AtEnd(ts, q, stack + own + g1) == Some(stack + g) && Debris(g, false)
    ensures g == if own == [Open(k)] then [] else own + g1
  {
    hide AtEnd, CutAt;
    if own == [Open(k)] {
      g := [];
      OwnEnds(ts, q, k, stack, g1);
      assert stack + g == stack;
    } else {
      g := own + g1;
      assert stack + own + g1 == stack + g;
      CompoundEnds(ts, q, k, stack, g);
      CutNothing(g, k);
    }
  }

  /** The matcher finds the END of a calm body exactly when nothing in it is exposed and no closer
      follows: a CASE statement that is not recognised, or a closer behind a CASE expression, does no harm
      inside a recognised compound, whose END takes it away, and hides the END everywhere else. */
  lemma {:induction false} CalmBodyIsFound(ts: seq<Token>, start: nat, b: nat, body: seq<Node>, end: Token)
    requires start <= |ts| && FirstBegin(ts, start) == Some(b) && end.key == END
    requires Stands(ts, b + 1, FlatAll(body) + [end]) && ShapeAll(body) && CalmAll(ts, b + 1, body, {}, false)
    ensures
      var e := b + 1 + |FlatAll(body)|;
      StopsAt(ts, b + 1, State([Open(BEGIN)], 0)) == Some(e) <==>
        !ExposedAll(ts, b + 1, body) && !IsCloser(KeyAt(ts, e + 1))
  {
    hide FlatAll, ShapeAll, AfterAll, StopsAt, FirstBegin, CalmAll, ExposedAll, Alone;
    MatcherFindsEnd(ts, start, b, body, end);
    StandsParts(ts, b + 1, FlatAll(body), [end]);
    var g := CalmLeaves(ts, b + 1, body, [Open(BEGIN)], {});
    DebrisIsNotAlone(g);
  }

  lemma {:induction false} DebrisIsNotAlone(g: Stack)
    requires Debris(g, false)
    ensures Alone([Open(BEGIN)] + g) <==> g == []
  {
    var all := [Open(BEGIN)] + g;
    if g != [] {
      assert all[|g|] == g[|g| - 1] && g[|g| - 1] in g;
    }
  }
}
