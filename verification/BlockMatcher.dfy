/** Finding the END of a procedure in a token stream: a stack of open blocks. */
module BlockMatcher {
  import opened Basics

  /* A body is any nesting of blocks, compounds, CASE expressions, parenthesised groups and
     ordinary words, opening keywords used as ordinary words included.  BodyRuns follows the stack of
     the machine through it piece by piece, and MatcherFindsEnd says from that when the END of the body
     is found.  MatchedBodies reads the answer off the text. */

  datatype Key =
    | OpenParen | CloseParen | Semicolon | Colon
    | BEGIN | END | IF | CASE | LOOP | WHILE | REPEAT | FOR
    | THEN | ELSE | DO | AS | CURSOR | Other

  /** A token by its upper-case text.  A glued token is a block keyword or END that carries the
      statement terminator, as in END@; it counts as the keyword only where blocks are matched. */
  datatype Token = Token(key: Key, glued: bool, isWord: bool)

  datatype Frame = Open(key: Key) | ExpressionCase

  type Stack = seq<Frame>

  // ----- tokens -----

  predicate IsCloser(k: Key) {
    k == IF || k == CASE || k == LOOP || k == WHILE || k == REPEAT || k == FOR
  }

  predicate IsText(t: Token) {
    t.key !in {OpenParen, CloseParen, BEGIN, END} && !IsCloser(t.key)
  }

  /** The text of the token as it stands. */
  function Raw(t: Token): Key {
    if t.glued then Other else t.key
  }

  function KeyAt(ts: seq<Token>, i: nat): Key {
    if i < |ts| then ts[i].key else Other
  }

  predicate IsCaseStatementStart(ts: seq<Token>, i: nat)
    requires i < |ts|
  {
    i == 0 || Raw(ts[i - 1]) in {Semicolon, Colon, BEGIN, THEN, ELSE, DO}
  }

  function Lookahead(ts: seq<Token>, i: nat): seq<Token>
    requires i < |ts|
  {
    ts[i + 1..if i + 10 < |ts| then i + 10 else |ts|]
  }

  predicate Mentions(ts: seq<Token>, k: Key) {
    exists t | t in ts :: Raw(t) == k
  }

  predicate IsForLoopStart(ts: seq<Token>, i: nat)
    requires i < |ts|
  {
    Mentions(Lookahead(ts, i), AS) && Mentions(Lookahead(ts, i), CURSOR)
  }

  /** A FOR is taken for a loop iff both AS and CURSOR are among the nine tokens behind it. */
  lemma {:induction false} ForIsRecognisedIff(ts: seq<Token>, i: nat)
    requires i < |ts|
    ensures IsForLoopStart(ts, i) <==>
      && (exists j | i < j <= i + 9 && j < |ts| :: Raw(ts[j]) == AS)
      && (exists j | i < j <= i + 9 && j < |ts| :: Raw(ts[j]) == CURSOR)
  {
    MentionedAt(ts, i, AS);
    MentionedAt(ts, i, CURSOR);
  }

  lemma {:induction false} MentionedAt(ts: seq<Token>, i: nat, k: Key)
    requires i < |ts|
    ensures Mentions(Lookahead(ts, i), k) <==> exists j | i < j <= i + 9 && j < |ts| :: Raw(ts[j]) == k
  {
    var ahead := Lookahead(ts, i);
    if t :| t in ahead && Raw(t) == k {
      var j :| 0 <= j < |ahead| && ahead[j] == t;
      assert ts[i + 1 + j] == t;
    }
    if j :| i < j <= i + 9 && j < |ts| && Raw(ts[j]) == k {
      assert ahead[j - i - 1] == ts[j];
    }
  }

  // ----- the stack machine -----

  datatype State = State(stack: Stack, depth: nat)

  datatype Outcome = Stop | Continue(state: State)

  /** The position of the innermost frame for k. */
  function Innermost(stack: Stack, k: Key): (r: Option<nat>)
    ensures r != None ==> r.value < |stack| && stack[r.value] == Open(k)
    ensures r != None ==> forall i | r.value < i < |stack| :: stack[i] != Open(k)
    ensures r == None <==> Open(k) !in stack
  {
    if stack == [] then None
    else if stack[|stack| - 1] == Open(k) then Some(|stack| - 1)
    else Innermost(stack[..|stack| - 1], k)
  }

  /** Removes the innermost frame for k and everything above it. */
  function CutAt(stack: Stack, k: Key): (r: Stack)
    ensures r <= stack
  {
    var i := Innermost(stack, k);
    if i == None then stack else stack[..i.value]
  }

  predicate TopIsExpression(stack: Stack) {
    stack != [] && stack[|stack| - 1] == ExpressionCase
  }

  /** The stack behind the END at i; None if the END is the last one. */
  function AtEnd(ts: seq<Token>, i: nat, stack: Stack): (r: Option<Stack>)
    ensures r != None ==> r.value <= stack
  {
    var following := KeyAt(ts, i + 1);
    if !IsCloser(following) && TopIsExpression(stack) then Some(stack[..|stack| - 1])
    else
      var now := CutAt(stack, if IsCloser(following) then following else BEGIN);
      if now != [] then Some(now) else None
  }

  function AtOpener(ts: seq<Token>, i: nat, stack: Stack): Stack
    requires i < |ts|
  {
    var k := ts[i].key;
    if k == CASE && (ExpressionCase in stack || !IsCaseStatementStart(ts, i)) then stack + [ExpressionCase]
    else if k != FOR || IsForLoopStart(ts, i) then stack + [Open(k)]
    else stack
  }

  function Become(stack: Option<Stack>): Outcome {
    match stack
    case None => Stop
    case Some(now) => Continue(State(now, 0))
  }

  function Step(ts: seq<Token>, i: nat, s: State): Outcome
    requires 0 < i < |ts|
  {
    var k := ts[i].key;
    if k == OpenParen then Continue(s.(depth := s.depth + 1))
    else if k == CloseParen then Continue(s.(depth := if s.depth > 0 then s.depth - 1 else 0))
    else if s.depth > 0 then Continue(s)
    else if k == END then Become(AtEnd(ts, i, s.stack))
    else if (k == BEGIN || IsCloser(k)) && ts[i - 1].key != END then Continue(State(AtOpener(ts, i, s.stack), 0))
    else Continue(s)
  }

  /** The state in front of token j, started with s in front of token i; Stop if the machine has stopped
      before. */
  function StateAt(ts: seq<Token>, i: nat, s: State, j: nat): Outcome
    requires 0 < i <= j <= |ts|
    decreases j - i
  {
    if i == j then Continue(s)
    else match Step(ts, i, s)
      case Stop => Stop
      case Continue(next) => StateAt(ts, i + 1, next, j)
  }

  /** The END at which the machine stops, started in front of token i. */
  function StopsAt(ts: seq<Token>, i: nat, s: State): (r: Option<nat>)
    requires 0 < i <= |ts|
    ensures r != None ==> i <= r.value < |ts|
    decreases |ts| - i
  {
    if i == |ts| then None
    else match Step(ts, i, s)
      case Stop => Some(i)
      case Continue(next) => StopsAt(ts, i + 1, next)
  }

  /** The last token of the procedure: the END, or the closer or word behind it. */
  function LastToken(ts: seq<Token>, at: Option<nat>): Option<nat> {
    match at
    case None => None
    case Some(i) => Some(if IsCloser(KeyAt(ts, i + 1)) || (i + 1 < |ts| && ts[i + 1].isWord) then i + 1 else i)
  }

  /** The first BEGIN from start. */
  function FirstBegin(ts: seq<Token>, start: nat): (r: Option<nat>)
    requires start <= |ts|
    ensures r != None ==> start <= r.value < |ts| && Raw(ts[r.value]) == BEGIN
    ensures r != None ==> forall i | start <= i < r.value :: Raw(ts[i]) != BEGIN
    ensures r == None ==> forall i | start <= i < |ts| :: Raw(ts[i]) != BEGIN
    decreases |ts| - start
  {
    if start == |ts| then None
    else if Raw(ts[start]) == BEGIN then Some(start)
    else FirstBegin(ts, start + 1)
  }

  method ProcedureEnd(ts: seq<Token>, start: nat) returns (r: Option<nat>)
    requires start <= |ts|
    ensures r == match FirstBegin(ts, start)
      case None => None
      case Some(b) => LastToken(ts, StopsAt(ts, b + 1, State([Open(BEGIN)], 0)))
  {
    hide IsCaseStatementStart, IsForLoopStart, CutAt, IsCloser, StopsAt;
    var b := start;
    while b < |ts| && Raw(ts[b]) != BEGIN
      invariant start <= b <= |ts| && FirstBegin(ts, start) == FirstBegin(ts, b)
    {
      b := b + 1;
    }
    if b == |ts| {
      return None;
    }
    var stack: Stack := [Open(BEGIN)];
    var depth: nat := 0;
    for i := b + 1 to |ts|
      invariant StopsAt(ts, b + 1, State([Open(BEGIN)], 0)) == StopsAt(ts, i, State(stack, depth))
    {
      var k, previous, following := ts[i].key, ts[i - 1].key, KeyAt(ts, i + 1);
      StopsHereOrLater(ts, i, State(stack, depth));
      if k == OpenParen {
        depth := depth + 1;
        continue;
      }
      if k == CloseParen {
        depth := if depth > 0 then depth - 1 else 0;
        continue;
      }
      if depth > 0 {
        continue;
      }
      if k == END {
        if !IsCloser(following) && TopIsExpression(stack) {
          stack := stack[..|stack| - 1];
          continue;
        }
        stack := CutAt(stack, if IsCloser(following) then following else BEGIN);
        if stack == [] {
          return Some(if IsCloser(following) || (i + 1 < |ts| && ts[i + 1].isWord) then i + 1 else i);
        }
        continue;
      }
      if (k == BEGIN || IsCloser(k)) && previous != END {
        if k == CASE && (ExpressionCase in stack || !IsCaseStatementStart(ts, i)) {
          stack := stack + [ExpressionCase];
          continue;
        }
        if k != FOR || IsForLoopStart(ts, i) {
          stack := stack + [Open(k)];
        }
      }
    }
    NeverStops(ts, State(stack, depth));
    r := None;
  }

  lemma {:induction false} StopsHereOrLater(ts: seq<Token>, i: nat, s: State)
    requires 0 < i < |ts|
    ensures StopsAt(ts, i, s) ==
      match Step(ts, i, s) case Stop => Some(i) case Continue(next) => StopsAt(ts, i + 1, next)
  {
    hide Step;
  }

  lemma {:induction false} NeverStops(ts: seq<Token>, s: State)
    requires ts != []
    ensures StopsAt(ts, |ts|, s) == None
  {
  }

  // ----- runs of the machine -----

  /** The machine comes from token i with s to token j with s'. */
  ghost predicate Moves(ts: seq<Token>, i: nat, s: State, j: nat, s': State) {
    0 < i <= j <= |ts| && StateAt(ts, i, s, j) == Continue(s')
  }

  lemma {:induction false} StateJoins(ts: seq<Token>, i: nat, s: State, m: nat, j: nat)
    requires 0 < i <= m <= j <= |ts|
    ensures StateAt(ts, i, s, j) ==
      match StateAt(ts, i, s, m) case Stop => Stop case Continue(mid) => StateAt(ts, m, mid, j)
    decreases m - i
  {
    hide Step;
    if i < m {
      match Step(ts, i, s)
      case Stop =>
      case Continue(next) => StateJoins(ts, i + 1, next, m, j);
    }
  }

  /** Where the machine stops follows from the state on the way. */
  lemma {:induction false} StateDecides(ts: seq<Token>, i: nat, s: State, j: nat)
    requires 0 < i <= j <= |ts|
    ensures match StateAt(ts, i, s, j)
      case Stop => (var at := StopsAt(ts, i, s); at != None && at.value < j)
      case Continue(mid) => StopsAt(ts, i, s) == StopsAt(ts, j, mid)
    decreases j - i
  {
    hide Step;
    if i < j {
      match Step(ts, i, s)
      case Stop =>
      case Continue(next) => StateDecides(ts, i + 1, next, j);
    }
  }

  lemma {:induction false} StepMoves(ts: seq<Token>, i: nat, s: State)
    requires 0 < i < |ts|
    ensures StateAt(ts, i, s, i + 1) == Step(ts, i, s)
  {
    hide Step;
    match Step(ts, i, s)
    case Stop =>
    case Continue(next) => assert StateAt(ts, i + 1, next, i + 1) == Continue(next);
  }

  lemma {:induction false} Onwards(ts: seq<Token>, i: nat, s: State, m: nat, mid: State, j: nat, s': State)
    requires Moves(ts, i, s, m, mid) && Moves(ts, m, mid, j, s')
    ensures Moves(ts, i, s, j, s')
  {
    StateJoins(ts, i, s, m, j);
  }

  // ----- procedure bodies -----

  /** A piece of a procedure body.  Text is any token that is no parenthesis, block keyword or
      END; a Stray is an opening keyword used as an ordinary word; a Group is a parenthesised
      part; a Bracket runs from an opening keyword to its END, and the keyword behind it if it
      has one. */
  datatype Node =
    | Text(t: Token)
    | Stray(t: Token)
    | Group(ts: seq<Token>)
    | Bracket(open: Token, inner: seq<Node>, tail: seq<Token>)

  function Flat(n: Node): seq<Token>
    decreases n
  {
    match n
    case Text(t) => [t]
    case Stray(t) => [t]
    case Group(ts) => ts
    case Bracket(open, inner, tail) => [open] + FlatAll(inner) + tail
  }

  function FlatAll(ns: seq<Node>): seq<Token>
    decreases ns
  {
    if ns == [] then [] else Flat(ns[0]) + FlatAll(ns[1..])
  }

  /** BEGIN to END. */
  predicate IsBlock(n: Node) {
    n.Bracket? && n.open.key == BEGIN && |n.tail| == 1 && n.tail[0].key == END
  }

  /** A scalar CASE to END. */
  predicate IsExpression(n: Node) {
    n.Bracket? && n.open.key == CASE && |n.tail| == 1 && n.tail[0].key == END
  }

  /** IF, CASE, LOOP, WHILE, REPEAT or FOR to END and the same keyword. */
  predicate IsCompound(n: Node) {
    n.Bracket? && IsCloser(n.open.key) && |n.tail| == 2 && n.tail[0].key == END && n.tail[1].key == n.open.key
  }

  /** Parenthesis depth after ts, from a given depth; None if it falls below zero. */
  function Depth(ts: seq<Token>, from: nat): Option<nat>
    decreases ts
  {
    if ts == [] then Some(from)
    else if ts[0].key == OpenParen then Depth(ts[1..], from + 1)
    else if ts[0].key != CloseParen then Depth(ts[1..], from)
    else if from == 0 then None
    else Depth(ts[1..], from - 1)
  }

  /** A parenthesised part: one opening parenthesis to the one that matches it. */
  predicate IsGroup(ts: seq<Token>) {
    && |ts| >= 2 && ts[0].key == OpenParen && ts[|ts| - 1].key == CloseParen
    && Depth(ts[1..|ts| - 1], 0) == Some(0)
  }

  /** Any nesting of pieces.  Nothing is asked of what stands in front of a piece or behind it, of where a
      CASE or FOR is recognised, or of what may stand in what. */
  predicate Shape(n: Node)
    decreases n
  {
    match n
    case Text(t) => IsText(t)
    case Stray(t) => IsCloser(t.key)
    case Group(g) => IsGroup(g)
    case Bracket(_, inner, _) => (IsBlock(n) || IsExpression(n) || IsCompound(n)) && ShapeAll(inner)
  }

  predicate ShapeAll(ns: seq<Node>)
    decreases ns
  {
    ns != [] ==> Shape(ns[0]) && ShapeAll(ns[1..])
  }

  // ----- what a piece does to the stack -----

  /** The stack behind the opening keyword at p, which is a closer if END stands before it. */
  function Opening(ts: seq<Token>, p: nat, stack: Stack): Stack
    requires 0 < p < |ts|
  {
    if ts[p - 1].key == END then stack else AtOpener(ts, p, stack)
  }

  /** The stack behind n, which stands at p; None if the machine stops in n. */
  function After(ts: seq<Token>, p: nat, n: Node, stack: Stack): Option<Stack>
    requires 0 < p && p + |Flat(n)| <= |ts|
    decreases n
  {
    match n
    case Text(_) => Some(stack)
    case Group(_) => Some(stack)
    case Stray(_) => Some(Opening(ts, p, stack))
    case Bracket(_, inner, _) =>
      match AfterAll(ts, p + 1, inner, Opening(ts, p, stack))
      case None => None
      case Some(now) => AtEnd(ts, p + 1 + |FlatAll(inner)|, now)
  }

  function AfterAll(ts: seq<Token>, p: nat, ns: seq<Node>, stack: Stack): Option<Stack>
    requires 0 < p && p + |FlatAll(ns)| <= |ts|
    decreases ns
  {
    if ns == [] then Some(stack)
    else match After(ts, p, ns[0], stack)
      case None => None
      case Some(now) => AfterAll(ts, p + |Flat(ns[0])|, ns[1..], now)
  }

  ghost predicate Stands(ts: seq<Token>, p: nat, part: seq<Token>) {
    p + |part| <= |ts| && ts[p..p + |part|] == part
  }

  lemma {:induction false} StandsParts(ts: seq<Token>, p: nat, a: seq<Token>, b: seq<Token>)
    requires Stands(ts, p, a + b)
    ensures Stands(ts, p, a) && Stands(ts, p + |a|, b)
  {
    var all := ts[p..p + |a + b|];
    assert ts[p..p + |a|] == all[..|a|] == (a + b)[..|a|];
    assert ts[p + |a|..p + |a| + |b|] == all[|a|..] == (a + b)[|a|..];
  }

  lemma {:induction false} StandsOne(ts: seq<Token>, p: nat, t: Token)
    requires Stands(ts, p, [t])
    ensures p < |ts| && ts[p] == t
  {
    assert ts[p] == ts[p..p + 1][0];
  }

  /** Where the parts of a bracket stand. */
  lemma {:induction false} BracketParts(ts: seq<Token>, p: nat, n: Node)
    requires n.Bracket? && n.tail != [] && Stands(ts, p, Flat(n))
    ensures var q := p + 1 + |FlatAll(n.inner)|;
      && p < |ts| && ts[p] == n.open && Stands(ts, p + 1, FlatAll(n.inner)) && q + |n.tail| == p + |Flat(n)| <= |ts|
      && ts[q] == n.tail[0] && (|n.tail| > 1 ==> ts[q + 1] == n.tail[1])
  {
    hide FlatAll;
    var q := p + 1 + |FlatAll(n.inner)|;
    StandsParts(ts, p, [n.open] + FlatAll(n.inner), n.tail);
    StandsParts(ts, p, [n.open], FlatAll(n.inner));
    StandsOne(ts, p, n.open);
    assert ts[q] == ts[q..q + |n.tail|][0];
    assert |n.tail| > 1 ==> ts[q + 1] == ts[q..q + |n.tail|][1];
  }

  // ----- one token -----

  lemma {:induction false} TextMoves(ts: seq<Token>, i: nat, stack: Stack)
    requires 0 < i < |ts| && IsText(ts[i])
    ensures Moves(ts, i, State(stack, 0), i + 1, State(stack, 0))
  {
    hide AtEnd, AtOpener, StateAt;
    StepMoves(ts, i, State(stack, 0));
  }

  lemma {:induction false} OpenerMoves(ts: seq<Token>, i: nat, stack: Stack)
    requires 0 < i < |ts| && (ts[i].key == BEGIN || IsCloser(ts[i].key))
    ensures Moves(ts, i, State(stack, 0), i + 1, State(Opening(ts, i, stack), 0))
  {
    hide AtEnd, AtOpener, StateAt;
    StepMoves(ts, i, State(stack, 0));
  }

  lemma {:induction false} EndMoves(ts: seq<Token>, i: nat, stack: Stack)
    requires 0 < i < |ts| && ts[i].key == END
    ensures StateAt(ts, i, State(stack, 0), i + 1) == Become(AtEnd(ts, i, stack))
  {
    hide AtEnd, AtOpener, StateAt;
    StepMoves(ts, i, State(stack, 0));
  }

  // ----- parentheses -----

  lemma {:induction false} InsideParens(ts: seq<Token>, p: nat, part: seq<Token>, stack: Stack, from: nat, to: nat)
    requires 0 < p && Stands(ts, p, part) && Depth(part, from) == Some(to)
    ensures Moves(ts, p, State(stack, from + 1), p + |part|, State(stack, to + 1))
    decreases part
  {
    hide AtEnd, AtOpener;
    if part != [] {
      var rest := part[1..];
      assert ts[p] == ts[p..p + |part|][0] == part[0];
      assert ts[p + 1..p + |part|] == ts[p..p + |part|][1..];
      var k := part[0].key;
      var next := if k == OpenParen then from + 1 else if k == CloseParen then from - 1 else from;
      InsideParens(ts, p + 1, rest, stack, next, to);
    }
  }

  lemma {:induction false} GroupMoves(ts: seq<Token>, p: nat, g: seq<Token>, stack: Stack)
    requires 0 < p && Stands(ts, p, g) && IsGroup(g)
    ensures Moves(ts, p, State(stack, 0), p + |g|, State(stack, 0))
  {
    hide StateAt, AtEnd, AtOpener, Depth;
    var inner, q := g[1..|g| - 1], p + |g| - 1;
    assert g == [g[0]] + inner + [g[|g| - 1]];
    StandsParts(ts, p, [g[0]] + inner, [g[|g| - 1]]);
    StandsParts(ts, p, [g[0]], inner);
    StandsOne(ts, p, g[0]);
    StandsOne(ts, q, g[|g| - 1]);
    StepMoves(ts, p, State(stack, 0));
    InsideParens(ts, p + 1, inner, stack, 0, 0);
    StepMoves(ts, q, State(stack, 1));
    Onwards(ts, p, State(stack, 0), p + 1, State(stack, 1), q, State(stack, 1));
    Onwards(ts, p, State(stack, 0), q, State(stack, 1), q + 1, State(stack, 0));
  }

  // ----- bodies -----

  /** Behind a body the machine has exactly the stack that its pieces leave, or has stopped in it exactly
      when they say so. */
  lemma {:induction false} BodyRuns(ts: seq<Token>, p: nat, ns: seq<Node>, stack: Stack)
    requires 0 < p && Stands(ts, p, FlatAll(ns)) && ShapeAll(ns)
    ensures StateAt(ts, p, State(stack, 0), p + |FlatAll(ns)|) == Become(AfterAll(ts, p, ns, stack))
    decreases ns
  {
    hide Flat, After, Shape, Step;
    if ns != [] {
      var q := p + |Flat(ns[0])|;
      StandsParts(ts, p, Flat(ns[0]), FlatAll(ns[1..]));
      NodeRuns(ts, p, ns[0], stack);
      StateJoins(ts, p, State(stack, 0), q, p + |FlatAll(ns)|);
      match After(ts, p, ns[0], stack)
      case None =>
      case Some(now) => BodyRuns(ts, q, ns[1..], now);
    }
  }

  lemma {:induction false} NodeRuns(ts: seq<Token>, p: nat, n: Node, stack: Stack)
    requires 0 < p && Stands(ts, p, Flat(n)) && Shape(n)
    ensures StateAt(ts, p, State(stack, 0), p + |Flat(n)|) == Become(After(ts, p, n, stack))
    decreases n, 2
  {
    hide FlatAll, ShapeAll, StateAt, AfterAll, AtEnd, AtOpener, Opening, IsGroup, IsText;
    match n
    case Text(t) =>
      StandsOne(ts, p, t);
      TextMoves(ts, p, stack);
    case Stray(t) =>
      StandsOne(ts, p, t);
      OpenerMoves(ts, p, stack);
    case Group(g) => GroupMoves(ts, p, g, stack);
    case Bracket(_, _, _) => BracketRuns(ts, p, n, stack);
  }

  lemma {:induction false} BracketRuns(ts: seq<Token>, p: nat, n: Node, stack: Stack)
    requires n.Bracket? && 0 < p && Stands(ts, p, Flat(n)) && Shape(n)
    ensures StateAt(ts, p, State(stack, 0), p + |Flat(n)|) == Become(After(ts, p, n, stack))
    decreases n, 1
  {
    hide FlatAll, ShapeAll, StateAt, AfterAll, AtEnd, AtOpener, Opening, Stands;
    BracketParts(ts, p, n);
    var q, end, s, inside := p + 1 + |FlatAll(n.inner)|, p + |Flat(n)|, State(stack, 0), Opening(ts, p, stack);
    OpenerMoves(ts, p, stack);
    BodyRuns(ts, p + 1, n.inner, inside);
    StateJoins(ts, p, s, p + 1, end);
    StateJoins(ts, p + 1, State(inside, 0), q, end);
    match AfterAll(ts, p + 1, n.inner, inside)
    case None =>
    case Some(now) => TailRuns(ts, q, n.tail, now);
  }

  /** An END, and the keyword behind it. */
  lemma {:induction false} TailRuns(ts: seq<Token>, q: nat, tail: seq<Token>, stack: Stack)
    requires 0 < q && q + |tail| <= |ts| && 1 <= |tail| <= 2 && ts[q].key == END
    requires |tail| == 2 ==> IsCloser(ts[q + 1].key)
    ensures StateAt(ts, q, State(stack, 0), q + |tail|) == Become(AtEnd(ts, q, stack))
  {
    hide StateAt, AtEnd, AtOpener;
    EndMoves(ts, q, stack);
    StateJoins(ts, q, State(stack, 0), q + 1, q + |tail|);
    match AtEnd(ts, q, stack)
    case None =>
    case Some(now) =>
      if |tail| == 2 {
        OpenerMoves(ts, q + 1, now);
      } else {
        StateStays(ts, q + 1, State(now, 0));
      }
  }

  lemma {:induction false} StateStays(ts: seq<Token>, i: nat, s: State)
    requires 0 < i <= |ts|
    ensures StateAt(ts, i, s, i) == Continue(s)
  {
  }

  // ----- the main result -----

  /** The BEGIN of the procedure is at the bottom. */
  predicate Rooted(stack: Stack) {
    stack != [] && stack[0] == Open(BEGIN)
  }

  /** No block but the outermost is open, and no CASE expression is on top. */
  predicate Alone(stack: Stack) {
    !TopIsExpression(stack) && forall i | 0 < i < |stack| :: stack[i] != Open(BEGIN)
  }

  lemma {:induction false} OpeningPushes(ts: seq<Token>, p: nat, stack: Stack)
    requires 0 < p < |ts|
    ensures var now := Opening(ts, p, stack);
      now == stack || now == stack + [Open(ts[p].key)] || (ts[p].key == CASE && now == stack + [ExpressionCase])
  {
  }

  lemma {:induction false} EndKeepsRoot(ts: seq<Token>, q: nat, stack: Stack)
    requires Rooted(stack) && AtEnd(ts, q, stack) != None
    ensures Rooted(AtEnd(ts, q, stack).value)
  {
  }

  lemma {:induction false} BodyKeepsRoot(ts: seq<Token>, p: nat, ns: seq<Node>, stack: Stack)
    requires 0 < p && p + |FlatAll(ns)| <= |ts| && Rooted(stack)
    ensures var now := AfterAll(ts, p, ns, stack); now != None ==> Rooted(now.value)
    decreases ns
  {
    hide Flat, After, Rooted;
    if ns != [] {
      NodeKeepsRoot(ts, p, ns[0], stack);
      match After(ts, p, ns[0], stack)
      case None =>
      case Some(now) => BodyKeepsRoot(ts, p + |Flat(ns[0])|, ns[1..], now);
    }
  }

  lemma {:induction false} NodeKeepsRoot(ts: seq<Token>, p: nat, n: Node, stack: Stack)
    requires 0 < p && p + |Flat(n)| <= |ts| && Rooted(stack)
    ensures var now := After(ts, p, n, stack); now != None ==> Rooted(now.value)
    decreases n
  {
    hide FlatAll, AfterAll, AtEnd, Opening;
    if n.Bracket? || n.Stray? {
      OpeningPushes(ts, p, stack);
    }
    if n.Bracket? {
      var inside := Opening(ts, p, stack);
      BodyKeepsRoot(ts, p + 1, n.inner, inside);
      var now := AfterAll(ts, p + 1, n.inner, inside);
      if now != None && AtEnd(ts, p + 1 + |FlatAll(n.inner)|, now.value) != None {
        EndKeepsRoot(ts, p + 1 + |FlatAll(n.inner)|, now.value);
      }
    }
  }

  lemma {:induction false} LastEndStops(ts: seq<Token>, e: nat, stack: Stack)
    requires Rooted(stack)
    ensures AtEnd(ts, e, stack) == None <==> Alone(stack) && !IsCloser(KeyAt(ts, e + 1))
  {
    assert stack[0] in stack;
    var k := if IsCloser(KeyAt(ts, e + 1)) then KeyAt(ts, e + 1) else BEGIN;
    var i := Innermost(stack, k);
    if k == BEGIN && i.value > 0 {
      assert stack[i.value] == Open(BEGIN);
    }
  }

  /** The machine stops at the END at e exactly when it comes there with one block open and no CASE
      expression on top, and no closer follows. */
  lemma {:induction false} StopsAtIff(ts: seq<Token>, i: nat, s: State, e: nat, stack: Stack)
    requires Moves(ts, i, s, e, State(stack, 0)) && e < |ts| && ts[e].key == END && Rooted(stack)
    ensures StopsAt(ts, i, s) == Some(e) <==> Alone(stack) && !IsCloser(KeyAt(ts, e + 1))
  {
    hide StateAt, AtEnd, AtOpener, Alone, Rooted;
    StateDecides(ts, i, s, e);
    LastEndStops(ts, e, stack);
    assert Step(ts, e, State(stack, 0)) == Become(AtEnd(ts, e, stack));
  }

  /** In a stream that holds a procedure body from the first BEGIN behind start to an END, the
      matcher stops at that END exactly when the pieces of the body leave that BEGIN as the only one and no
      CASE expression on top, and no closer follows.  Otherwise it stops elsewhere or not at all. */
  lemma {:induction false} MatcherFindsEnd(ts: seq<Token>, start: nat, b: nat, body: seq<Node>, end: Token)
    requires start <= |ts| && FirstBegin(ts, start) == Some(b) && end.key == END
    requires Stands(ts, b + 1, FlatAll(body) + [end]) && ShapeAll(body)
    ensures
      var e, now := b + 1 + |FlatAll(body)|, AfterAll(ts, b + 1, body, [Open(BEGIN)]);
      StopsAt(ts, b + 1, State([Open(BEGIN)], 0)) == Some(e) <==>
        now != None && Alone(now.value) && !IsCloser(KeyAt(ts, e + 1))
  {
    hide FlatAll, ShapeAll, AfterAll, StopsAt, StateAt, FirstBegin, Alone, KeyAt;
    var e, s := b + 1 + |FlatAll(body)|, State([Open(BEGIN)], 0);
    StandsParts(ts, b + 1, FlatAll(body), [end]);
    StandsOne(ts, e, end);
    BodyRuns(ts, b + 1, body, s.stack);
    BodyKeepsRoot(ts, b + 1, body, s.stack);
    StateDecides(ts, b + 1, s, e);
    match AfterAll(ts, b + 1, body, s.stack)
    case None =>
    case Some(now) => StopsAtIff(ts, b + 1, s, e, now);
  }

  lemma {:induction false} StopsAtEnd(ts: seq<Token>, i: nat, s: State)
    requires 0 < i <= |ts|
    ensures var at := StopsAt(ts, i, s); at != None ==> ts[at.value].key == END
    decreases |ts| - i
  {
    hide AtEnd, AtOpener;
    if i < |ts| && Step(ts, i, s).Continue? {
      StopsAtEnd(ts, i + 1, Step(ts, i, s).state);
    }
  }

  /** What the matcher then answers for the body: the word behind its END if there is one, and otherwise
      the END itself. */
  lemma {:induction false} EndIsReported(ts: seq<Token>, start: nat, b: nat, body: seq<Node>, end: Token)
    requires start <= |ts| && FirstBegin(ts, start) == Some(b) && end.key == END
    requires Stands(ts, b + 1, FlatAll(body) + [end]) && ShapeAll(body)
    ensures
      var e, now := b + 1 + |FlatAll(body)|, AfterAll(ts, b + 1, body, [Open(BEGIN)]);
      var isFound := now != None && Alone(now.value) && !IsCloser(KeyAt(ts, e + 1));
      var answer := LastToken(ts, StopsAt(ts, b + 1, State([Open(BEGIN)], 0)));
      var named := e + 1 < |ts| && ts[e + 1].isWord;
      && (isFound ==> answer == Some(if named then e + 1 else e))
      && (named && ts[e + 1].key != END ==> (answer == Some(e + 1) <==> isFound))
      && (!named && ts[e - 1].key != END ==> (answer == Some(e) <==> isFound))
  {
    hide FlatAll, ShapeAll, AfterAll, StopsAt, StateAt, FirstBegin, Alone, IsCloser;
    MatcherFindsEnd(ts, start, b, body, end);
    StopsAtEnd(ts, b + 1, State([Open(BEGIN)], 0));
  }
}
