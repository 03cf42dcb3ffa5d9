/** The recursive-descent parser of AND, OR, NOT and groups; everything else is an atom. */
module BooleanParser {
  import opened Basics
  import opened Predicates

  datatype Lexeme = Lexeme(value: string, upper: string)

  /** A token with its text in upper case, which for a parenthesis is the same text. */
  type Token = t: Lexeme | t.value == "(" || t.value == ")" ==> t.upper == t.value witness Lexeme("", "")

  function Values(ts: seq<Token>): Tokens {
    if ts == [] then [] else [ts[0].value] + Values(ts[1..])
  }

  predicate Opens(t: Token) {
    t.value == "("
  }

  predicate Closes(t: Token) {
    t.value == ")"
  }

  predicate NextIs(s: seq<Token>, keyword: string) {
    s != [] && s[0].upper == keyword
  }

  // ----- what the parser computes, on the tokens that remain -----

  /** Parenthesis depth, and whether a BETWEEN still waits for its AND. */
  type AtomState = (nat, bool)

  /** The state after one more token of an atom, or none if the token ends the atom. */
  function NextState(t: Token, state: AtomState): Option<AtomState> {
    var (depth, betweenPending) := state;
    if Opens(t) then Some((depth + 1, betweenPending))
    else if Closes(t) then if depth == 0 then None else Some((depth - 1, betweenPending))
    else if depth > 0 then Some(state)
    else if t.upper == "BETWEEN" then Some((depth, true))
    else if t.upper == "AND" && betweenPending then Some((depth, false))
    else if t.upper == "AND" || t.upper == "OR" then None
    else Some(state)
  }

  /** The number of tokens in the atom at the front of s. */
  function AtomLength(s: seq<Token>, state: AtomState): (n: nat)
    ensures n <= |s|
  {
    if s == [] then 0
    else match NextState(s[0], state)
      case None => 0
      case Some(next) => 1 + AtomLength(s[1..], next)
  }

  /** A parenthesis at the front of s is read as a Boolean group. */
  predicate IsBooleanGroup(s: seq<Token>, depth: int) {
    if s == [] then false
    else if Opens(s[0]) then IsBooleanGroup(s[1..], depth + 1)
    else if Closes(s[0]) then depth - 1 == 0 || IsBooleanGroup(s[1..], depth - 1)
    else if depth == 1 && (s[0].upper == "AND" || s[0].upper == "OR") then true
    else IsBooleanGroup(s[1..], depth)
  }

  /** A parsed expression and the tokens behind it. */
  type Parsed = (Expr, seq<Token>)

  function ParseAtom(s: seq<Token>): (r: Parsed)
    ensures |r.1| <= |s|
  {
    var n := AtomLength(s, (0, false));
    (if n == 0 then Expr(UNKNOWN, [], []) else Atom(Values(s[..n])), s[n..])
  }

  function ParseOr(s: seq<Token>): (r: Parsed)
    ensures |r.1| <= |s|
    decreases |s|, 5
  {
    var (first, rest) := ParseAnd(s);
    var (more, behind) := OrTail(rest);
    (Combine(OR, [first] + more), behind)
  }

  function OrTail(s: seq<Token>): (r: (seq<Expr>, seq<Token>))
    ensures |r.1| <= |s|
    decreases |s|, 4
  {
    if NextIs(s, "OR") then
      var (next, rest) := ParseAnd(s[1..]);
      var (more, behind) := OrTail(rest);
      ([next] + more, behind)
    else ([], s)
  }

  function ParseAnd(s: seq<Token>): (r: Parsed)
    ensures |r.1| <= |s|
    decreases |s|, 3
  {
    var (first, rest) := ParseNot(s);
    var (more, behind) := AndTail(rest);
    (Combine(AND, [first] + more), behind)
  }

  function AndTail(s: seq<Token>): (r: (seq<Expr>, seq<Token>))
    ensures |r.1| <= |s|
    decreases |s|, 2
  {
    if NextIs(s, "AND") then
      var (next, rest) := ParseNot(s[1..]);
      var (more, behind) := AndTail(rest);
      ([next] + more, behind)
    else ([], s)
  }

  function ParseNot(s: seq<Token>): (r: Parsed)
    ensures |r.1| <= |s|
    decreases |s|, 1
  {
    if NextIs(s, "NOT") then
      var (e, rest) := ParseNot(s[1..]);
      (Not(e), rest)
    else if s != [] && Opens(s[0]) && IsBooleanGroup(s, 0) then
      var (e, rest) := ParseOr(s[1..]);
      (e, if rest != [] && Closes(rest[0]) then rest[1..] else rest)
    else
      ParseAtom(s)
  }

  /** The whole input: unconsumed text makes one atom of everything. */
  function Parse(s: seq<Token>): Expr {
    if s == [] then True
    else
      var (e, rest) := ParseOr(s);
      if rest != [] then Atom(Values(s)) else e
  }

  lemma {:induction false} Extended(values: seq<Expr>, next: Expr, more: seq<Expr>)
    ensures values + ([next] + more) == values + [next] + more
  {
  }

  // ----- the parser object -----

  class Parser {
    const tokens: seq<Token>
    var index: nat

    ghost predicate Valid()
      reads this
    {
      index <= |tokens|
    }

    ghost function Rest(): seq<Token>
      requires Valid()
      reads this
    {
      tokens[index..]
    }

    constructor (tokens: seq<Token>)
      ensures this.tokens == tokens && Valid() && index == 0
    {
      this.tokens, index := tokens, 0;
    }

    method Run() returns (e: Expr)
      requires Valid() && index == 0
      modifies this
      ensures e == Parse(tokens)
    {
      if tokens == [] {
        return True;
      }
      assert Rest() == tokens;
      e := OrLevel();
      if index != |tokens| {
        e := Atom(Values(tokens));
      }
    }

    method OrLevel() returns (e: Expr)
      requires Valid()
      modifies this
      ensures Valid() && index >= old(index)
      ensures (e, Rest()) == ParseOr(old(Rest()))
      decreases |tokens| - index, 5
    {
      e := AndLevel();
      var more := OrRest();
      e := Combine(OR, [e] + more);
    }

    method OrRest() returns (values: seq<Expr>)
      requires Valid()
      modifies this
      ensures Valid() && index >= old(index)
      ensures values == OrTail(old(Rest())).0 && Rest() == OrTail(old(Rest())).1
      decreases |tokens| - index, 4
    {
      values := [];
      while index < |tokens| && tokens[index].upper == "OR"
        invariant Valid() && index >= old(index)
        invariant OrTail(old(Rest())).0 == values + OrTail(Rest()).0
        invariant OrTail(old(Rest())).1 == OrTail(Rest()).1
        decreases |tokens| - index
      {
        ghost var before := Rest();
        index := index + 1;
        assert Rest() == before[1..];
        var next := AndLevel();
        Extended(values, next, OrTail(Rest()).0);
        values := values + [next];
      }
      assert values + [] == values;
    }

    method AndLevel() returns (e: Expr)
      requires Valid()
      modifies this
      ensures Valid() && index >= old(index)
      ensures (e, Rest()) == ParseAnd(old(Rest()))
      decreases |tokens| - index, 3
    {
      e := NotLevel();
      var more := AndRest();
      e := Combine(AND, [e] + more);
    }

    method AndRest() returns (values: seq<Expr>)
      requires Valid()
      modifies this
      ensures Valid() && index >= old(index)
      ensures values == AndTail(old(Rest())).0 && Rest() == AndTail(old(Rest())).1
      decreases |tokens| - index, 2
    {
      values := [];
      while index < |tokens| && tokens[index].upper == "AND"
        invariant Valid() && index >= old(index)
        invariant AndTail(old(Rest())).0 == values + AndTail(Rest()).0
        invariant AndTail(old(Rest())).1 == AndTail(Rest()).1
        decreases |tokens| - index
      {
        ghost var before := Rest();
        index := index + 1;
        assert Rest() == before[1..];
        var next := NotLevel();
        Extended(values, next, AndTail(Rest()).0);
        values := values + [next];
      }
      assert values + [] == values;
    }

    method NotLevel() returns (e: Expr)
      requires Valid()
      modifies this
      ensures Valid() && index >= old(index)
      ensures (e, Rest()) == ParseNot(old(Rest()))
      decreases |tokens| - index, 1
    {
      if index < |tokens| && tokens[index].upper == "NOT" {
        index := index + 1;
        e := NotLevel();
        e := Not(e);
      } else if index < |tokens| && Opens(tokens[index]) && IsBooleanGroup(tokens[index..], 0) {
        index := index + 1;
        e := OrLevel();
        if index < |tokens| && Closes(tokens[index]) {
          index := index + 1;
        }
      } else {
        e := AtomLevel();
      }
    }

    method AtomLevel() returns (e: Expr)
      requires Valid()
      modifies this
      ensures Valid() && index >= old(index)
      ensures (e, Rest()) == ParseAtom(old(Rest()))
    {
      var start := index;
      index := AtomEnd(tokens, start);
      AtomSlices(tokens, start, index);
      if start == index {
        e := Expr(UNKNOWN, [], []);
      } else {
        e := Atom(Values(tokens[start..index]));
      }
    }
  }

  /** The position behind the atom that starts at the given one. */
  method AtomEnd(tokens: seq<Token>, start: nat) returns (index: nat)
    requires start <= |tokens|
    ensures index == start + AtomLength(tokens[start..], (0, false))
  {
    index := start;
    var depth, betweenPending := 0, false;
    while index < |tokens|
      invariant start <= index <= |tokens|
      invariant AtomLength(tokens[start..], (0, false)) ==
                (index - start) + AtomLength(tokens[index..], (depth, betweenPending))
    {
      var token := tokens[index];
      assert tokens[index..][0] == token && tokens[index..][1..] == tokens[index + 1..];
      ghost var next := NextState(token, (depth, betweenPending));
      if Opens(token) {
        depth := depth + 1;
      } else if Closes(token) {
        if depth == 0 {
          break;
        }
        depth := depth - 1;
      } else if depth == 0 {
        if token.upper == "BETWEEN" {
          betweenPending := true;
        } else if token.upper == "AND" && betweenPending {
          betweenPending := false;
        } else if token.upper == "AND" || token.upper == "OR" {
          break;
        }
      }
      assert next == Some((depth, betweenPending));
      index := index + 1;
    }
  }

  lemma {:induction false} AtomSlices(tokens: seq<Token>, start: nat, end: nat)
    requires start <= end <= |tokens|
    ensures tokens[start..][..end - start] == tokens[start..end]
    ensures tokens[start..][end - start..] == tokens[end..]
  {
  }

  // ----- formulas and their rendering -----

  datatype Formula =
    | Simple(atom: seq<Token>)
    | Negation(body: Formula)
    | Conjunction(parts: seq<Formula>)
    | Disjunction(parts: seq<Formula>)

  const LPAREN: Token := Lexeme("(", "(")
  const RPAREN: Token := Lexeme(")", ")")

  function Keyword(word: string): Token {
    Lexeme(word, word)
  }

  function Group(f: Formula): seq<Token>
    decreases f, 1
  {
    [LPAREN] + Render(f) + [RPAREN]
  }

  function Render(f: Formula): seq<Token>
    decreases f, 0
  {
    match f
    case Simple(atom) => atom
    case Negation(body) => [Keyword("NOT")] + Group(body)
    case Conjunction(parts) => if parts == [] then [] else Group(parts[0]) + RenderTail(parts[1..], "AND")
    case Disjunction(parts) => if parts == [] then [] else Group(parts[0]) + RenderTail(parts[1..], "OR")
  }

  function RenderTail(parts: seq<Formula>, word: string): seq<Token>
    decreases parts
  {
    if parts == [] then [] else [Keyword(word)] + Group(parts[0]) + RenderTail(parts[1..], word)
  }

  /** The expression of a formula: nested conjunctions and disjunctions are flattened. */
  function Flatten(f: Formula): Expr
    decreases f
  {
    match f
    case Simple(atom) => Atom(Values(atom))
    case Negation(body) => Not(Flatten(body))
    case Conjunction(parts) => Combine(AND, FlattenAll(parts))
    case Disjunction(parts) => Combine(OR, FlattenAll(parts))
  }

  function FlattenAll(parts: seq<Formula>): seq<Expr>
    decreases parts
  {
    if parts == [] then [] else [Flatten(parts[0])] + FlattenAll(parts[1..])
  }

  /** The state in which the atom scanner is after a list of tokens, if it does not stop within it. */
  function ScanAtom(s: seq<Token>, state: AtomState): Option<AtomState> {
    if s == [] then Some(state)
    else match NextState(s[0], state)
      case None => None
      case Some(next) => ScanAtom(s[1..], next)
  }

  /** The number of tokens up to where the parentheses that are open close again. */
  function GroupLength(s: seq<Token>, depth: nat): (n: nat)
    ensures n <= |s|
  {
    if s == [] then 0
    else if Opens(s[0]) then 1 + GroupLength(s[1..], depth + 1)
    else if Closes(s[0]) then if depth <= 1 then 1 else 1 + GroupLength(s[1..], depth - 1)
    else 1 + GroupLength(s[1..], depth)
  }

  /** An atom: balanced parentheses, every BETWEEN with its AND, no other AND or OR outside
      parentheses, and a first token that is not NOT.  An atom that opens with a parenthesis goes
      on behind the one that closes it. */
  predicate IsAtom(s: seq<Token>) {
    && s != [] && s[0].upper != "NOT"
    && ScanAtom(s, (0, false)) == Some((0, false))
    && (Opens(s[0]) ==> GroupLength(s, 0) < |s|)
  }

  predicate IsFormula(f: Formula)
    decreases f
  {
    match f
    case Simple(atom) => IsAtom(atom)
    case Negation(body) => IsFormula(body)
    case Conjunction(parts) => parts != [] && AllFormulas(parts)
    case Disjunction(parts) => parts != [] && AllFormulas(parts)
  }

  predicate AllFormulas(parts: seq<Formula>)
    decreases parts
  {
    parts != [] ==> IsFormula(parts[0]) && AllFormulas(parts[1..])
  }

  /** Some atom of f opens with a parenthesis. */
  predicate AtomOpens(f: Formula)
    decreases f
  {
    match f
    case Simple(atom) => atom != [] && Opens(atom[0])
    case Negation(body) => AtomOpens(body)
    case Conjunction(parts) => SomeAtomOpens(parts)
    case Disjunction(parts) => SomeAtomOpens(parts)
  }

  predicate SomeAtomOpens(parts: seq<Formula>)
    decreases parts
  {
    parts != [] && (AtomOpens(parts[0]) || SomeAtomOpens(parts[1..]))
  }

  // ----- atoms -----

  lemma {:induction false} AtomStops(a: seq<Token>, state: AtomState, rest: seq<Token>)
    requires ScanAtom(a, state) == Some((0, false))
    requires rest == [] || Closes(rest[0])
    ensures AtomLength(a + rest, state) == |a|
    decreases a
  {
    if a == [] {
      assert a + rest == rest;
    } else {
      assert (a + rest)[1..] == a[1..] + rest;
      AtomStops(a[1..], NextState(a[0], state).value, rest);
    }
  }

  // ----- balance -----

  /** The nesting depth after s, unless it falls below zero on the way. */
  function Balance(s: seq<Token>, depth: nat): Option<nat> {
    if s == [] then Some(depth)
    else if Opens(s[0]) then Balance(s[1..], depth + 1)
    else if Closes(s[0]) then if depth == 0 then None else Balance(s[1..], depth - 1)
    else Balance(s[1..], depth)
  }

  lemma {:induction false} BalanceAppend(a: seq<Token>, b: seq<Token>, depth: nat)
    ensures Balance(a + b, depth) == match Balance(a, depth) case None => None case Some(d) => Balance(b, d)
  {
    if a == [] {
      assert a + b == b;
    } else {
      assert (a + b)[1..] == a[1..] + b;
      if Opens(a[0]) {
        BalanceAppend(a[1..], b, depth + 1);
      } else if Closes(a[0]) {
        if depth > 0 {
          BalanceAppend(a[1..], b, depth - 1);
        }
      } else {
        BalanceAppend(a[1..], b, depth);
      }
    }
  }

  lemma {:induction false} ScannedIsBalanced(s: seq<Token>, state: AtomState)
    requires ScanAtom(s, state) != None
    ensures Balance(s, state.0) == Some(ScanAtom(s, state).value.0)
  {
    if s != [] {
      ScannedIsBalanced(s[1..], NextState(s[0], state).value);
    }
  }

  lemma {:induction false} BalanceShift(s: seq<Token>, depth: nat, extra: nat)
    requires Balance(s, depth) != None
    ensures Balance(s, depth + extra) == Some(Balance(s, depth).value + extra)
  {
    if s != [] {
      if Opens(s[0]) {
        BalanceShift(s[1..], depth + 1, extra);
      } else if Closes(s[0]) {
        BalanceShift(s[1..], depth - 1, extra);
      } else {
        BalanceShift(s[1..], depth, extra);
      }
    }
  }

  predicate Balanced(s: seq<Token>) {
    Balance(s, 0) == Some(0)
  }

  lemma {:induction false} BalancedAppend(a: seq<Token>, b: seq<Token>)
    requires Balanced(a) && Balanced(b)
    ensures Balanced(a + b)
  {
    BalanceAppend(a, b, 0);
  }

  lemma {:induction false} BalancedGroup(w: seq<Token>)
    requires Balanced(w)
    ensures Balanced([LPAREN] + w + [RPAREN])
  {
    BalanceShift(w, 0, 1);
    BalanceAppend(w, [RPAREN], 1);
    assert Balance([RPAREN], 1) == Balance([RPAREN][1..], 0) == Some(0);
    assert ([LPAREN] + w + [RPAREN])[1..] == w + [RPAREN];
  }

  lemma {:induction false} RenderIsBalanced(f: Formula)
    requires IsFormula(f)
    ensures Balanced(Render(f))
    decreases f
  {
    match f
    case Simple(atom) => ScannedIsBalanced(atom, (0, false));
    case Negation(body) =>
      RenderIsBalanced(body);
      BalancedGroup(Render(body));
      KeywordIsBalanced("NOT");
      BalancedAppend([Keyword("NOT")], Group(body));
    case Conjunction(parts) =>
      RenderIsBalanced(parts[0]);
      BalancedGroup(Render(parts[0]));
      TailIsBalanced(parts[1..], "AND");
      BalancedAppend(Group(parts[0]), RenderTail(parts[1..], "AND"));
    case Disjunction(parts) =>
      RenderIsBalanced(parts[0]);
      BalancedGroup(Render(parts[0]));
      TailIsBalanced(parts[1..], "OR");
      BalancedAppend(Group(parts[0]), RenderTail(parts[1..], "OR"));
  }

  lemma {:induction false} KeywordIsBalanced(word: string)
    requires word == "AND" || word == "OR" || word == "NOT"
    ensures Balanced([Keyword(word)]) && !Opens(Keyword(word)) && !Closes(Keyword(word))
  {
    assert |word| > 1;
    assert [Keyword(word)][1..] == [];
  }

  lemma {:induction false} TailIsBalanced(parts: seq<Formula>, word: string)
    requires AllFormulas(parts) && (word == "AND" || word == "OR")
    ensures Balanced(RenderTail(parts, word))
    decreases parts
  {
    if parts != [] {
      RenderIsBalanced(parts[0]);
      BalancedGroup(Render(parts[0]));
      KeywordIsBalanced(word);
      BalancedAppend([Keyword(word)], Group(parts[0]));
      TailIsBalanced(parts[1..], word);
      BalancedAppend([Keyword(word)] + Group(parts[0]), RenderTail(parts[1..], word));
    }
  }

  /** Any balanced parenthesis is read as a Boolean group. */
  lemma {:induction false} ClosedGroup(w: seq<Token>, close: Token, rest: seq<Token>, depth: nat)
    requires Balance(w, depth) == Some(0) && Closes(close)
    ensures IsBooleanGroup(w + [close] + rest, depth + 1)
    decreases w
  {
    var s := w + [close] + rest;
    if w == [] {
      assert s[0] == close;
    } else {
      assert s[0] == w[0] && s[1..] == w[1..] + [close] + rest;
      if Opens(w[0]) {
        ClosedGroup(w[1..], close, rest, depth + 1);
      } else if Closes(w[0]) {
        ClosedGroup(w[1..], close, rest, depth - 1);
      } else {
        ClosedGroup(w[1..], close, rest, depth);
      }
    }
  }

  lemma {:induction false} GroupIsBoolean(w: seq<Token>, rest: seq<Token>)
    requires Balanced(w)
    ensures IsBooleanGroup([LPAREN] + w + [RPAREN] + rest, 0)
  {
    var s := [LPAREN] + w + [RPAREN] + rest;
    assert s[1..] == w + [RPAREN] + rest;
    ClosedGroup(w, RPAREN, rest, 0);
  }

  // ----- flattening -----

  /** Conjunctions and disjunctions have at least two operands, so combining one does nothing. */
  predicate Flat(e: Expr) {
    (e.kind == AND || e.kind == OR) ==> e.tokens == [] && |e.operands| >= 2
  }

  lemma {:induction false} CombineOne(kind: Kind, e: Expr)
    requires Flat(e) && (kind == AND || kind == OR)
    ensures Combine(kind, [e]) == e
  {
    assert [e][..0] == [] && [] + e.operands == e.operands;
    assert Splice(kind, [e]) == if e.kind == kind then e.operands else [e];
  }

  lemma {:induction false} SpliceSize(kind: Kind, values: seq<Expr>)
    requires values != [] && forall v | v in values :: Flat(v)
    requires kind == AND || kind == OR
    ensures |Splice(kind, values)| >= 1
    ensures |Splice(kind, values)| == 1 ==> Flat(Splice(kind, values)[0])
  {
    var n := |values| - 1;
    if n > 0 {
      SpliceSize(kind, values[..n]);
      assert values[n] in values;
    } else {
      assert values[0] in values && values[..0] == [];
    }
  }

  lemma {:induction false} CombineIsFlat(kind: Kind, values: seq<Expr>)
    requires values != [] && forall v | v in values :: Flat(v)
    requires kind == AND || kind == OR
    ensures Flat(Combine(kind, values))
  {
    SpliceSize(kind, values);
  }

  lemma {:induction false} FlattenIsFlat(f: Formula)
    requires IsFormula(f)
    ensures Flat(Flatten(f))
    decreases f
  {
    match f
    case Conjunction(parts) =>
      FlattenAllIsFlat(parts);
      CombineIsFlat(AND, FlattenAll(parts));
    case Disjunction(parts) =>
      FlattenAllIsFlat(parts);
      CombineIsFlat(OR, FlattenAll(parts));
    case _ =>
  }

  lemma {:induction false} FlattenAllIsFlat(parts: seq<Formula>)
    requires AllFormulas(parts)
    ensures |FlattenAll(parts)| == |parts| && forall e | e in FlattenAll(parts) :: Flat(e)
    decreases parts
  {
    if parts != [] {
      FlattenIsFlat(parts[0]);
      FlattenAllIsFlat(parts[1..]);
    }
  }

  // ----- the round trip -----

  /** Nothing behind the rendering continues it. */
  predicate Ends(rest: seq<Token>) {
    rest == [] || Closes(rest[0])
  }

  lemma {:induction false} GroupParses(f: Formula, rest: seq<Token>)
    requires IsFormula(f) && !AtomOpens(f)
    ensures ParseNot(Group(f) + rest) == (Flatten(f), rest)
    decreases f, 2
  {
    var w := Render(f);
    var s := Group(f) + rest;
    RenderIsBalanced(f);
    GroupIsBoolean(w, rest);
    assert s == [LPAREN] + w + [RPAREN] + rest;
    assert s[0] == LPAREN && s[1..] == w + ([RPAREN] + rest);
    assert LPAREN.upper[0] != "NOT"[0];
    FormulaParses(f, [RPAREN] + rest);
    assert ([RPAREN] + rest)[1..] == rest;
  }

  lemma {:induction false} FormulaParses(f: Formula, rest: seq<Token>)
    requires IsFormula(f) && !AtomOpens(f) && Ends(rest)
    ensures ParseOr(Render(f) + rest) == (Flatten(f), rest)
    decreases f, 1
  {
    FlattenIsFlat(f);
    match f
    case Simple(atom) =>
      AtomParses(atom, rest);
      SingleParses(Render(f) + rest, Flatten(f), rest);
    case Negation(body) =>
      GroupParses(body, rest);
      var s := Render(f) + rest;
      assert s == [Keyword("NOT")] + (Group(body) + rest);
      assert s[1..] == Group(body) + rest;
      SingleParses(s, Flatten(f), rest);
    case Conjunction(parts) =>
      ConjunctionParses(parts, rest);
      CombineOne(OR, Flatten(f));
      EndsTails(rest);
    case Disjunction(parts) =>
      DisjunctionParses(parts, rest);
  }

  lemma {:induction false} EndsTails(rest: seq<Token>)
    requires Ends(rest)
    ensures OrTail(rest) == ([], rest) && AndTail(rest) == ([], rest)
  {
    if rest != [] {
      assert RPAREN.upper[0] != "OR"[0] && RPAREN.upper[0] != "AND"[0];
    }
  }

  /** What stands alone at the lowest level is the whole expression. */
  lemma {:induction false} SingleParses(s: seq<Token>, e: Expr, rest: seq<Token>)
    requires ParseNot(s) == (e, rest) && Flat(e) && Ends(rest)
    ensures ParseOr(s) == (e, rest)
  {
    EndsTails(rest);
    CombineOne(AND, e);
    CombineOne(OR, e);
    assert [e] + [] == [e];
  }

  lemma {:induction false} AtomParses(atom: seq<Token>, rest: seq<Token>)
    requires IsAtom(atom) && !Opens(atom[0]) && Ends(rest)
    ensures ParseNot(atom + rest) == (Atom(Values(atom)), rest)
  {
    AtomStops(atom, (0, false), rest);
    assert (atom + rest)[0] == atom[0];
    assert (atom + rest)[..|atom|] == atom && (atom + rest)[|atom|..] == rest;
  }

  lemma {:induction false} ConjunctionParses(parts: seq<Formula>, rest: seq<Token>)
    requires parts != [] && AllFormulas(parts) && !SomeAtomOpens(parts) && Ends(rest)
    ensures ParseAnd(Group(parts[0]) + RenderTail(parts[1..], "AND") + rest) == (Combine(AND, FlattenAll(parts)), rest)
    decreases parts, 0
  {
    var tail := RenderTail(parts[1..], "AND") + rest;
    assert Group(parts[0]) + RenderTail(parts[1..], "AND") + rest == Group(parts[0]) + tail;
    GroupParses(parts[0], tail);
    AndTailParses(parts[1..], rest);
  }

  lemma {:induction false} AndTailParses(parts: seq<Formula>, rest: seq<Token>)
    requires AllFormulas(parts) && !SomeAtomOpens(parts) && Ends(rest)
    ensures AndTail(RenderTail(parts, "AND") + rest) == (FlattenAll(parts), rest)
    decreases parts, 0
  {
    if parts == [] {
      assert RenderTail(parts, "AND") + rest == rest;
      EndsTails(rest);
    } else {
      var s := RenderTail(parts, "AND") + rest;
      var tail := RenderTail(parts[1..], "AND") + rest;
      assert s == [Keyword("AND")] + (Group(parts[0]) + tail);
      assert s[1..] == Group(parts[0]) + tail;
      GroupParses(parts[0], tail);
      AndTailParses(parts[1..], rest);
    }
  }

  /** A group in a disjunction is a conjunction of one. */
  lemma {:induction false} DisjunctParses(f: Formula, tail: seq<Token>)
    requires IsFormula(f) && !AtomOpens(f) && !NextIs(tail, "AND")
    ensures ParseAnd(Group(f) + tail) == (Flatten(f), tail)
    decreases f, 3
  {
    GroupParses(f, tail);
    FlattenIsFlat(f);
    CombineOne(AND, Flatten(f));
    assert [Flatten(f)] + [] == [Flatten(f)];
  }

  lemma {:induction false} OrTailStart(parts: seq<Formula>, rest: seq<Token>)
    requires Ends(rest)
    ensures !NextIs(RenderTail(parts, "OR") + rest, "AND")
  {
    if parts == [] {
      assert RenderTail(parts, "OR") + rest == rest;
      EndsTails(rest);
      assert rest != [] ==> RPAREN.upper[0] != "AND"[0];
    } else {
      assert (RenderTail(parts, "OR") + rest)[0] == Keyword("OR");
      assert "OR"[0] != "AND"[0];
    }
  }

  lemma {:induction false} DisjunctionParses(parts: seq<Formula>, rest: seq<Token>)
    requires parts != [] && AllFormulas(parts) && !SomeAtomOpens(parts) && Ends(rest)
    ensures ParseOr(Group(parts[0]) + RenderTail(parts[1..], "OR") + rest) == (Combine(OR, FlattenAll(parts)), rest)
    decreases parts, 0
  {
    var tail := RenderTail(parts[1..], "OR") + rest;
    assert Group(parts[0]) + RenderTail(parts[1..], "OR") + rest == Group(parts[0]) + tail;
    OrTailStart(parts[1..], rest);
    DisjunctParses(parts[0], tail);
    OrTailParses(parts[1..], rest);
  }

  lemma {:induction false} OrTailParses(parts: seq<Formula>, rest: seq<Token>)
    requires AllFormulas(parts) && !SomeAtomOpens(parts) && Ends(rest)
    ensures OrTail(RenderTail(parts, "OR") + rest) == (FlattenAll(parts), rest)
    decreases parts, 0
  {
    if parts == [] {
      assert RenderTail(parts, "OR") + rest == rest;
      EndsTails(rest);
    } else {
      var s := RenderTail(parts, "OR") + rest;
      var tail := RenderTail(parts[1..], "OR") + rest;
      assert s == [Keyword("OR")] + (Group(parts[0]) + tail);
      assert s[1..] == Group(parts[0]) + tail;
      OrTailStart(parts[1..], rest);
      DisjunctParses(parts[0], tail);
      OrTailParses(parts[1..], rest);
    }
  }

  lemma {:induction false} RenderIsNotEmpty(f: Formula)
    requires IsFormula(f)
    ensures Render(f) != []
  {
  }

  // ----- where parsing stops -----

  /** Tokens that no level of the parser goes on from. */
  predicate Stuck(u: seq<Token>) {
    u != [] && !Closes(u[0]) && u[0].upper != "AND" && u[0].upper != "OR"
  }

  /** Balanced tokens in front of which a conjunction or disjunction may go on. */
  predicate Continues(u: seq<Token>, word: string) {
    u != [] && Balanced(u) && u[0].upper == word
  }

  lemma {:induction false} WordsDiffer()
    ensures "AND" != "OR" && "AND" != "NOT" && "OR" != "NOT"
    ensures forall t: Token | Opens(t) || Closes(t) :: t.upper != "AND" && t.upper != "OR" && t.upper != "NOT"
  {
    assert "AND"[0] == 'A' && "OR"[0] == 'O' && "NOT"[0] == 'N' && "("[0] == '(' && ")"[0] == ')';
  }

  /** A group splits at the parenthesis that closes it. */
  lemma {:induction false} SplitGroup(s: seq<Token>, depth: nat)
    requires depth > 0 && Balance(s, depth) == Some(0)
    ensures var n := GroupLength(s, depth);
      n > 0 && Closes(s[n - 1]) && Balance(s[..n - 1], depth - 1) == Some(0) && Balanced(s[n..])
    decreases s
  {
    var n := GroupLength(s, depth);
    if Opens(s[0]) {
      SplitGroup(s[1..], depth + 1);
      assert s[..n - 1][1..] == s[1..][..n - 2] && s[n..] == s[1..][n - 1..];
    } else if Closes(s[0]) {
      if depth > 1 {
        SplitGroup(s[1..], depth - 1);
        assert s[..n - 1][1..] == s[1..][..n - 2] && s[n..] == s[1..][n - 1..];
      }
    } else {
      SplitGroup(s[1..], depth);
      assert s[..n - 1][1..] == s[1..][..n - 2] && s[n..] == s[1..][n - 1..];
    }
  }

  /** Balanced tokens that open with a parenthesis: the inside of the group, its end, the others. */
  lemma {:induction false} OpenGroup(w: seq<Token>) returns (v: seq<Token>, close: Token, t: seq<Token>)
    requires w != [] && Opens(w[0]) && Balanced(w)
    ensures w == [w[0]] + v + [close] + t && Balanced(v) && Balanced(t) && Closes(close)
    ensures |w| - |t| == GroupLength(w, 0)
  {
    var s := w[1..];
    SplitGroup(s, 1);
    var n := GroupLength(s, 1);
    v, close, t := s[..n - 1], s[n - 1], s[n..];
    assert s == v + [close] + t;
  }

  /** An atom among balanced tokens ends with them, or at an AND or OR between balanced parts. */
  lemma {:induction false} AtomStopsInside(w: seq<Token>, ends: seq<Token>, depth: nat, between: bool) returns (n: nat)
    requires Balance(w, depth) == Some(0) && Ends(ends)
    ensures n <= |w| && AtomLength(w + ends, (depth, between)) == n
    ensures n < |w| ==> Continues(w[n..], "AND") || Continues(w[n..], "OR")
    decreases w
  {
    if w == [] {
      n := 0;
      assert w + ends == ends;
    } else {
      assert (w + ends)[0] == w[0] && (w + ends)[1..] == w[1..] + ends;
      match NextState(w[0], (depth, between))
      case None =>
        n := 0;
        assert w[0..] == w;
      case Some((d, b)) =>
        n := AtomStopsInside(w[1..], ends, d, b);
        assert w[1..][n..] == w[n + 1..];
        n := n + 1;
    }
  }

  lemma {:induction false} NotStops(w: seq<Token>, ends: seq<Token>) returns (u: seq<Token>)
    requires Balanced(w) && Ends(ends)
    ensures ParseNot(w + ends).1 == u + ends && |u| <= |w|
    ensures u == [] || Stuck(u) || Continues(u, "AND") || Continues(u, "OR")
    decreases |w|, 1
  {
    WordsDiffer();
    var s := w + ends;
    if w == [] {
      u := [];
      assert s == ends;
      assert s[0..] == s;
    } else {
      assert s[0] == w[0] && s[1..] == w[1..] + ends;
      if w[0].upper == "NOT" {
        u := NotStops(w[1..], ends);
      } else if Opens(w[0]) {
        u := GroupStops(w, ends);
      } else {
        var n := AtomStopsInside(w, ends, 0, false);
        u := w[n..];
        assert s[n..] == u + ends;
      }
    }
  }

  /** A group among balanced tokens: the parser comes out behind it, or gets stuck inside it. */
  lemma {:induction false} GroupStops(w: seq<Token>, ends: seq<Token>) returns (u: seq<Token>)
    requires w != [] && Opens(w[0]) && Balanced(w) && Ends(ends)
    ensures ParseNot(w + ends).1 == u + ends && |u| <= |w|
    ensures u == [] || Stuck(u) || Continues(u, "AND") || Continues(u, "OR")
    ensures GroupLength(w, 0) < |w| && w[GroupLength(w, 0)].upper != "AND" && w[GroupLength(w, 0)].upper != "OR" ==> Stuck(u)
    decreases |w|, 0
  {
    hide ParseOr, IsBooleanGroup, ParseAtom, GroupLength;
    WordsDiffer();
    var v, close, t := OpenGroup(w);
    var s, behind := w + ends, [close] + (t + ends);
    assert s == [w[0]] + (v + behind) && s[1..] == v + behind;
    GroupOpens(w[0], v, close, t + ends);
    var inner := OrStops(v, behind);
    if inner == [] {
      u := t;
      assert inner + behind == behind && behind[1..] == t + ends;
      assert t != [] ==> t[0] == w[|w| - |t|] && !Closes(t[0]);
    } else {
      u := inner + ([close] + t);
      assert inner + behind == u + ends && u[0] == inner[0];
    }
  }

  lemma {:induction false} GroupOpens(open: Token, v: seq<Token>, close: Token, rest: seq<Token>)
    requires Opens(open) && Balanced(v) && Closes(close)
    ensures IsBooleanGroup([open] + (v + ([close] + rest)), 0)
  {
    var s := [open] + (v + ([close] + rest));
    assert s[1..] == v + [close] + rest;
    ClosedGroup(v, close, rest, 0);
  }

  lemma {:induction false} AndStops(w: seq<Token>, ends: seq<Token>) returns (u: seq<Token>)
    requires Balanced(w) && Ends(ends)
    ensures ParseAnd(w + ends).1 == u + ends && |u| <= |w|
    ensures u == [] || Stuck(u) || Continues(u, "OR")
    decreases |w|, 3
  {
    u := NotStops(w, ends);
    u := AndTailStops(u, ends);
  }

  lemma {:induction false} AndTailStops(w: seq<Token>, ends: seq<Token>) returns (u: seq<Token>)
    requires (w == [] || Stuck(w) || Continues(w, "AND") || Continues(w, "OR")) && Ends(ends)
    ensures AndTail(w + ends).1 == u + ends && |u| <= |w|
    ensures u == [] || Stuck(u) || Continues(u, "OR")
    decreases |w|, 2
  {
    WordsDiffer();
    u := w;
    if w == [] {
      assert w + ends == ends;
    } else {
      assert (w + ends)[0] == w[0] && (w + ends)[1..] == w[1..] + ends;
      if w[0].upper == "AND" {
        u := NotStops(w[1..], ends);
        u := AndTailStops(u, ends);
      }
    }
  }

  lemma {:induction false} OrTailStops(w: seq<Token>, ends: seq<Token>) returns (u: seq<Token>)
    requires (w == [] || Stuck(w) || Continues(w, "OR")) && Ends(ends)
    ensures OrTail(w + ends).1 == u + ends && |u| <= |w|
    ensures u == [] || Stuck(u)
    decreases |w|, 4
  {
    WordsDiffer();
    u := w;
    if w == [] {
      assert w + ends == ends;
    } else {
      assert (w + ends)[0] == w[0] && (w + ends)[1..] == w[1..] + ends;
      if w[0].upper == "OR" {
        u := AndStops(w[1..], ends);
        u := OrTailStops(u, ends);
      }
    }
  }

  /** On balanced tokens the parser stops behind them, or inside them at a token that no level goes
      on from. */
  lemma {:induction false} OrStops(w: seq<Token>, ends: seq<Token>) returns (u: seq<Token>)
    requires Balanced(w) && Ends(ends)
    ensures ParseOr(w + ends).1 == u + ends && |u| <= |w|
    ensures u == [] || Stuck(u)
    decreases |w|, 5
  {
    u := AndStops(w, ends);
    u := OrTailStops(u, ends);
  }

  // ----- an atom that opens with a parenthesis stops everything -----

  lemma {:induction false} StuckTails(u: seq<Token>)
    requires Stuck(u)
    ensures AndTail(u) == ([], u) && OrTail(u) == ([], u)
  {
  }

  /** The parser does not come to the end of such an atom. */
  lemma {:induction false} OpenAtomSticks(atom: seq<Token>, ends: seq<Token>) returns (u: seq<Token>)
    requires IsAtom(atom) && Opens(atom[0]) && Ends(ends)
    ensures ParseNot(atom + ends).1 == u + ends && Stuck(u)
  {
    ScannedIsBalanced(atom, (0, false));
    BehindGroup(atom[1..], 1);
    u := GroupStops(atom, ends);
  }

  /** What follows the closing parenthesis of an atom's first group is neither AND nor OR. */
  lemma {:induction false} BehindGroup(s: seq<Token>, depth: nat)
    requires depth > 0 && ScanAtom(s, (depth, false)) != None
    ensures var n := GroupLength(s, depth); n < |s| ==> s[n].upper != "AND" && s[n].upper != "OR"
    decreases s
  {
    WordsDiffer();
    if s != [] {
      var next := NextState(s[0], (depth, false)).value;
      if next.0 > 0 {
        BehindGroup(s[1..], next.0);
      } else if |s| > 1 {
        assert NextState(s[1..][0], next) != None;
      }
    }
  }

  /** Where the parser stops in the rendering of a formula with such an atom. */
  lemma {:induction false} OpenFormulaSticks(f: Formula, rest: seq<Token>) returns (u: seq<Token>)
    requires IsFormula(f) && AtomOpens(f) && Ends(rest)
    ensures ParseOr(Render(f) + rest).1 == u + rest && Stuck(u)
    decreases f, 1
  {
    match f
    case Simple(atom) =>
      u := OpenAtomSticks(atom, rest);
      StuckNot(Render(f) + rest, u, rest);
    case Negation(body) =>
      u := OpenGroupSticks(body, rest);
      NegationStops(body, rest);
      StuckNot(Render(f) + rest, u, rest);
    case Conjunction(parts) => u := OpenConjunctionSticks(parts, rest);
    case Disjunction(parts) => u := OpenDisjunctionSticks(parts, rest);
  }

  lemma {:induction false} NegationStops(body: Formula, rest: seq<Token>)
    ensures ParseNot(Render(Negation(body)) + rest).1 == ParseNot(Group(body) + rest).1
  {
    var s := Render(Negation(body)) + rest;
    assert s == [Keyword("NOT")] + (Group(body) + rest);
    assert s[1..] == Group(body) + rest;
  }

  lemma {:induction false} StuckNot(s: seq<Token>, u: seq<Token>, rest: seq<Token>)
    requires ParseNot(s).1 == u + rest && Stuck(u)
    ensures ParseAnd(s).1 == u + rest && ParseOr(s).1 == u + rest
  {
    assert (u + rest)[0] == u[0];
    StuckTails(u + rest);
  }

  lemma {:induction false} OpenGroupSticks(f: Formula, rest: seq<Token>) returns (u: seq<Token>)
    requires IsFormula(f) && AtomOpens(f)
    ensures ParseNot(Group(f) + rest).1 == u + rest && Stuck(u)
    decreases f, 2
  {
    WordsDiffer();
    var w := Render(f);
    var s := Group(f) + rest;
    RenderIsBalanced(f);
    GroupIsBoolean(w, rest);
    assert s == [LPAREN] + w + [RPAREN] + rest;
    assert s[0] == LPAREN && s[1..] == w + ([RPAREN] + rest);
    var inner := OpenFormulaSticks(f, [RPAREN] + rest);
    u := inner + [RPAREN];
    assert inner + ([RPAREN] + rest) == u + rest && u[0] == inner[0];
  }

  lemma {:induction false} OpenConjunctionSticks(parts: seq<Formula>, rest: seq<Token>) returns (u: seq<Token>)
    requires parts != [] && AllFormulas(parts) && SomeAtomOpens(parts) && Ends(rest)
    ensures ParseOr(Group(parts[0]) + RenderTail(parts[1..], "AND") + rest).1 == u + rest && Stuck(u)
    decreases parts, 0
  {
    var tail := RenderTail(parts[1..], "AND") + rest;
    var s := Group(parts[0]) + tail;
    assert Group(parts[0]) + RenderTail(parts[1..], "AND") + rest == s;
    if AtomOpens(parts[0]) {
      var inner := OpenGroupSticks(parts[0], tail);
      u := inner + RenderTail(parts[1..], "AND");
      assert inner + tail == u + rest && u[0] == inner[0];
      StuckNot(s, u, rest);
    } else {
      GroupParses(parts[0], tail);
      u := OpenAndTailSticks(parts[1..], rest);
      assert (u + rest)[0] == u[0];
      StuckTails(u + rest);
    }
  }

  lemma {:induction false} OpenAndTailSticks(parts: seq<Formula>, rest: seq<Token>) returns (u: seq<Token>)
    requires AllFormulas(parts) && SomeAtomOpens(parts) && Ends(rest)
    ensures AndTail(RenderTail(parts, "AND") + rest).1 == u + rest && Stuck(u)
    decreases parts, 0
  {
    var s := RenderTail(parts, "AND") + rest;
    var tail := RenderTail(parts[1..], "AND") + rest;
    assert s == [Keyword("AND")] + (Group(parts[0]) + tail);
    assert s[1..] == Group(parts[0]) + tail;
    if AtomOpens(parts[0]) {
      var inner := OpenGroupSticks(parts[0], tail);
      u := inner + RenderTail(parts[1..], "AND");
      assert inner + tail == u + rest && u[0] == inner[0];
      assert (u + rest)[0] == u[0];
      StuckTails(u + rest);
    } else {
      GroupParses(parts[0], tail);
      u := OpenAndTailSticks(parts[1..], rest);
    }
  }

  lemma {:induction false} OpenDisjunctionSticks(parts: seq<Formula>, rest: seq<Token>) returns (u: seq<Token>)
    requires parts != [] && AllFormulas(parts) && SomeAtomOpens(parts) && Ends(rest)
    ensures ParseOr(Group(parts[0]) + RenderTail(parts[1..], "OR") + rest).1 == u + rest && Stuck(u)
    decreases parts, 0
  {
    var tail := RenderTail(parts[1..], "OR") + rest;
    var s := Group(parts[0]) + tail;
    assert Group(parts[0]) + RenderTail(parts[1..], "OR") + rest == s;
    if AtomOpens(parts[0]) {
      var inner := OpenGroupSticks(parts[0], tail);
      u := inner + RenderTail(parts[1..], "OR");
      assert inner + tail == u + rest && u[0] == inner[0];
      StuckNot(s, u, rest);
    } else {
      OrTailStart(parts[1..], rest);
      DisjunctParses(parts[0], tail);
      u := OpenOrTailSticks(parts[1..], rest);
    }
  }

  lemma {:induction false} OpenOrTailSticks(parts: seq<Formula>, rest: seq<Token>) returns (u: seq<Token>)
    requires AllFormulas(parts) && SomeAtomOpens(parts) && Ends(rest)
    ensures OrTail(RenderTail(parts, "OR") + rest).1 == u + rest && Stuck(u)
    decreases parts, 0
  {
    var s := RenderTail(parts, "OR") + rest;
    var tail := RenderTail(parts[1..], "OR") + rest;
    assert s == [Keyword("OR")] + (Group(parts[0]) + tail);
    assert s[1..] == Group(parts[0]) + tail;
    if AtomOpens(parts[0]) {
      var inner := OpenGroupSticks(parts[0], tail);
      u := inner + RenderTail(parts[1..], "OR");
      assert inner + tail == u + rest && u[0] == inner[0];
      StuckNot(Group(parts[0]) + tail, u, rest);
      assert (u + rest)[0] == u[0];
      StuckTails(u + rest);
    } else {
      OrTailStart(parts[1..], rest);
      DisjunctParses(parts[0], tail);
      u := OpenOrTailSticks(parts[1..], rest);
    }
  }

  // ----- the round trip, exactly -----

  lemma {:induction false} ValuesSize(ts: seq<Token>)
    ensures |Values(ts)| == |ts|
  {
    if ts != [] {
      ValuesSize(ts[1..]);
    }
  }

  /** A formula that is more than an atom and still flattens to one renders longer than that atom. */
  lemma {:induction false} FlattenedAtomIsShorter(f: Formula)
    requires IsFormula(f) && Flatten(f).kind == ATOMIC
    ensures |Flatten(f).tokens| <= |Render(f)| && (!f.Simple? ==> |Flatten(f).tokens| < |Render(f)|)
    decreases f
  {
    match f
    case Simple(atom) => ValuesSize(atom);
    case Conjunction(parts) => SinglePart(parts, AND);
    case Disjunction(parts) => SinglePart(parts, OR);
    case _ =>
  }

  lemma {:induction false} SinglePart(parts: seq<Formula>, kind: Kind)
    requires parts != [] && AllFormulas(parts) && (kind == AND || kind == OR)
    requires Combine(kind, FlattenAll(parts)).kind == ATOMIC
    ensures |Combine(kind, FlattenAll(parts)).tokens| < |Group(parts[0])|
    decreases parts, 0
  {
    FlattenAllIsFlat(parts);
    var values := FlattenAll(parts);
    SpliceIsLong(kind, values);
    var e := values[0];
    assert |values| == 1 && e in values && values == [e] && [e][..0] == [];
    assert Splice(kind, [e]) == if e.kind == kind then e.operands else [e];
    FlattenedAtomIsShorter(parts[0]);
  }

  /** Every operand contributes to a spliced list. */
  lemma {:induction false} SpliceIsLong(kind: Kind, values: seq<Expr>)
    requires (kind == AND || kind == OR) && forall v | v in values :: Flat(v)
    ensures |Splice(kind, values)| >= |values|
  {
    if values != [] {
      var n := |values| - 1;
      assert values[n] in values;
      SpliceIsLong(kind, values[..n]);
    }
  }

  /** Parsing the rendering of a formula yields the flattened formula exactly when the formula is a
      single atom or none of its atoms opens with a parenthesis.  Otherwise the whole rendering
      becomes one atom. */
  lemma {:induction false} RoundTrip(f: Formula)
    requires IsFormula(f)
    ensures Parse(Render(f)) == Flatten(f) <==> f.Simple? || !AtomOpens(f)
    ensures AtomOpens(f) ==> Parse(Render(f)) == Atom(Values(Render(f)))
  {
    RenderIsNotEmpty(f);
    assert Render(f) + [] == Render(f);
    if AtomOpens(f) {
      var u := OpenFormulaSticks(f, []);
      assert u + [] == u;
      ValuesSize(Render(f));
      if Flatten(f).kind == ATOMIC {
        FlattenedAtomIsShorter(f);
      }
    } else {
      FormulaParses(f, []);
    }
  }

  /** One atom that opens with a parenthesis, in the last place of an unparenthesised conjunction,
      is enough:  A = 1 AND (B + C) > 3  becomes a single atom. */
  lemma {:induction false} TrailingOperandIsSwallowed(a: seq<Token>, b: seq<Token>)
    requires IsAtom(a) && !Opens(a[0]) && IsAtom(b) && Opens(b[0])
    ensures var s := a + [Keyword("AND")] + b; Parse(s) == Atom(Values(s))
  {
    WordsDiffer();
    var s, tail := a + [Keyword("AND")] + b, [Keyword("AND")] + b;
    assert s == a + tail && s[0] == a[0] && tail[1..] == b;
    AtomStopsAtAnd(a, (0, false), tail);
    assert s[|a|..] == tail;
    var u := OpenAtomSticks(b, []);
    assert b + [] == b && u + [] == u;
    StuckTails(u);
    assert ParseNot(s).1 == tail;
    assert AndTail(tail).1 == u;
    assert ParseAnd(s).1 == u;
    assert ParseOr(s).1 == u;
  }

  lemma {:induction false} AtomStopsAtAnd(a: seq<Token>, state: AtomState, tail: seq<Token>)
    requires ScanAtom(a, state) == Some((0, false)) && tail != [] && tail[0] == Keyword("AND")
    ensures AtomLength(a + tail, state) == |a|
    decreases a
  {
    if a == [] {
      assert a + tail == tail;
      KeywordIsBalanced("AND");
      assert tail[0].upper[0] == 'A';
    } else {
      assert (a + tail)[1..] == a[1..] + tail;
      AtomStopsAtAnd(a[1..], NextState(a[0], state).value, tail);
    }
  }

  /** A group in front of anything but AND or OR swallows the structure of the whole input: a
      condition such as (A + B) > 3 AND C = 1 becomes a single atom. */
  lemma {:induction false} LeadingGroupIsOneAtom(f: Formula, rest: seq<Token>)
    requires IsFormula(f) && rest != [] && !NextIs(rest, "AND") && !NextIs(rest, "OR")
    ensures Parse(Group(f) + rest) == Atom(Values(Group(f) + rest))
  {
    var s := Group(f) + rest;
    if AtomOpens(f) {
      var u := OpenGroupSticks(f, rest);
      StuckNot(s, u, rest);
    } else {
      DisjunctParses(f, rest);
      assert OrTail(rest) == ([], rest);
    }
  }

  // ----- every parse is well-formed -----

  lemma {:induction false} SpliceWellFormed(kind: Kind, values: seq<Expr>)
    requires AllWellFormed(values)
    ensures AllWellFormed(Splice(kind, values))
  {
    if values != [] {
      var n := |values| - 1;
      SpliceWellFormed(kind, values[..n]);
      assert values[n] in values && WellFormed(values[n]);
      assert AllWellFormed(values[n].operands);
    }
  }

  lemma {:induction false} CombineWellFormed(kind: Kind, values: seq<Expr>)
    requires (kind == AND || kind == OR) && AllWellFormed(values)
    ensures WellFormed(Combine(kind, values))
  {
    SpliceWellFormed(kind, values);
  }

  /** Whatever the input, the parser returns an expression that the branch expansion accepts. */
  lemma {:induction false} ParseIsWellFormed(s: seq<Token>)
    ensures WellFormed(Parse(s))
  {
    OrIsWellFormed(s);
  }

  lemma {:induction false} OrIsWellFormed(s: seq<Token>)
    ensures WellFormed(ParseOr(s).0)
    decreases |s|, 5
  {
    var (first, rest) := ParseAnd(s);
    AndIsWellFormed(s);
    OrTailIsWellFormed(rest);
    CombineWellFormed(OR, [first] + OrTail(rest).0);
  }

  lemma {:induction false} OrTailIsWellFormed(s: seq<Token>)
    ensures AllWellFormed(OrTail(s).0)
    decreases |s|, 4
  {
    if NextIs(s, "OR") {
      AndIsWellFormed(s[1..]);
      OrTailIsWellFormed(ParseAnd(s[1..]).1);
    }
  }

  lemma {:induction false} AndIsWellFormed(s: seq<Token>)
    ensures WellFormed(ParseAnd(s).0)
    decreases |s|, 3
  {
    var (first, rest) := ParseNot(s);
    NotIsWellFormed(s);
    AndTailIsWellFormed(rest);
    CombineWellFormed(AND, [first] + AndTail(rest).0);
  }

  lemma {:induction false} AndTailIsWellFormed(s: seq<Token>)
    ensures AllWellFormed(AndTail(s).0)
    decreases |s|, 2
  {
    if NextIs(s, "AND") {
      NotIsWellFormed(s[1..]);
      AndTailIsWellFormed(ParseNot(s[1..]).1);
    }
  }

  lemma {:induction false} NotIsWellFormed(s: seq<Token>)
    ensures WellFormed(ParseNot(s).0)
    decreases |s|, 1
  {
    if NextIs(s, "NOT") {
      NotIsWellFormed(s[1..]);
    } else if s != [] && Opens(s[0]) && IsBooleanGroup(s, 0) {
      OrIsWellFormed(s[1..]);
    }
  }
}
