/** Conditions as they are written: parentheses where precedence needs them, and anywhere else. */
module WrittenConditions {
  import opened Basics
  import opened Predicates
  import opened BooleanParser

  /** A written condition: operands, with nothing where one is missing, NOT, AND, OR and parentheses. */
  datatype Written =
    | Operand(atom: seq<Token>)
    | Missing
    | Negated(body: Written)
    | Both(parts: seq<Written>)
    | Either(parts: seq<Written>)
    | Grouped(body: Written)

  /** How loosely a condition binds. */
  function Level(w: Written): nat {
    match w
    case Both(_) => 1
    case Either(_) => 2
    case _ => 0
  }

  /** NOT binds tighter than AND, and AND tighter than OR.  No operand opens with a parenthesis. */
  predicate Proper(w: Written)
    decreases w
  {
    match w
    case Operand(atom) => IsAtom(atom) && !Opens(atom[0])
    case Missing => true
    case Negated(body) => Level(body) == 0 && Proper(body)
    case Both(parts) => parts != [] && AllProper(parts, 0)
    case Either(parts) => parts != [] && AllProper(parts, 1)
    case Grouped(body) => Proper(body)
  }

  predicate AllProper(ws: seq<Written>, level: nat)
    decreases ws
  {
    ws != [] ==> Level(ws[0]) <= level && Proper(ws[0]) && AllProper(ws[1..], level)
  }

  function Text(w: Written): seq<Token>
    decreases w
  {
    match w
    case Operand(atom) => atom
    case Missing => []
    case Negated(body) => [Keyword("NOT")] + Text(body)
    case Both(parts) => if parts == [] then [] else Text(parts[0]) + TextTail(parts[1..], "AND")
    case Either(parts) => if parts == [] then [] else Text(parts[0]) + TextTail(parts[1..], "OR")
    case Grouped(body) => [LPAREN] + Text(body) + [RPAREN]
  }

  function TextTail(ws: seq<Written>, word: string): seq<Token>
    decreases ws
  {
    if ws == [] then [] else [Keyword(word)] + Text(ws[0]) + TextTail(ws[1..], word)
  }

  function Meaning(w: Written): Expr
    decreases w
  {
    match w
    case Operand(atom) => Atom(Values(atom))
    case Missing => Expr(UNKNOWN, [], [])
    case Negated(body) => Not(Meaning(body))
    case Both(parts) => Combine(AND, Meanings(parts))
    case Either(parts) => Combine(OR, Meanings(parts))
    case Grouped(body) => Meaning(body)
  }

  function Meanings(ws: seq<Written>): (es: seq<Expr>)
    ensures |es| == |ws|
    decreases ws
  {
    if ws == [] then [] else [Meaning(ws[0])] + Meanings(ws[1..])
  }

  // ----- every written condition is parsed as it is meant -----

  lemma {:induction false} MeaningIsFlat(w: Written)
    requires Proper(w)
    ensures Flat(Meaning(w))
    decreases w
  {
    match w
    case Both(parts) =>
      MeaningsAreFlat(parts, 0);
      CombineIsFlat(AND, Meanings(parts));
    case Either(parts) =>
      MeaningsAreFlat(parts, 1);
      CombineIsFlat(OR, Meanings(parts));
    case Grouped(body) => MeaningIsFlat(body);
    case _ =>
  }

  lemma {:induction false} MeaningsAreFlat(ws: seq<Written>, level: nat)
    requires AllProper(ws, level)
    ensures forall e | e in Meanings(ws) :: Flat(e)
    decreases ws
  {
    if ws != [] {
      MeaningIsFlat(ws[0]);
      MeaningsAreFlat(ws[1..], level);
    }
  }

  lemma {:induction false} TextIsBalanced(w: Written)
    requires Proper(w)
    ensures Balanced(Text(w))
    decreases w
  {
    match w
    case Operand(atom) => ScannedIsBalanced(atom, (0, false));
    case Missing =>
    case Negated(body) =>
      TextIsBalanced(body);
      KeywordIsBalanced("NOT");
      BalancedAppend([Keyword("NOT")], Text(body));
    case Both(parts) =>
      TextIsBalanced(parts[0]);
      TailIsBalanced(parts[1..], 0, "AND");
      BalancedAppend(Text(parts[0]), TextTail(parts[1..], "AND"));
    case Either(parts) =>
      TextIsBalanced(parts[0]);
      TailIsBalanced(parts[1..], 1, "OR");
      BalancedAppend(Text(parts[0]), TextTail(parts[1..], "OR"));
    case Grouped(body) =>
      TextIsBalanced(body);
      BalancedGroup(Text(body));
  }

  lemma {:induction false} TailIsBalanced(ws: seq<Written>, level: nat, word: string)
    requires AllProper(ws, level) && (word == "AND" || word == "OR")
    ensures Balanced(TextTail(ws, word))
    decreases ws
  {
    if ws != [] {
      TextIsBalanced(ws[0]);
      KeywordIsBalanced(word);
      BalancedAppend([Keyword(word)], Text(ws[0]));
      TailIsBalanced(ws[1..], level, word);
      BalancedAppend([Keyword(word)] + Text(ws[0]), TextTail(ws[1..], word));
    }
  }

  /** No operand goes on with rest. */
  predicate EndsOperand(rest: seq<Token>) {
    Ends(rest) || rest[0].upper == "AND" || rest[0].upper == "OR"
  }

  lemma {:induction false} OperandStops(a: seq<Token>, state: AtomState, rest: seq<Token>)
    requires ScanAtom(a, state) == Some((0, false)) && EndsOperand(rest)
    ensures AtomLength(a + rest, state) == |a|
    decreases a
  {
    if a == [] {
      assert a + rest == rest;
      WordsDiffer();
      BetweenDiffers();
    } else {
      assert (a + rest)[1..] == a[1..] + rest;
      OperandStops(a[1..], NextState(a[0], state).value, rest);
    }
  }

  lemma {:induction false} BetweenDiffers()
    ensures "BETWEEN" != "AND" && "BETWEEN" != "OR"
  {
    assert "BETWEEN"[0] == 'B' && "AND"[0] == 'A' && "OR"[0] == 'O';
  }

  lemma {:induction false} OperandParses(atom: seq<Token>, rest: seq<Token>)
    requires IsAtom(atom) && !Opens(atom[0]) && EndsOperand(rest)
    ensures ParseNot(atom + rest) == (Atom(Values(atom)), rest)
  {
    OperandStops(atom, (0, false), rest);
    assert (atom + rest)[0] == atom[0];
    assert (atom + rest)[..|atom|] == atom && (atom + rest)[|atom|..] == rest;
  }

  /** A missing operand is UNKNOWN, and takes nothing. */
  lemma {:induction false} MissingParses(rest: seq<Token>)
    requires EndsOperand(rest)
    ensures ParseNot(rest) == (Expr(UNKNOWN, [], []), rest)
  {
    WordsDiffer();
    BetweenDiffers();
    assert rest[0..] == rest;
  }

  lemma {:induction false} UnitParses(w: Written, rest: seq<Token>)
    requires Proper(w) && Level(w) == 0 && EndsOperand(rest)
    ensures ParseNot(Text(w) + rest) == (Meaning(w), rest)
    decreases w, 0
  {
    hide ParseOr, ParseAtom, IsBooleanGroup, IsAtom;
    var s := Text(w) + rest;
    match w
    case Operand(atom) => OperandParses(atom, rest);
    case Missing =>
      assert s == rest;
      MissingParses(rest);
    case Negated(body) =>
      assert s == [Keyword("NOT")] + (Text(body) + rest);
      assert s[1..] == Text(body) + rest;
      UnitParses(body, rest);
    case Grouped(body) =>
      WordsDiffer();
      TextIsBalanced(body);
      GroupIsBoolean(Text(body), rest);
      assert s == [LPAREN] + Text(body) + [RPAREN] + rest;
      assert s[0] == LPAREN && s[1..] == Text(body) + ([RPAREN] + rest);
      WholeParses(body, [RPAREN] + rest);
      assert ([RPAREN] + rest)[1..] == rest;
  }

  lemma {:induction false} FactorsParse(w: Written, rest: seq<Token>)
    requires Proper(w) && Level(w) <= 1 && (Ends(rest) || rest[0].upper == "OR")
    ensures ParseAnd(Text(w) + rest) == (Meaning(w), rest)
    decreases w, 1
  {
    hide ParseNot;
    WordsDiffer();
    if w.Both? {
      var tail := TextTail(w.parts[1..], "AND") + rest;
      assert Text(w) + rest == Text(w.parts[0]) + tail;
      TailStarts(w.parts[1..], "AND", rest);
      UnitParses(w.parts[0], tail);
      AndTailParses(w.parts[1..], rest);
    } else {
      UnitParses(w, rest);
      MeaningIsFlat(w);
      CombineOne(AND, Meaning(w));
      assert [Meaning(w)] + [] == [Meaning(w)];
    }
  }

  /** What stands behind a keyword of a list. */
  function Behind(ws: seq<Written>, word: string): seq<Token>
    requires ws != []
  {
    Text(ws[0]) + TextTail(ws[1..], word)
  }

  lemma {:induction false} TailIsKeyword(ws: seq<Written>, word: string)
    requires ws != []
    ensures TextTail(ws, word) == [Keyword(word)] + Behind(ws, word)
  {
    Associates([Keyword(word)], Text(ws[0]), TextTail(ws[1..], word));
  }

  lemma {:induction false} Associates(a: seq<Token>, b: seq<Token>, c: seq<Token>)
    ensures a + b + c == a + (b + c)
  {
  }

  lemma {:induction false} TailStarts(ws: seq<Written>, word: string, rest: seq<Token>)
    ensures ws == [] ==> TextTail(ws, word) + rest == rest
    ensures ws != [] ==> |TextTail(ws, word)| > 0 && (TextTail(ws, word) + rest)[0] == Keyword(word)
    ensures ws != [] ==> (TextTail(ws, word) + rest)[1..] == Text(ws[0]) + (TextTail(ws[1..], word) + rest)
  {
    hide TextTail, Text;
    if ws == [] {
      assert TextTail(ws, word) == [] by {
        NoTail(word);
      }
    } else {
      TailIsKeyword(ws, word);
      var behind := Behind(ws, word);
      Associates([Keyword(word)], behind, rest);
      Associates(Text(ws[0]), TextTail(ws[1..], word), rest);
      assert ([Keyword(word)] + (behind + rest))[1..] == behind + rest;
    }
  }

  lemma {:induction false} NoTail(word: string)
    ensures TextTail([], word) == []
  {
  }

  lemma {:induction false} AndTailParses(ws: seq<Written>, rest: seq<Token>)
    requires AllProper(ws, 0) && (Ends(rest) || rest[0].upper == "OR")
    ensures AndTail(TextTail(ws, "AND") + rest) == (Meanings(ws), rest)
    decreases ws, 0
  {
    hide ParseNot;
    WordsDiffer();
    TailStarts(ws, "AND", rest);
    if ws != [] {
      TailStarts(ws[1..], "AND", rest);
      UnitParses(ws[0], TextTail(ws[1..], "AND") + rest);
      AndTailParses(ws[1..], rest);
    }
  }

  lemma {:induction false} WholeParses(w: Written, rest: seq<Token>)
    requires Proper(w) && Ends(rest)
    ensures ParseOr(Text(w) + rest) == (Meaning(w), rest)
    decreases w, 2
  {
    hide ParseAnd;
    WordsDiffer();
    match w
    case Either(parts) =>
      var tail := TextTail(parts[1..], "OR") + rest;
      assert Text(w) + rest == Text(parts[0]) + tail;
      TailStarts(parts[1..], "OR", rest);
      FactorsParse(parts[0], tail);
      OrTailParses(parts[1..], rest);
    case _ =>
      FactorsParse(w, rest);
      MeaningIsFlat(w);
      CombineOne(OR, Meaning(w));
      assert [Meaning(w)] + [] == [Meaning(w)];
  }

  lemma {:induction false} OrTailParses(ws: seq<Written>, rest: seq<Token>)
    requires AllProper(ws, 1) && Ends(rest)
    ensures OrTail(TextTail(ws, "OR") + rest) == (Meanings(ws), rest)
    decreases ws, 1
  {
    hide ParseAnd;
    WordsDiffer();
    TailStarts(ws, "OR", rest);
    if ws != [] {
      TailStarts(ws[1..], "OR", rest);
      FactorsParse(ws[0], TextTail(ws[1..], "OR") + rest);
      OrTailParses(ws[1..], rest);
    }
  }

  /** Every written condition that says anything is parsed as it is meant, whichever of its parentheses are
      needed. */
  lemma {:induction false} WrittenIsParsed(w: Written)
    requires Proper(w) && Text(w) != []
    ensures Parse(Text(w)) == Meaning(w)
  {
    hide ParseOr;
    WholeParses(w, []);
    assert Text(w) + [] == Text(w);
  }

  // ----- combining flattens -----

  /** No conjunction has a conjunction for an operand, and no disjunction a disjunction. */
  predicate NotNested(e: Expr)
    decreases e
  {
    Flat(e) && forall o | o in e.operands :: NotNested(o) && ((e.kind == AND || e.kind == OR) ==> o.kind != e.kind)
  }

  /** The operands of e if it is of the given kind, or e itself. */
  function Units(kind: Kind, e: Expr): seq<Expr> {
    if e.kind == kind then e.operands else [e]
  }

  function UnitsOfAll(kind: Kind, es: seq<Expr>): seq<Expr> {
    if es == [] then [] else Units(kind, es[0]) + UnitsOfAll(kind, es[1..])
  }

  lemma {:induction false} SpliceJoins(kind: Kind, a: seq<Expr>, b: seq<Expr>)
    ensures Splice(kind, a + b) == Splice(kind, a) + Splice(kind, b)
    decreases |b|
  {
    if b == [] {
      assert a + b == a && Splice(kind, a) + [] == Splice(kind, a);
    } else {
      var n, last := |b| - 1, b[|b| - 1];
      assert (a + b)[..|a + b| - 1] == a + b[..n] && (a + b)[|a + b| - 1] == last;
      SpliceJoins(kind, a, b[..n]);
      var end := Units(kind, last);
      assert Splice(kind, a) + Splice(kind, b[..n]) + end == Splice(kind, a) + (Splice(kind, b[..n]) + end);
    }
  }

  lemma {:induction false} SpliceOne(kind: Kind, e: Expr)
    ensures Splice(kind, [e]) == Units(kind, e)
  {
    assert [e][..0] == [] && [] + Units(kind, e) == Units(kind, e);
  }

  lemma {:induction false} SpliceIsUnits(kind: Kind, es: seq<Expr>)
    ensures Splice(kind, es) == UnitsOfAll(kind, es)
  {
    if es != [] {
      SpliceIsUnits(kind, es[1..]);
      SpliceOne(kind, es[0]);
      SpliceJoins(kind, [es[0]], es[1..]);
      assert es == [es[0]] + es[1..];
    }
  }

  lemma {:induction false} UnitsAreNotNested(kind: Kind, es: seq<Expr>)
    requires (kind == AND || kind == OR) && forall e | e in es :: NotNested(e)
    ensures forall u | u in UnitsOfAll(kind, es) :: NotNested(u) && u.kind != kind
  {
    if es != [] {
      UnitsAreNotNested(kind, es[1..]);
      assert es[0] in es;
    }
  }

  /** Combining lines up the operands of what is of its own kind and everything else, in order, and nests
      nothing. */
  lemma {:induction false} CombineFlattens(kind: Kind, es: seq<Expr>)
    requires (kind == AND || kind == OR) && es != [] && forall e | e in es :: NotNested(e)
    ensures NotNested(Combine(kind, es))
    ensures Units(kind, Combine(kind, es)) == UnitsOfAll(kind, es)
  {
    SpliceIsUnits(kind, es);
    UnitsAreNotNested(kind, es);
    SpliceSize(kind, es);
    var units := UnitsOfAll(kind, es);
    if |units| == 1 {
      assert units[0] in units && units == [units[0]];
    }
  }

  lemma {:induction false} MeaningIsNotNested(w: Written)
    requires Proper(w)
    ensures NotNested(Meaning(w))
    decreases w
  {
    match w
    case Negated(body) => MeaningIsNotNested(body);
    case Both(parts) =>
      MeaningsAreNotNested(parts, 0);
      CombineFlattens(AND, Meanings(parts));
    case Either(parts) =>
      MeaningsAreNotNested(parts, 1);
      CombineFlattens(OR, Meanings(parts));
    case Grouped(body) => MeaningIsNotNested(body);
    case _ =>
  }

  lemma {:induction false} MeaningsAreNotNested(ws: seq<Written>, level: nat)
    requires AllProper(ws, level)
    ensures forall e | e in Meanings(ws) :: NotNested(e)
    decreases ws
  {
    if ws != [] {
      MeaningIsNotNested(ws[0]);
      MeaningsAreNotNested(ws[1..], level);
    }
  }

  // ----- as few parentheses as possible -----

  function Protected(w: Written, level: nat): Written {
    if Level(w) <= level then w else Grouped(w)
  }

  /** A formula, written with parentheses only where precedence needs them. */
  function Plain(f: Formula): Written
    decreases f
  {
    match f
    case Simple(atom) => Operand(atom)
    case Negation(body) => Negated(Protected(Plain(body), 0))
    case Conjunction(parts) => if |parts| == 1 then Plain(parts[0]) else Both(Factors(parts))
    case Disjunction(parts) => if |parts| == 1 then Plain(parts[0]) else Either(Alternatives(parts))
  }

  function Factors(parts: seq<Formula>): seq<Written>
    decreases parts
  {
    if parts == [] then []
    else (if Plain(parts[0]).Both? then Plain(parts[0]).parts else [Protected(Plain(parts[0]), 0)]) + Factors(parts[1..])
  }

  function Alternatives(parts: seq<Formula>): seq<Written>
    decreases parts
  {
    if parts == [] then []
    else (if Plain(parts[0]).Either? then Plain(parts[0]).parts else [Plain(parts[0])]) + Alternatives(parts[1..])
  }

  /** Parentheses stand only around a disjunction in a conjunction, and around either under NOT. */
  predicate Sparing(w: Written)
    decreases w, 0
  {
    match w
    case Negated(body) => if body.Grouped? then Level(body.body) > 0 && Sparing(body.body) else Sparing(body)
    case Both(parts) => AllSparing(parts)
    case Either(parts) => AllSparing(parts) && forall p | p in parts :: !p.Grouped?
    case Grouped(_) => false
    case _ => true
  }

  predicate AllSparing(ws: seq<Written>)
    decreases ws
  {
    ws != [] ==>
      SparingPart(ws[0]) && AllSparing(ws[1..])
  }

  predicate SparingPart(w: Written)
    decreases w, 1
  {
    if w.Grouped? then w.body.Either? && Sparing(w.body) else Sparing(w)
  }

  lemma {:induction false} ProperJoins(a: seq<Written>, b: seq<Written>, level: nat)
    ensures AllProper(a + b, level) <==> AllProper(a, level) && AllProper(b, level)
    ensures AllSparing(a + b) <==> AllSparing(a) && AllSparing(b)
    ensures Meanings(a + b) == Meanings(a) + Meanings(b)
    decreases a
  {
    if a == [] {
      assert a + b == b;
    } else {
      assert (a + b)[1..] == a[1..] + b;
      ProperJoins(a[1..], b, level);
    }
  }

  lemma {:induction false} PlainIsProper(f: Formula)
    requires IsFormula(f) && !AtomOpens(f)
    ensures Proper(Plain(f)) && Sparing(Plain(f)) && !Plain(f).Grouped?
    decreases f
  {
    match f
    case Simple(_) =>
    case Negation(body) => PlainIsProper(body);
    case Conjunction(parts) =>
      PlainIsProper(parts[0]);
      FactorsAreProper(parts);
    case Disjunction(parts) =>
      PlainIsProper(parts[0]);
      AlternativesAreProper(parts);
  }

  lemma {:induction false} FactorsAreProper(parts: seq<Formula>)
    requires AllFormulas(parts) && !SomeAtomOpens(parts)
    ensures AllProper(Factors(parts), 0) && AllSparing(Factors(parts)) && |Factors(parts)| >= |parts|
    decreases parts
  {
    if parts != [] {
      PlainIsProper(parts[0]);
      FactorsAreProper(parts[1..]);
      var m := Plain(parts[0]);
      ProperJoins(if m.Both? then m.parts else [Protected(m, 0)], Factors(parts[1..]), 0);
    }
  }

  lemma {:induction false} AlternativesAreProper(parts: seq<Formula>)
    requires AllFormulas(parts) && !SomeAtomOpens(parts)
    ensures AllProper(Alternatives(parts), 1) && AllSparing(Alternatives(parts)) && |Alternatives(parts)| >= |parts|
    ensures forall p | p in Alternatives(parts) :: !p.Grouped?
    decreases parts
  {
    if parts != [] {
      PlainIsProper(parts[0]);
      AlternativesAreProper(parts[1..]);
      var m := Plain(parts[0]);
      ProperJoins(if m.Either? then m.parts else [m], Alternatives(parts[1..]), 1);
    }
  }

  /** Two lists with the same units combine to the same. */
  lemma {:induction false} SameUnits(kind: Kind, a: seq<Expr>, b: seq<Expr>)
    requires UnitsOfAll(kind, a) == UnitsOfAll(kind, b)
    ensures Combine(kind, a) == Combine(kind, b)
  {
    SpliceIsUnits(kind, a);
    SpliceIsUnits(kind, b);
  }

  lemma {:induction false} UnitsJoin(kind: Kind, a: seq<Expr>, b: seq<Expr>)
    ensures UnitsOfAll(kind, a + b) == UnitsOfAll(kind, a) + UnitsOfAll(kind, b)
  {
    SpliceIsUnits(kind, a);
    SpliceIsUnits(kind, b);
    SpliceIsUnits(kind, a + b);
    SpliceJoins(kind, a, b);
  }

  lemma {:induction false} OneUnit(kind: Kind, e: Expr)
    ensures UnitsOfAll(kind, [e]) == Units(kind, e)
  {
    SpliceOne(kind, e);
    SpliceIsUnits(kind, [e]);
  }

  lemma {:induction false} PlainMeans(f: Formula)
    requires IsFormula(f) && !AtomOpens(f)
    ensures Meaning(Plain(f)) == Flatten(f)
    decreases f
  {
    FlattenIsFlat(f);
    match f
    case Simple(_) =>
    case Negation(body) => PlainMeans(body);
    case Conjunction(parts) =>
      if |parts| == 1 {
        PlainMeans(parts[0]);
        FlattenIsFlat(parts[0]);
        CombineOne(AND, Flatten(parts[0]));
        assert FlattenAll(parts) == [Flatten(parts[0])];
      } else {
        FactorsMean(parts);
        SameUnits(AND, Meanings(Factors(parts)), FlattenAll(parts));
      }
    case Disjunction(parts) =>
      if |parts| == 1 {
        PlainMeans(parts[0]);
        FlattenIsFlat(parts[0]);
        CombineOne(OR, Flatten(parts[0]));
        assert FlattenAll(parts) == [Flatten(parts[0])];
      } else {
        AlternativesMean(parts);
        SameUnits(OR, Meanings(Alternatives(parts)), FlattenAll(parts));
      }
  }

  lemma {:induction false} FactorsMean(parts: seq<Formula>)
    requires AllFormulas(parts) && !SomeAtomOpens(parts)
    ensures UnitsOfAll(AND, Meanings(Factors(parts))) == UnitsOfAll(AND, FlattenAll(parts))
    decreases parts
  {
    if parts != [] {
      var m := Plain(parts[0]);
      var first := if m.Both? then m.parts else [Protected(m, 0)];
      PlainMeans(parts[0]);
      PlainIsProper(parts[0]);
      FactorsMean(parts[1..]);
      ProperJoins(first, Factors(parts[1..]), 0);
      UnitsJoin(AND, Meanings(first), Meanings(Factors(parts[1..])));
      OneUnit(AND, Flatten(parts[0]));
      if m.Both? {
        MeaningsAreNotNested(m.parts, 0);
        CombineFlattens(AND, Meanings(m.parts));
      } else {
        assert Meanings(first) == [Flatten(parts[0])];
      }
    }
  }

  lemma {:induction false} AlternativesMean(parts: seq<Formula>)
    requires AllFormulas(parts) && !SomeAtomOpens(parts)
    ensures UnitsOfAll(OR, Meanings(Alternatives(parts))) == UnitsOfAll(OR, FlattenAll(parts))
    decreases parts
  {
    if parts != [] {
      var m := Plain(parts[0]);
      var first := if m.Either? then m.parts else [m];
      PlainMeans(parts[0]);
      PlainIsProper(parts[0]);
      AlternativesMean(parts[1..]);
      ProperJoins(first, Alternatives(parts[1..]), 1);
      UnitsJoin(OR, Meanings(first), Meanings(Alternatives(parts[1..])));
      OneUnit(OR, Flatten(parts[0]));
      if m.Either? {
        MeaningsAreNotNested(m.parts, 1);
        CombineFlattens(OR, Meanings(m.parts));
      } else {
        assert Meanings(first) == [Flatten(parts[0])];
      }
    }
  }

  lemma {:induction false} PlainSaysSomething(f: Formula)
    requires IsFormula(f) && !AtomOpens(f)
    ensures Text(Plain(f)) != []
    decreases f
  {
    match f
    case Conjunction(parts) =>
      if |parts| == 1 {
        PlainSaysSomething(parts[0]);
      } else {
        FactorsAreProper(parts);
      }
    case Disjunction(parts) =>
      if |parts| == 1 {
        PlainSaysSomething(parts[0]);
      } else {
        AlternativesAreProper(parts);
      }
    case _ =>
  }

  /** A formula written with as few parentheses as precedence allows is parsed as the formula. */
  lemma {:induction false} PlainRoundTrip(f: Formula)
    requires IsFormula(f) && !AtomOpens(f)
    ensures Sparing(Plain(f)) && Parse(Text(Plain(f))) == Flatten(f)
    ensures NotNested(Flatten(f))
  {
    hide Parse;
    PlainIsProper(f);
    PlainSaysSomething(f);
    PlainMeans(f);
    WrittenIsParsed(Plain(f));
    MeaningIsNotNested(Plain(f));
  }

  // ----- parentheses that never close -----

  lemma {:induction false} KeywordMakesGroup(w: seq<Token>, word: string, rest: seq<Token>, depth: nat)
    requires Balance(w, depth) == Some(0) && (word == "AND" || word == "OR")
    ensures IsBooleanGroup(w + [Keyword(word)] + rest, depth + 1)
    decreases w
  {
    KeywordIsBalanced(word);
    var s := w + [Keyword(word)] + rest;
    if w != [] {
      assert s[0] == w[0] && s[1..] == w[1..] + [Keyword(word)] + rest;
      KeywordMakesGroup(w[1..], word, rest, if Opens(w[0]) then depth + 1 else if Closes(w[0]) then depth - 1 else depth);
    }
  }

  lemma {:induction false} KeywordInside(w: Written)
    requires Proper(w) && (w.Both? || w.Either?) && |w.parts| > 1
    ensures IsBooleanGroup(Text(w), 1)
  {
    hide IsBooleanGroup, Balance, TextTail;
    var word, first := if w.Both? then "AND" else "OR", Text(w.parts[0]);
    var behind := Behind(w.parts[1..], word);
    TextIsBalanced(w.parts[0]);
    TailIsKeyword(w.parts[1..], word);
    Associates(first, [Keyword(word)], behind);
    KeywordMakesGroup(first, word, behind, 0);
  }

  /** A parenthesis that never closes is read as a group all the same if an AND or OR stands in it. */
  lemma {:induction false} UnclosedGroupIsParsed(w: Written)
    requires Proper(w) && (w.Both? || w.Either?) && |w.parts| > 1
    ensures Parse([LPAREN] + Text(w)) == Meaning(w)
  {
    hide ParseOr, IsBooleanGroup, Text, Meaning, Proper;
    var s := [LPAREN] + Text(w);
    KeywordInside(w);
    assert s[1..] == Text(w) && Text(w) + [] == Text(w);
    OpensGroup(s);
    WholeParses(w, []);
    MeaningIsFlat(w);
    WordsDiffer();
    SingleParses(s, Meaning(w), []);
  }

  lemma {:induction false} OpensGroup(s: seq<Token>)
    requires s != [] && s[0] == LPAREN
    ensures IsBooleanGroup(s, 0) <==> IsBooleanGroup(s[1..], 1)
  {
  }

  /** Without one, everything is one operand. */
  lemma {:induction false} UnclosedOperandIsOne(atom: seq<Token>)
    requires forall t | t in atom :: !Opens(t) && !Closes(t) && t.upper != "AND" && t.upper != "OR"
    ensures Parse([LPAREN] + atom) == Atom(Values([LPAREN] + atom))
  {
    hide ParseOr, IsBooleanGroup, AtomLength;
    var s := [LPAREN] + atom;
    assert s[1..] == atom;
    OpensGroup(s);
    NoKeywordNoGroup(atom, 1);
    ScansAll(atom, (1, false));
    AtomLengthStep(s);
    WordsDiffer();
    assert s[..|s|] == s && s[|s|..] == [];
    SingleParses(s, Atom(Values(s)), []);
  }

  lemma {:induction false} AtomLengthStep(s: seq<Token>)
    requires s != [] && s[0] == LPAREN
    ensures AtomLength(s, (0, false)) == 1 + AtomLength(s[1..], (1, false))
  {
  }

  lemma {:induction false} NoKeywordNoGroup(s: seq<Token>, depth: int)
    requires forall t | t in s :: !Opens(t) && !Closes(t) && t.upper != "AND" && t.upper != "OR"
    ensures !IsBooleanGroup(s, depth)
  {
    if s != [] {
      assert s[0] in s;
      NoKeywordNoGroup(s[1..], depth);
    }
  }

  lemma {:induction false} ScansAll(s: seq<Token>, state: AtomState)
    requires state.0 > 0 && forall t | t in s :: !Opens(t) && !Closes(t)
    ensures AtomLength(s, state) == |s|
  {
    if s != [] {
      assert s[0] in s;
      ScansAll(s[1..], state);
    }
  }
}
