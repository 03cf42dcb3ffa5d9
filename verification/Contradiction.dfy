/** The local contradiction theory over numeric, string and NULL tests: what it reports,
    that a report is right, and exactly which contradictions it sees. */
module Contradiction {
  import opened Basics
  import opened Predicates

  datatype Operator = Equal | NotEqual | Less | AtMost | Greater | AtLeast

  /** What a normalised atom says, as far as the theory reads it. */
  datatype Meaning =
    | Constant(truth: bool)
    | NullTest(symbol: string, isNull: bool)
    | Numeric(symbol: string, op: Operator, value: real)
    | Textual(symbol: string, isEqual: bool, literal: string)
    | Uninterpreted

  type Theory = string -> Meaning

  /** A two-valued world: numbers, strings and null flags for symbols, truth for other atoms. */
  datatype Valuation = Valuation(number: string -> real, text: string -> string,
                                 isNull: string -> bool, other: string -> bool)

  predicate Compares(x: real, op: Operator, y: real) {
    match op
    case Equal => x == y
    case NotEqual => x != y
    case Less => x < y
    case AtMost => x <= y
    case Greater => x > y
    case AtLeast => x >= y
  }

  predicate AtomHolds(th: Theory, v: Valuation, atom: string) {
    match th(atom)
    case Constant(truth) => truth
    case NullTest(s, isNull) => v.isNull(s) == isNull
    case Numeric(s, op, y) => Compares(v.number(s), op, y)
    case Textual(s, isEqual, y) => (v.text(s) == y) == isEqual
    case Uninterpreted => v.other(atom)
  }

  function TruthIn(th: Theory, v: Valuation): string -> bool {
    atom => AtomHolds(th, v, atom)
  }

  ghost predicate Satisfies(th: Theory, v: Valuation, b: Branch) {
    BranchHolds(b, TruthIn(th, v))
  }

  ghost predicate Satisfiable(th: Theory, b: Branch) {
    exists v :: Satisfies(th, v, b)
  }

  // ----- what the theory sees of a branch -----

  /** An atom is required and rejected at once. */
  predicate Overlaps(b: Branch) {
    exists l | l in b :: !l.1 && (l.0, true) in b
  }

  /** The branch requires this numeric comparison. */
  ghost predicate Requires(th: Theory, b: Branch, s: string, op: Operator, y: real) {
    exists l | l in b :: !l.1 && th(l.0) == Numeric(s, op, y)
  }

  /** s is held to the point y by inclusive bounds alone, and y is excluded. */
  ghost predicate PinnedAway(th: Theory, b: Branch, s: string, y: real) {
    && Requires(th, b, s, AtLeast, y) && Requires(th, b, s, AtMost, y)
    && forall z :: !Requires(th, b, s, Equal, z)
  }

  /** The theory reads every literal except negated comparisons and an exclusion of the one
      point that inclusive bounds leave. */
  ghost predicate Seen(th: Theory, b: Branch, l: Literal) {
    match th(l.0)
    case Numeric(s, op, y) => !l.1 && !(op == NotEqual && PinnedAway(th, b, s, y))
    case Textual(_, _, _) => !l.1
    case _ => true
  }

  ghost predicate SatisfiesSeen(th: Theory, v: Valuation, b: Branch) {
    forall l | l in b && Seen(th, b, l) :: LiteralHolds(l, TruthIn(th, v))
  }

  ghost predicate SeenSatisfiable(th: Theory, b: Branch) {
    exists v :: SatisfiesSeen(th, v, b)
  }

  // ----- records -----

  type Bound = (real, bool)

  datatype NumberRecord = NumberRecord(equal: Option<real>, excluded: set<real>, lowers: seq<Bound>, uppers: seq<Bound>)
  datatype TextRecord = TextRecord(equal: Option<string>, excluded: set<string>)

  const NO_NUMBERS := NumberRecord(None, {}, [], [])
  const NO_TEXT := TextRecord(None, {})

  datatype Records = Records(nulls: map<string, set<bool>>, numbers: map<string, NumberRecord>, texts: map<string, TextRecord>)

  function NullsOf(r: Records, s: string): set<bool> {
    if s in r.nulls then r.nulls[s] else {}
  }

  function NumbersOf(r: Records, s: string): NumberRecord {
    if s in r.numbers then r.numbers[s] else NO_NUMBERS
  }

  function TextOf(r: Records, s: string): TextRecord {
    if s in r.texts then r.texts[s] else NO_TEXT
  }

  predicate AboveBound(x: real, lower: Bound) {
    x > lower.0 || (x == lower.0 && lower.1)
  }

  predicate BelowBound(x: real, upper: Bound) {
    x < upper.0 || (x == upper.0 && upper.1)
  }

  ghost predicate AllAbove(x: real, bounds: seq<Bound>) {
    forall b | b in bounds :: AboveBound(x, b)
  }

  ghost predicate AllBelow(x: real, bounds: seq<Bound>) {
    forall b | b in bounds :: BelowBound(x, b)
  }

  ghost predicate NumberFits(r: NumberRecord, x: real) {
    && (r.equal != None ==> x == r.equal.value)
    && x !in r.excluded
    && AllAbove(x, r.lowers) && AllBelow(x, r.uppers)
  }

  ghost predicate TextFits(r: TextRecord, x: string) {
    (r.equal != None ==> x == r.equal.value) && x !in r.excluded
  }

  /** The points that a record excludes although its inclusive bounds leave nothing else. */
  ghost function Pins(r: NumberRecord): set<real> {
    if r.equal != None then {} else set y | y in r.excluded && (y, true) in r.lowers && (y, true) in r.uppers
  }

  ghost function WithoutPins(r: NumberRecord): NumberRecord {
    r.(excluded := r.excluded - Pins(r))
  }

  // ----- adding one literal -----

  function AddNumeric(r: NumberRecord, op: Operator, y: real): NumberRecord {
    match op
    case Equal => r.(equal := Some(y))
    case NotEqual => r.(excluded := r.excluded + {y})
    case Greater => r.(lowers := r.lowers + [(y, false)])
    case AtLeast => r.(lowers := r.lowers + [(y, true)])
    case Less => r.(uppers := r.uppers + [(y, false)])
    case AtMost => r.(uppers := r.uppers + [(y, true)])
  }

  datatype Reason =
    | BothPolarities | ConstantFalse | TwoNumbers | TwoTexts | NullAndNotNull
    | NumberExcluded | EmptyInterval | BelowLower | AboveUpper | TextExcluded

  /** Reads one literal into the records, unless it contradicts them on the spot. */
  function Read(th: Theory, r: Records, l: Literal): Result {
    match th(l.0)
    case Constant(truth) => if truth == l.1 then Contradicts(ConstantFalse) else Fine(r)
    case NullTest(s, isNull) =>
      Fine(r.(nulls := r.nulls[s := NullsOf(r, s) + {isNull != l.1}]))
    case Numeric(s, op, y) =>
      if l.1 then Fine(r)
      else
        var record := NumbersOf(r, s);
        if op == Equal && record.equal != None && record.equal != Some(y) then Contradicts(TwoNumbers)
        else Fine(r.(numbers := r.numbers[s := AddNumeric(record, op, y)]))
    case Textual(s, isEqual, y) =>
      if l.1 then Fine(r)
      else
        var record := TextOf(r, s);
        if isEqual && record.equal != None && record.equal != Some(y) then Contradicts(TwoTexts)
        else Fine(r.(texts := r.texts[s :=
          if isEqual then record.(equal := Some(y)) else record.(excluded := record.excluded + {y})]))
    case Uninterpreted => Fine(r)
  }

  datatype Result = Fine(records: Records) | Contradicts(reason: Reason)

  // ----- the records hold what the branch requires -----

  ghost predicate RequiresText(th: Theory, b: Branch, s: string, isEqual: bool, y: string) {
    exists l | l in b :: !l.1 && th(l.0) == Textual(s, isEqual, y)
  }

  ghost predicate RequiresNull(th: Theory, b: Branch, s: string, isNull: bool) {
    exists l | l in b :: th(l.0) == NullTest(s, isNull != l.1)
  }

  ghost predicate NumbersMatch(th: Theory, b: Branch, s: string, r: NumberRecord) {
    && (forall y :: r.equal == Some(y) <==> Requires(th, b, s, Equal, y))
    && (forall y :: y in r.excluded <==> Requires(th, b, s, NotEqual, y))
    && (forall y :: (y, false) in r.lowers <==> Requires(th, b, s, Greater, y))
    && (forall y :: (y, true) in r.lowers <==> Requires(th, b, s, AtLeast, y))
    && (forall y :: (y, false) in r.uppers <==> Requires(th, b, s, Less, y))
    && (forall y :: (y, true) in r.uppers <==> Requires(th, b, s, AtMost, y))
  }

  ghost predicate TextMatches(th: Theory, b: Branch, s: string, r: TextRecord) {
    && (forall y :: r.equal == Some(y) <==> RequiresText(th, b, s, true, y))
    && (forall y :: y in r.excluded <==> RequiresText(th, b, s, false, y))
  }

  ghost predicate Faithful(th: Theory, b: Branch, r: Records) {
    && (forall s :: NumbersMatch(th, b, s, NumbersOf(r, s)))
    && (forall s :: TextMatches(th, b, s, TextOf(r, s)))
    && (forall s, n :: n in NullsOf(r, s) <==> RequiresNull(th, b, s, n))
    && (forall l | l in b && th(l.0).Constant? :: th(l.0).truth != l.1)
  }

  lemma {:induction false} RequiresMore(th: Theory, b: Branch, l: Literal)
    ensures forall s, op, y :: Requires(th, b + [l], s, op, y) <==>
      Requires(th, b, s, op, y) || (!l.1 && th(l.0) == Numeric(s, op, y))
    ensures forall s, e, y :: RequiresText(th, b + [l], s, e, y) <==>
      RequiresText(th, b, s, e, y) || (!l.1 && th(l.0) == Textual(s, e, y))
    ensures forall s, n :: RequiresNull(th, b + [l], s, n) <==>
      RequiresNull(th, b, s, n) || th(l.0) == NullTest(s, n != l.1)
  {
    assert forall x :: x in b + [l] <==> x in b || x == l;
  }

  lemma {:induction false} AddNumericMatches(th: Theory, b: Branch, l: Literal, s: string, r: NumberRecord,
                                             op: Operator, y: real)
    requires NumbersMatch(th, b, s, r) && !l.1 && th(l.0) == Numeric(s, op, y)
    requires op == Equal ==> r.equal == None || r.equal == Some(y)
    ensures NumbersMatch(th, b + [l], s, AddNumeric(r, op, y))
  {
    RequiresMore(th, b, l);
    var now := AddNumeric(r, op, y);
    assert forall x :: x in now.lowers <==>
      x in r.lowers || (op == Greater && x == (y, false)) || (op == AtLeast && x == (y, true));
    assert forall x :: x in now.uppers <==>
      x in r.uppers || (op == Less && x == (y, false)) || (op == AtMost && x == (y, true));
  }

  lemma {:induction false} ReadNumbers(th: Theory, b: Branch, r: Records, l: Literal, s: string)
    requires NumbersMatch(th, b, s, NumbersOf(r, s)) && Read(th, r, l).Fine?
    ensures NumbersMatch(th, b + [l], s, NumbersOf(Read(th, r, l).records, s))
  {
    match th(l.0) {
      case Numeric(t, op, y) =>
        if t == s && !l.1 {
          AddNumericMatches(th, b, l, s, NumbersOf(r, s), op, y);
          return;
        }
      case _ =>
    }
    RequiresMore(th, b, l);
  }

  lemma {:induction false} ReadText(th: Theory, b: Branch, r: Records, l: Literal, s: string)
    requires TextMatches(th, b, s, TextOf(r, s)) && Read(th, r, l).Fine?
    ensures TextMatches(th, b + [l], s, TextOf(Read(th, r, l).records, s))
  {
    RequiresMore(th, b, l);
  }

  lemma {:induction false} ReadIsFaithful(th: Theory, b: Branch, r: Records, l: Literal)
    requires Faithful(th, b, r) && Read(th, r, l).Fine?
    ensures Faithful(th, b + [l], Read(th, r, l).records)
  {
    var now := Read(th, r, l).records;
    forall s ensures NumbersMatch(th, b + [l], s, NumbersOf(now, s)) {
      ReadNumbers(th, b, r, l, s);
    }
    forall s ensures TextMatches(th, b + [l], s, TextOf(now, s)) {
      ReadText(th, b, r, l, s);
    }
    forall s, n ensures n in NullsOf(now, s) <==> RequiresNull(th, b + [l], s, n) {
      RequiresMore(th, b, l);
    }
  }

  // ----- consistency of one record -----

  function StrongestLower(bounds: seq<Bound>): Bound
    requires bounds != []
  {
    if |bounds| == 1 then bounds[0]
    else
      var best, next := StrongestLower(bounds[..|bounds| - 1]), bounds[|bounds| - 1];
      if next.0 > best.0 || (next.0 == best.0 && best.1 && !next.1) then next else best
  }

  function StrongestUpper(bounds: seq<Bound>): Bound
    requires bounds != []
  {
    if |bounds| == 1 then bounds[0]
    else
      var best, next := StrongestUpper(bounds[..|bounds| - 1]), bounds[|bounds| - 1];
      if next.0 < best.0 || (next.0 == best.0 && best.1 && !next.1) then next else best
  }

  lemma {:induction false} StrongestLowerDecides(bounds: seq<Bound>)
    requires bounds != []
    ensures StrongestLower(bounds) in bounds
    ensures forall x :: AllAbove(x, bounds) <==> AboveBound(x, StrongestLower(bounds))
  {
    if |bounds| > 1 {
      var n := |bounds| - 1;
      StrongestLowerDecides(bounds[..n]);
      assert bounds == bounds[..n] + [bounds[n]];
      assert forall x :: AllAbove(x, bounds) <==> AllAbove(x, bounds[..n]) && AboveBound(x, bounds[n]);
    }
  }

  lemma {:induction false} StrongestUpperDecides(bounds: seq<Bound>)
    requires bounds != []
    ensures StrongestUpper(bounds) in bounds
    ensures forall x :: AllBelow(x, bounds) <==> BelowBound(x, StrongestUpper(bounds))
  {
    if |bounds| > 1 {
      var n := |bounds| - 1;
      StrongestUpperDecides(bounds[..n]);
      assert bounds == bounds[..n] + [bounds[n]];
      assert forall x :: AllBelow(x, bounds) <==> AllBelow(x, bounds[..n]) && BelowBound(x, bounds[n]);
    }
  }

  function CheckNumber(r: NumberRecord): Option<Reason> {
    if r.equal != None && r.equal.value in r.excluded then Some(NumberExcluded)
    else if r.lowers != [] && r.uppers != [] &&
      (var (lower, upper) := (StrongestLower(r.lowers), StrongestUpper(r.uppers));
       lower.0 > upper.0 || (lower.0 == upper.0 && !(lower.1 && upper.1))) then Some(EmptyInterval)
    else if r.equal != None && r.lowers != [] && !AboveBound(r.equal.value, StrongestLower(r.lowers)) then
      Some(BelowLower)
    else if r.equal != None && r.uppers != [] && !BelowBound(r.equal.value, StrongestUpper(r.uppers)) then
      Some(AboveUpper)
    else None
  }

  /** A symbol is required to be NULL and to be NOT NULL. */
  predicate BothStates(flags: set<bool>) {
    true in flags && false in flags
  }

  function CheckText(r: TextRecord): Option<Reason> {
    if r.equal != None && r.equal.value in r.excluded then Some(TextExcluded) else None
  }

  /** Between two numbers there is always one outside a finite set. */
  lemma {:induction false} Dense(lo: real, hi: real, bad: set<real>) returns (x: real)
    requires lo < hi
    ensures lo < x < hi && x !in bad
    decreases bad
  {
    x := (lo + hi) / 2.0;
    if x in bad {
      x := Dense(lo, x, bad - {x});
    }
  }

  ghost predicate InBounds(r: NumberRecord, x: real) {
    AllAbove(x, r.lowers) && AllBelow(x, r.uppers)
  }

  /** Bounds that do not contradict each other leave an interval, or one inclusive point. */
  lemma {:induction false} Interval(r: NumberRecord, bad: set<real>) returns (x: real)
    requires CheckNumber(r) == None
    ensures InBounds(r, x)
    ensures x !in bad || ((x, true) in r.lowers && (x, true) in r.uppers)
  {
    if r.lowers != [] {
      StrongestLowerDecides(r.lowers);
    }
    if r.uppers != [] {
      StrongestUpperDecides(r.uppers);
    }
    if r.lowers == [] && r.uppers == [] {
      x := Dense(0.0, 1.0, bad);
    } else if r.uppers == [] {
      var lo := StrongestLower(r.lowers).0;
      x := Dense(lo, lo + 1.0, bad);
    } else if r.lowers == [] {
      var hi := StrongestUpper(r.uppers).0;
      x := Dense(hi - 1.0, hi, bad);
    } else {
      var lo, hi := StrongestLower(r.lowers), StrongestUpper(r.uppers);
      if lo.0 == hi.0 {
        x := lo.0;
        assert lo == (x, true) && hi == (x, true);
      } else {
        x := Dense(lo.0, hi.0, bad);
      }
    }
  }

  /** A record passes its check exactly when some number fits it, pins aside. */
  lemma {:induction false} CheckNumberIsExact(r: NumberRecord)
    ensures CheckNumber(r) == None <==> exists x :: NumberFits(WithoutPins(r), x)
  {
    if r.lowers != [] {
      StrongestLowerDecides(r.lowers);
    }
    if r.uppers != [] {
      StrongestUpperDecides(r.uppers);
    }
    if CheckNumber(r) == None {
      if r.equal != None {
        assert NumberFits(WithoutPins(r), r.equal.value);
      } else {
        var x := Interval(r, r.excluded);
        assert NumberFits(WithoutPins(r), x);
      }
    }
    if x :| NumberFits(WithoutPins(r), x) {
      assert InBounds(r, x);
    }
  }

  lemma {:induction false} FreshText(bad: set<string>, least: nat) returns (x: string)
    ensures x !in bad && |x| >= least
    decreases bad
  {
    x := seq(least, _ => 'X');
    if x in bad {
      x := FreshText(bad - {x}, least + 1);
    }
  }

  // ----- from records back to the branch -----

  ghost predicate Fits(r: Records, v: Valuation, s: string) {
    && NumberFits(WithoutPins(NumbersOf(r, s)), v.number(s))
    && TextFits(TextOf(r, s), v.text(s))
    && forall n | n in NullsOf(r, s) :: v.isNull(s) == n
  }

  lemma {:induction false} PinsArePinnedAway(th: Theory, b: Branch, s: string, r: NumberRecord, y: real)
    requires NumbersMatch(th, b, s, r)
    ensures y in Pins(r) <==> Requires(th, b, s, NotEqual, y) && PinnedAway(th, b, s, y)
  {
    if r.equal != None {
      assert Requires(th, b, s, Equal, r.equal.value);
    }
  }

  /** A world that satisfies what is seen fits the record of every symbol. */
  lemma {:induction false} SeenFits(th: Theory, b: Branch, r: Records, v: Valuation, s: string)
    requires Faithful(th, b, r) && SatisfiesSeen(th, v, b)
    ensures Fits(r, v, s)
  {
    SeenFitsNumber(th, b, NumbersOf(r, s), v, s);
    var text := TextOf(r, s);
    assert TextMatches(th, b, s, text);
    if text.equal != None {
      assert RequiresText(th, b, s, true, text.equal.value);
    }
    forall y | y in text.excluded ensures v.text(s) != y {
      assert RequiresText(th, b, s, false, y);
    }
    forall n | n in NullsOf(r, s) ensures v.isNull(s) == n {
      assert RequiresNull(th, b, s, n);
    }
  }

  lemma {:induction false} SeenFitsNumber(th: Theory, b: Branch, r: NumberRecord, v: Valuation, s: string)
    requires NumbersMatch(th, b, s, r) && SatisfiesSeen(th, v, b)
    ensures NumberFits(WithoutPins(r), v.number(s))
  {
    var x := v.number(s);
    forall op, y | Requires(th, b, s, op, y) && !(op == NotEqual && PinnedAway(th, b, s, y)) ensures Compares(x, op, y) {
      var l :| l in b && !l.1 && th(l.0) == Numeric(s, op, y);
      assert Seen(th, b, l) && LiteralHolds(l, TruthIn(th, v));
    }
    if r.equal != None {
      assert Requires(th, b, s, Equal, r.equal.value);
    }
    PinsArePinnedAway(th, b, s, r, x);
    forall y | y in r.lowers ensures AboveBound(x, y) {
      assert Requires(th, b, s, if y.1 then AtLeast else Greater, y.0) by { assert y == (y.0, y.1); }
    }
    forall y | y in r.uppers ensures BelowBound(x, y) {
      assert Requires(th, b, s, if y.1 then AtMost else Less, y.0) by { assert y == (y.0, y.1); }
    }
  }

  /** Other atoms are given the polarity with which the branch mentions them. */
  ghost predicate TakesPolarities(b: Branch, v: Valuation) {
    forall atom :: v.other(atom) <==> (atom, false) in b
  }

  /** A world that fits every record satisfies what is seen. */
  lemma {:induction false} FitsSeen(th: Theory, b: Branch, r: Records, v: Valuation)
    requires Faithful(th, b, r) && !Overlaps(b) && TakesPolarities(b, v)
    requires forall s :: Fits(r, v, s)
    ensures SatisfiesSeen(th, v, b)
  {
    forall l | l in b && Seen(th, b, l) ensures LiteralHolds(l, TruthIn(th, v)) {
      match th(l.0)
      case Constant(_) =>
      case NullTest(s, isNull) =>
        assert Fits(r, v, s);
        assert RequiresNull(th, b, s, isNull != l.1);
      case Numeric(s, op, y) =>
        assert Fits(r, v, s);
        FitsComparison(th, b, NumbersOf(r, s), v, s, op, y);
      case Textual(s, isEqual, y) =>
        assert Fits(r, v, s) && TextMatches(th, b, s, TextOf(r, s));
        assert RequiresText(th, b, s, isEqual, y);
      case Uninterpreted =>
        assert l == (l.0, l.1);
        assert !l.1 ==> (l.0, true) !in b;
    }
  }

  lemma {:induction false} FitsComparison(th: Theory, b: Branch, r: NumberRecord, v: Valuation, s: string,
                                          op: Operator, y: real)
    requires NumbersMatch(th, b, s, r) && NumberFits(WithoutPins(r), v.number(s))
    requires Requires(th, b, s, op, y) && !(op == NotEqual && PinnedAway(th, b, s, y))
    ensures Compares(v.number(s), op, y)
  {
    PinsArePinnedAway(th, b, s, r, y);
    match op
    case Greater => assert (y, false) in r.lowers;
    case AtLeast => assert (y, true) in r.lowers;
    case Less => assert (y, false) in r.uppers;
    case AtMost => assert (y, true) in r.uppers;
    case _ =>
  }

  ghost function PickNumber(r: NumberRecord): real {
    if x: real :| NumberFits(WithoutPins(r), x) then x else 0.0
  }

  ghost function PickText(r: TextRecord): string {
    if x: string :| TextFits(r, x) then x else ""
  }

  /** Every record passes its check. */
  ghost predicate Passes(r: Records) {
    && (forall s | s in r.nulls :: !BothStates(r.nulls[s]))
    && (forall s | s in r.numbers :: CheckNumber(r.numbers[s]) == None)
    && (forall s | s in r.texts :: CheckText(r.texts[s]) == None)
  }

  lemma {:induction false} PassesIsSatisfiable(th: Theory, b: Branch, r: Records)
    requires Faithful(th, b, r) && !Overlaps(b) && Passes(r)
    ensures SeenSatisfiable(th, b)
  {
    var v := Valuation(s => PickNumber(NumbersOf(r, s)), s => PickText(TextOf(r, s)),
                       s => true in NullsOf(r, s), atom => (atom, false) in b);
    forall s ensures Fits(r, v, s) {
      PickNumberFits(NumbersOf(r, s));
      PickTextFits(TextOf(r, s));
      assert s in r.nulls ==> !BothStates(r.nulls[s]);
    }
    assert TakesPolarities(b, v);
    FitsSeen(th, b, r, v);
  }

  lemma {:induction false} PickNumberFits(r: NumberRecord)
    requires CheckNumber(r) == None
    ensures NumberFits(WithoutPins(r), PickNumber(r))
  {
    CheckNumberIsExact(r);
  }

  lemma {:induction false} PickTextFits(r: TextRecord)
    requires CheckText(r) == None
    ensures TextFits(r, PickText(r))
  {
    if r.equal != None {
      assert TextFits(r, r.equal.value);
    } else {
      var x := FreshText(r.excluded, 0);
      assert TextFits(r, x);
    }
  }

  lemma {:induction false} SatisfiablePasses(th: Theory, b: Branch, r: Records)
    requires Faithful(th, b, r) && SeenSatisfiable(th, b)
    ensures Passes(r)
  {
    var v :| SatisfiesSeen(th, v, b);
    forall s | s in r.nulls ensures !BothStates(r.nulls[s]) {
      SeenFits(th, b, r, v, s);
      assert r.nulls[s] == NullsOf(r, s);
    }
    forall s | s in r.numbers ensures CheckNumber(r.numbers[s]) == None {
      SeenFits(th, b, r, v, s);
      CheckNumberIsExact(r.numbers[s]);
    }
    forall s | s in r.texts ensures CheckText(r.texts[s]) == None {
      SeenFits(th, b, r, v, s);
    }
  }

  /** A literal that contradicts the records while it is read contradicts the branch. */
  lemma {:induction false} ReadContradicts(th: Theory, b: Branch, i: nat, r: Records)
    requires i < |b| && Faithful(th, b[..i], r) && Read(th, r, b[i]).Contradicts?
    ensures !SeenSatisfiable(th, b)
  {
    var l := b[i];
    if v :| SatisfiesSeen(th, v, b) {
      assert Seen(th, b, l) && LiteralHolds(l, TruthIn(th, v));
      match th(l.0)
      case Numeric(s, op, y) =>
        var z := NumbersOf(r, s).equal.value;
        assert NumbersMatch(th, b[..i], s, NumbersOf(r, s));
        assert Requires(th, b[..i], s, Equal, z);
        var m :| m in b[..i] && !m.1 && th(m.0) == Numeric(s, Equal, z);
        assert m in b && Seen(th, b, m) && LiteralHolds(m, TruthIn(th, v));
      case Textual(s, _, y) =>
        var z := TextOf(r, s).equal.value;
        assert TextMatches(th, b[..i], s, TextOf(r, s));
        assert RequiresText(th, b[..i], s, true, z);
        var m :| m in b[..i] && !m.1 && th(m.0) == Textual(s, true, z);
        assert m in b && Seen(th, b, m) && LiteralHolds(m, TruthIn(th, v));
      case _ =>
    }
  }

  // ----- the check of one branch -----

  method CheckRecords(r: Records) returns (found: Option<Reason>)
    ensures found == None <==> Passes(r)
  {
    var pending := r.nulls.Keys;
    while pending != {}
      invariant pending <= r.nulls.Keys
      invariant forall s | s in r.nulls && s !in pending :: !BothStates(r.nulls[s])
    {
      var s :| s in pending;
      if BothStates(r.nulls[s]) {
        return Some(NullAndNotNull);
      }
      pending := pending - {s};
    }
    pending := r.numbers.Keys;
    while pending != {}
      invariant pending <= r.numbers.Keys
      invariant forall s | s in r.numbers && s !in pending :: CheckNumber(r.numbers[s]) == None
    {
      var s :| s in pending;
      found := CheckNumber(r.numbers[s]);
      if found != None {
        return;
      }
      pending := pending - {s};
    }
    pending := r.texts.Keys;
    while pending != {}
      invariant pending <= r.texts.Keys
      invariant forall s | s in r.texts && s !in pending :: CheckText(r.texts[s]) == None
    {
      var s :| s in pending;
      found := CheckText(r.texts[s]);
      if found != None {
        return;
      }
      pending := pending - {s};
    }
    found := None;
  }

  /** Nothing is reported exactly when no atom occurs in both polarities and the literals that the
      theory reads can hold together over the reals, strings and null flags. */
  method FindContradiction(th: Theory, b: Branch) returns (found: Option<Reason>)
    ensures found == None <==> !Overlaps(b) && SeenSatisfiable(th, b)
  {
    if Overlaps(b) {
      return Some(BothPolarities);
    }
    var r := Records(map[], map[], map[]);
    for i := 0 to |b|
      invariant Faithful(th, b[..i], r)
    {
      assert b[..i + 1] == b[..i] + [b[i]];
      match Read(th, r, b[i]) {
        case Contradicts(reason) =>
          ReadContradicts(th, b, i, r);
          return Some(reason);
        case Fine(now) =>
          ReadIsFaithful(th, b[..i], r, b[i]);
          r := now;
      }
    }
    assert b[..|b|] == b;
    found := CheckRecords(r);
    if found == None {
      PassesIsSatisfiable(th, b, r);
    } else if SeenSatisfiable(th, b) {
      SatisfiablePasses(th, b, r);
    }
  }

  lemma {:induction false} SatisfiedBranch(th: Theory, v: Valuation, b: Branch)
    requires Satisfies(th, v, b)
    ensures !Overlaps(b) && SatisfiesSeen(th, v, b)
  {
    forall l | l in b ensures TruthIn(th, v)(l.0) != l.1 {
      var i :| 0 <= i < |b| && b[i] == l;
      assert LiteralHolds(b[i], TruthIn(th, v));
    }
  }

  /** A report is right: no world satisfies the branch. */
  lemma {:induction false} ReportIsRight(th: Theory, b: Branch)
    requires Overlaps(b) || !SeenSatisfiable(th, b)
    ensures !Satisfiable(th, b)
  {
    forall v ensures !Satisfies(th, v, b) {
      if Satisfies(th, v, b) {
        SatisfiedBranch(th, v, b);
      }
    }
  }

  /** The theory reads the whole branch. */
  ghost predicate FullySeen(th: Theory, b: Branch) {
    forall l | l in b :: Seen(th, b, l)
  }

  /** On branches without negated comparisons and without a pinned exclusion the check decides. */
  lemma {:induction false} ReportIsComplete(th: Theory, b: Branch)
    requires FullySeen(th, b)
    ensures Satisfiable(th, b) <==> !Overlaps(b) && SeenSatisfiable(th, b)
  {
    if Overlaps(b) || !SeenSatisfiable(th, b) {
      ReportIsRight(th, b);
    } else {
      var v :| SatisfiesSeen(th, v, b);
      assert Satisfies(th, v, b);
    }
  }

  /** The gap: bounds that leave one point, and an exclusion of that point. */
  lemma {:induction false} PinnedExclusionIsMissed()
    ensures var (th, b) := PinnedExclusion();
            !Satisfiable(th, b) && !Overlaps(b) && SeenSatisfiable(th, b)
  {
    var (th, b) := PinnedExclusion();
    PinnedNotSeen();
    var v := Valuation(_ => 1.0, _ => "", _ => false, _ => false);
    assert SatisfiesSeen(th, v, b) by { PinnedSeen(v); }
    forall w ensures !Satisfies(th, w, b) {
      PinnedUnsatisfied(w);
    }
  }

  lemma {:induction false} PinnedNotSeen()
    ensures var (th, b) := PinnedExclusion(); PinnedAway(th, b, "X", 1.0) && !Overlaps(b)
  {
    var (th, b) := PinnedExclusion();
    PinnedMeanings();
    assert b[0] in b && b[1] in b;
    assert Requires(th, b, "X", AtLeast, 1.0) && Requires(th, b, "X", AtMost, 1.0);
  }

  lemma {:induction false} PinnedSeen(v: Valuation)
    requires v.number("X") == 1.0
    ensures var (th, b) := PinnedExclusion(); SatisfiesSeen(th, v, b)
  {
    var (th, b) := PinnedExclusion();
    PinnedNotSeen();
    PinnedMeanings();
    hide PinnedAway;
    forall l | l in b && Seen(th, b, l) ensures LiteralHolds(l, TruthIn(th, v)) {
      assert l in {b[0], b[1], b[2]};
    }
  }

  lemma {:induction false} PinnedUnsatisfied(w: Valuation)
    ensures var (th, b) := PinnedExclusion(); !Satisfies(th, w, b)
  {
    var (th, b) := PinnedExclusion();
    PinnedMeanings();
    var x := w.number("X");
    assert LiteralHolds(b[0], TruthIn(th, w)) <==> x >= 1.0;
    assert LiteralHolds(b[1], TruthIn(th, w)) <==> x <= 1.0;
    assert LiteralHolds(b[2], TruthIn(th, w)) <==> x != 1.0;
  }

  function PinnedTheory(atom: string): Meaning {
    if atom == "X >= 1" then Numeric("X", AtLeast, 1.0)
    else if atom == "X <= 1" then Numeric("X", AtMost, 1.0)
    else if atom == "X <> 1" then Numeric("X", NotEqual, 1.0)
    else Uninterpreted
  }

  function PinnedExclusion(): (Theory, Branch) {
    (PinnedTheory, [("X >= 1", false), ("X <= 1", false), ("X <> 1", false)])
  }

  lemma {:induction false} PinnedMeanings()
    ensures PinnedTheory("X >= 1") == Numeric("X", AtLeast, 1.0)
    ensures PinnedTheory("X <= 1") == Numeric("X", AtMost, 1.0)
    ensures PinnedTheory("X <> 1") == Numeric("X", NotEqual, 1.0)
  {
    assert "X >= 1"[2] != "X <= 1"[2] && "X >= 1"[2] != "X <> 1"[2] && "X <= 1"[3] != "X <> 1"[3];
  }

  function NegatedTheory(atom: string): Meaning {
    if atom == "X >= 1" then Numeric("X", AtLeast, 1.0)
    else if atom == "X >= 2" then Numeric("X", AtLeast, 2.0)
    else Uninterpreted
  }

  function NegatedComparison(): (Theory, Branch) {
    (NegatedTheory, [("X >= 1", true), ("X >= 2", false)])
  }

  /** The other gap: a comparison that the branch rejects. */
  lemma {:induction false} NegatedComparisonIsMissed()
    ensures var (th, b) := NegatedComparison();
            !Satisfiable(th, b) && !Overlaps(b) && SeenSatisfiable(th, b)
  {
    var (th, b) := NegatedComparison();
    assert "X >= 1"[5] != "X >= 2"[5];
    var v := Valuation(_ => 2.0, _ => "", _ => false, _ => false);
    assert SatisfiesSeen(th, v, b);
    forall w ensures !Satisfies(th, w, b) {
      assert LiteralHolds(b[0], TruthIn(th, w)) <==> w.number("X") < 1.0;
      assert LiteralHolds(b[1], TruthIn(th, w)) <==> w.number("X") >= 2.0;
    }
  }

  // ----- literals in normalised atoms -----

  /** The theory over normalised atoms: fold upper-cases the string literals with everything else. */
  function Folded(th: Theory, fold: string -> string): Theory {
    atom =>
      match th(atom)
      case Textual(s, isEqual, y) => Textual(s, isEqual, fold(y))
      case other => other
  }

  /** A symbol that equals y and differs from z. */
  ghost predicate EqualAndNot(th: Theory, b: Branch, s: string, y: string, z: string) {
    && |b| == 2 && b[0].0 != b[1].0 && !b[0].1 && !b[1].1
    && th(b[0].0) == Textual(s, true, y) && th(b[1].0) == Textual(s, false, z)
  }

  lemma {:induction false} EqualAndNotHolds(th: Theory, b: Branch, s: string, y: string, z: string)
    requires EqualAndNot(th, b, s, y, z)
    ensures !Overlaps(b)
    ensures Satisfiable(th, b) <==> y != z
    ensures SeenSatisfiable(th, b) <==> y != z
  {
    assert b[0] in b && b[1] in b && forall l | l in b :: l == b[0] || l == b[1];
    if y != z {
      var v := Valuation(_ => 0.0, _ => y, _ => false, _ => false);
      assert Satisfies(th, v, b) && SatisfiesSeen(th, v, b);
    }
    forall v ensures Satisfies(th, v, b) || SatisfiesSeen(th, v, b) ==> v.text(s) == y && v.text(s) != z {
      assert Seen(th, b, b[0]) && Seen(th, b, b[1]);
      assert Satisfies(th, v, b) || SatisfiesSeen(th, v, b) ==> LiteralHolds(b[0], TruthIn(th, v)) && LiteralHolds(b[1], TruthIn(th, v));
    }
  }

  /** X = 'a' AND X <> 'A': reported as soon as the literals differ at most in case, and contradictory
      only if they are the same. */
  lemma {:induction false} LiteralsLoseTheirCase(th: Theory, fold: string -> string, b: Branch, s: string, y: string,
                                                 z: string)
    requires EqualAndNot(th, b, s, y, z)
    ensures !(!Overlaps(b) && SeenSatisfiable(Folded(th, fold), b)) <==> fold(y) == fold(z)
    ensures !Satisfiable(th, b) <==> y == z
  {
    EqualAndNotHolds(th, b, s, y, z);
    EqualAndNotHolds(Folded(th, fold), b, s, fold(y), fold(z));
  }

  // ----- the assessment of a predicate graph -----

  datatype Assessment = BudgetExceeded | ObviousContradiction | Survives(branches: nat)

  /** The branches that show no contradiction. */
  ghost function Surviving(th: Theory, bs: seq<Branch>): set<nat> {
    set i | 0 <= i < |bs| && !Overlaps(bs[i]) && SeenSatisfiable(th, bs[i])
  }

  lemma {:induction false} SurvivingStep(th: Theory, bs: seq<Branch>, i: nat)
    requires i < |bs|
    ensures |Surviving(th, bs[..i + 1])| ==
      |Surviving(th, bs[..i])| + if !Overlaps(bs[i]) && SeenSatisfiable(th, bs[i]) then 1 else 0
  {
    hide Overlaps, SeenSatisfiable;
    var more := if !Overlaps(bs[i]) && SeenSatisfiable(th, bs[i]) then {i} else {};
    assert bs[..i + 1][i] == bs[i] && forall j | 0 <= j < i :: bs[..i + 1][j] == bs[..i][j];
    assert Surviving(th, bs[..i + 1]) == Surviving(th, bs[..i]) + more;
  }

  lemma {:induction false} SomeSurvive(th: Theory, bs: seq<Branch>)
    ensures |Surviving(th, bs)| > 0 <==> exists b | b in bs :: !Overlaps(b) && SeenSatisfiable(th, b)
  {
    hide Overlaps, SeenSatisfiable;
    if b :| b in bs && !Overlaps(b) && SeenSatisfiable(th, b) {
      var i :| 0 <= i < |bs| && bs[i] == b;
      assert i in Surviving(th, bs);
    }
    if |Surviving(th, bs)| > 0 {
      var i :| i in Surviving(th, bs);
      assert bs[i] in bs;
    }
  }

  /** If the verdict is an obvious contradiction, no world satisfies the predicate; it survives with
      exactly the branches that show no contradiction; and the budget is exceeded exactly when the formula
      has too many branches. */
  method Assess(root: Expr, table: Table, th: Theory, normalize: Tokens -> string) returns (verdict: Assessment)
    requires Consed(table) && root in table && Predicates.WellFormed(root)
    ensures verdict == ObviousContradiction ==>
      forall v: Valuation :: !Holds(root, World(normalize, TruthIn(th, v)))
    ensures verdict == BudgetExceeded <==> TooLarge(root, false)
    ensures verdict.Survives? <==> (
      && Branches(root, table, false, normalize) != None
      && exists b | b in Branches(root, table, false, normalize).value :: !Overlaps(b) && SeenSatisfiable(th, b))
    ensures verdict.Survives? ==> verdict.branches == |Surviving(th, Branches(root, table, false, normalize).value)|
  {
    BranchesExist(root, table, false, normalize);
    var expansion := Branches(root, table, false, normalize);
    if expansion == None {
      return BudgetExceeded;
    }
    var branches := expansion.value;
    var surviving := 0;
    for i := 0 to |branches|
      invariant surviving == |Surviving(th, branches[..i])|
    {
      var found := FindContradiction(th, branches[i]);
      SurvivingStep(th, branches, i);
      if found == None {
        surviving := surviving + 1;
      }
    }
    assert branches[..|branches|] == branches;
    SomeSurvive(th, branches);
    if surviving == 0 {
      forall v: Valuation ensures !Holds(root, World(normalize, TruthIn(th, v))) {
        BranchesAreEquivalent(root, table, false, World(normalize, TruthIn(th, v)));
        if SomeBranchHolds(branches, TruthIn(th, v)) {
          var i :| 0 <= i < |branches| && BranchHolds(branches[i], TruthIn(th, v));
          ReportIsRight(th, branches[i]);
          assert Satisfies(th, v, branches[i]);
        }
      }
      return ObviousContradiction;
    }
    verdict := Survives(surviving);
  }
}
