/** Boolean predicate expressions: their truth, the hash-consed graph that stores them,
    the bounded expansion into branches, and the obligations of an IF ladder. */
module Predicates {
  import opened Basics

  datatype Kind = TRUE | FALSE | NOT | AND | OR | ATOMIC | UNKNOWN

  /** The tokens of an atomic condition.  How they are rendered and normalised to text is a
      parameter of every statement about truth. */
  type Tokens = seq<string>

  datatype Expr = Expr(kind: Kind, tokens: Tokens, operands: seq<Expr>)

  const True := Expr(TRUE, [], [])

  function Not(e: Expr): Expr {
    Expr(NOT, [], [e])
  }

  function Atom(tokens: Tokens): Expr {
    Expr(ATOMIC, tokens, [])
  }

  /** A negation has an operand. */
  predicate WellFormed(e: Expr) {
    && (e.kind == NOT ==> e.operands != [])
    && forall o | o in e.operands :: WellFormed(o)
  }

  // ----- truth -----

  /** The truth of normalised atom texts, and the normalisation that produces them. */
  datatype World = World(normalize: Tokens -> string, truth: string -> bool)

  predicate Holds(e: Expr, w: World)
    requires WellFormed(e)
  {
    match e.kind
    case TRUE => true
    case FALSE => false
    case NOT => !Holds(e.operands[0], w)
    case AND => forall o | o in e.operands :: Holds(o, w)
    case OR => exists o | o in e.operands :: Holds(o, w)
    case ATOMIC => w.truth(w.normalize(e.tokens))
    case UNKNOWN => w.truth(w.normalize(e.tokens))
  }

  // ----- combining -----

  function Splice(kind: Kind, values: seq<Expr>): seq<Expr> {
    if values == [] then []
    else
      var last := values[|values| - 1];
      Splice(kind, values[..|values| - 1]) + if last.kind == kind then last.operands else [last]
  }

  /** One expression for several, with operands of the same kind spliced in. */
  function Combine(kind: Kind, values: seq<Expr>): Expr {
    var flattened := Splice(kind, values);
    if |flattened| == 1 then flattened[0] else Expr(kind, [], flattened)
  }

  ghost predicate AllWellFormed(es: seq<Expr>) {
    forall e | e in es :: WellFormed(e)
  }

  ghost predicate AllHold(es: seq<Expr>, w: World)
    requires AllWellFormed(es)
  {
    forall e | e in es :: Holds(e, w)
  }

  ghost predicate SomeHolds(es: seq<Expr>, w: World)
    requires AllWellFormed(es)
  {
    exists e | e in es :: Holds(e, w)
  }

  lemma {:induction false} AppendTruth(a: seq<Expr>, b: seq<Expr>, w: World)
    requires AllWellFormed(a) && AllWellFormed(b)
    ensures AllWellFormed(a + b)
    ensures AllHold(a + b, w) <==> AllHold(a, w) && AllHold(b, w)
    ensures SomeHolds(a + b, w) <==> SomeHolds(a, w) || SomeHolds(b, w)
  {
    assert forall e :: e in a + b <==> e in a || e in b;
  }

  lemma {:induction false} SpliceHolds(kind: Kind, values: seq<Expr>, w: World)
    requires kind == AND || kind == OR
    requires AllWellFormed(values)
    ensures AllWellFormed(Splice(kind, values))
    ensures kind == AND ==> (AllHold(Splice(kind, values), w) <==> AllHold(values, w))
    ensures kind == OR ==> (SomeHolds(Splice(kind, values), w) <==> SomeHolds(values, w))
  {
    if values != [] {
      var n := |values| - 1;
      var last := values[n];
      SpliceHolds(kind, values[..n], w);
      assert values == values[..n] + [last];
      AppendTruth(values[..n], [last], w);
      var tail := if last.kind == kind then last.operands else [last];
      assert WellFormed(last) && AllWellFormed(tail);
      AppendTruth(Splice(kind, values[..n]), tail, w);
      assert AllHold([last], w) <==> Holds(last, w);
      assert SomeHolds([last], w) <==> Holds(last, w) by { assert last in [last]; }
    }
  }

  lemma {:induction false} CombineHolds(kind: Kind, values: seq<Expr>, w: World)
    requires kind == AND || kind == OR
    requires AllWellFormed(values)
    ensures WellFormed(Combine(kind, values))
    ensures kind == AND ==> (Holds(Combine(kind, values), w) <==> AllHold(values, w))
    ensures kind == OR ==> (Holds(Combine(kind, values), w) <==> SomeHolds(values, w))
  {
    SpliceHolds(kind, values, w);
    var flattened := Splice(kind, values);
    if |flattened| == 1 {
      assert flattened == [flattened[0]];
    }
  }

  // ----- the graph -----

  /** A stored expression.  Expressions are named by a digest of kind, text and operand names;
      the expression itself stands for that injective name. */
  datatype Stored = Stored(kind: Kind, operandRefs: seq<Expr>, tokens: Tokens)

  type Table = map<Expr, Stored>

  /** Every name in the table stands for the expression it was derived from. */
  ghost predicate Consed(table: Table) {
    forall e | e in table ::
      && table[e] == Stored(e.kind, e.operands, e.tokens)
      && forall o | o in e.operands :: o in table
  }

  ghost function Subterms(e: Expr): set<Expr>
    decreases e, 1
  {
    {e} + SubtermsOf(e.operands)
  }

  ghost function SubtermsOf(es: seq<Expr>): set<Expr>
    decreases es, 0
  {
    if es == [] then {} else SubtermsOf(es[..|es| - 1]) + Subterms(es[|es| - 1])
  }

  /** The table after storing one expression whose operands are already stored. */
  function Insert(table: Table, e: Expr): Table {
    if e in table then table else table[e := Stored(e.kind, e.operands, e.tokens)]
  }

  /** The table after storing an expression and everything below it, operands first. */
  function StoreAll(table: Table, e: Expr): Table
    decreases e, 1
  {
    Insert(StoreOperands(table, e.operands), e)
  }

  function StoreOperands(table: Table, es: seq<Expr>): Table
    decreases es, 0
  {
    if es == [] then table else StoreAll(StoreOperands(table, es[..|es| - 1]), es[|es| - 1])
  }

  /** Storing an expression adds exactly its subterms, each under its own name. */
  lemma {:induction false} StoreAllIsConsed(table: Table, e: Expr)
    requires Consed(table)
    ensures Consed(StoreAll(table, e)) && e in StoreAll(table, e)
    ensures StoreAll(table, e).Keys == table.Keys + Subterms(e)
    decreases e, 1
  {
    StoreOperandsIsConsed(table, e.operands);
  }

  lemma {:induction false} StoreOperandsIsConsed(table: Table, es: seq<Expr>)
    requires Consed(table)
    ensures Consed(StoreOperands(table, es)) && forall e | e in es :: e in StoreOperands(table, es)
    ensures StoreOperands(table, es).Keys == table.Keys + SubtermsOf(es)
    decreases es, 0
  {
    if es != [] {
      var n := |es| - 1;
      var before := StoreOperands(table, es[..n]);
      StoreOperandsIsConsed(table, es[..n]);
      StoreAllIsConsed(before, es[n]);
      assert es == es[..n] + [es[n]];
    }
  }

  class GraphBuilder {
    var expressions: Table

    constructor ()
      ensures expressions == map[]
    {
      expressions := map[];
    }

    /** Stores an expression and everything below it; shared parts are stored once. */
    method Add(value: Expr) returns (ref: Expr)
      modifies this
      ensures ref == value && expressions == StoreAll(old(expressions), value)
      decreases value
    {
      var refs: seq<Expr> := [];
      for i := 0 to |value.operands|
        invariant refs == value.operands[..i]
        invariant expressions == StoreOperands(old(expressions), value.operands[..i])
      {
        assert value.operands[..i + 1][..i] == value.operands[..i];
        var r := Add(value.operands[i]);
        refs := refs + [r];
      }
      assert value.operands[..|value.operands|] == value.operands;
      ref := Expr(value.kind, value.tokens, refs);
      expressions := Insert(expressions, ref);
    }
  }

  // ----- branches -----

  /** A normalised atom and whether it is negated. */
  type Literal = (string, bool)
  type Branch = seq<Literal>

  const MAX_BRANCHES: nat := 32

  predicate LiteralHolds(l: Literal, truth: string -> bool) {
    truth(l.0) != l.1
  }

  predicate BranchHolds(b: Branch, truth: string -> bool) {
    forall i | 0 <= i < |b| :: LiteralHolds(b[i], truth)
  }

  predicate SomeBranchHolds(bs: seq<Branch>, truth: string -> bool) {
    exists i | 0 <= i < |bs| :: BranchHolds(bs[i], truth)
  }

  function Concat<T>(ss: seq<seq<T>>): seq<T> {
    if ss == [] then [] else ss[0] + Concat(ss[1..])
  }

  function Extend(left: Branch, right: seq<Branch>): seq<Branch> {
    if right == [] then [] else [left + right[0]] + Extend(left, right[1..])
  }

  function Cross(left: seq<Branch>, right: seq<Branch>): seq<Branch> {
    if left == [] then [] else Extend(left[0], right) + Cross(left[1..], right)
  }

  function CrossAll(result: seq<Branch>, children: seq<seq<Branch>>): Option<seq<Branch>>
    decreases children
  {
    if children == [] then Some(result)
    else
      var combined := Cross(result, children[0]);
      if |combined| > MAX_BRANCHES then None else CrossAll(combined, children[1..])
  }

  /** The disjunctive expansion of an expression or its negation, unless it grows over budget. */
  function Branches(ref: Expr, table: Table, negated: bool, normalize: Tokens -> string): Option<seq<Branch>>
    requires Consed(table) && ref in table
    decreases ref, 1
  {
    var value := table[ref];
    match value.kind
    case NOT =>
      if value.operandRefs == [] then Some([[("", true)]])
      else Branches(value.operandRefs[0], table, !negated, normalize)
    case TRUE => Some(if negated then [] else [[]])
    case FALSE => Some(if negated then [[]] else [])
    case ATOMIC => Some([[(normalize(value.tokens), negated)]])
    case UNKNOWN => Some([[(normalize(value.tokens), negated)]])
    case AND => Junction(value.operandRefs, ref, table, negated, negated, normalize)
    case OR => Junction(value.operandRefs, ref, table, negated, !negated, normalize)
  }

  function Junction(refs: seq<Expr>, ghost parent: Expr, table: Table, negated: bool, isOr: bool, normalize: Tokens -> string)
    : Option<seq<Branch>>
    requires Consed(table) && parent in table && refs == parent.operands
    decreases parent, 0, |refs| + 1
  {
    match Children(refs, parent, table, negated, normalize)
    case None => None
    case Some(children) =>
      if isOr then
        var result := Concat(children);
        if |result| > MAX_BRANCHES then None else Some(result)
      else
        CrossAll([[]], children)
  }

  function Children(refs: seq<Expr>, ghost parent: Expr, table: Table, negated: bool, normalize: Tokens -> string)
    : Option<seq<seq<Branch>>>
    requires Consed(table) && parent in table && forall r | r in refs :: r in parent.operands
    decreases parent, 0, |refs|
  {
    if refs == [] then Some([])
    else
      match Branches(refs[0], table, negated, normalize)
      case None => None
      case Some(first) =>
        match Children(refs[1..], parent, table, negated, normalize)
        case None => None
        case Some(rest) => Some([first] + rest)
  }

  // ----- the expansion is equivalent -----

  lemma {:induction false} ConcatHolds(children: seq<seq<Branch>>, truth: string -> bool)
    ensures SomeBranchHolds(Concat(children), truth)
       <==> exists i | 0 <= i < |children| :: SomeBranchHolds(children[i], truth)
  {
    if children != [] {
      ConcatHolds(children[1..], truth);
      AppendHolds(children[0], Concat(children[1..]), truth);
      assert children == [children[0]] + children[1..];
    }
  }

  lemma {:induction false} AppendHolds(a: seq<Branch>, b: seq<Branch>, truth: string -> bool)
    ensures SomeBranchHolds(a + b, truth) <==> SomeBranchHolds(a, truth) || SomeBranchHolds(b, truth)
  {
    if i :| 0 <= i < |a| && BranchHolds(a[i], truth) {
      assert (a + b)[i] == a[i];
    }
    if i :| 0 <= i < |b| && BranchHolds(b[i], truth) {
      assert (a + b)[|a| + i] == b[i];
    }
  }

  lemma {:induction false} JoinHolds(a: Branch, b: Branch, truth: string -> bool)
    ensures BranchHolds(a + b, truth) <==> BranchHolds(a, truth) && BranchHolds(b, truth)
  {
    if BranchHolds(a + b, truth) {
      forall i | 0 <= i < |a| ensures LiteralHolds(a[i], truth) {
        assert (a + b)[i] == a[i];
      }
      forall i | 0 <= i < |b| ensures LiteralHolds(b[i], truth) {
        assert (a + b)[|a| + i] == b[i];
      }
    }
  }

  lemma {:induction false} ExtendHolds(left: Branch, right: seq<Branch>, truth: string -> bool)
    ensures SomeBranchHolds(Extend(left, right), truth) <==> BranchHolds(left, truth) && SomeBranchHolds(right, truth)
  {
    if right != [] {
      ExtendHolds(left, right[1..], truth);
      JoinHolds(left, right[0], truth);
      AppendHolds([left + right[0]], Extend(left, right[1..]), truth);
      AppendHolds([right[0]], right[1..], truth);
      assert right == [right[0]] + right[1..];
      assert SomeBranchHolds([left + right[0]], truth) <==> BranchHolds([left + right[0]][0], truth);
      assert SomeBranchHolds([right[0]], truth) <==> BranchHolds([right[0]][0], truth);
    }
  }

  lemma {:induction false} CrossHolds(left: seq<Branch>, right: seq<Branch>, truth: string -> bool)
    ensures SomeBranchHolds(Cross(left, right), truth) <==> SomeBranchHolds(left, truth) && SomeBranchHolds(right, truth)
  {
    if left != [] {
      CrossHolds(left[1..], right, truth);
      ExtendHolds(left[0], right, truth);
      AppendHolds(Extend(left[0], right), Cross(left[1..], right), truth);
      AppendHolds([left[0]], left[1..], truth);
      assert left == [left[0]] + left[1..];
      assert SomeBranchHolds([left[0]], truth) <==> BranchHolds([left[0]][0], truth);
    }
  }

  lemma {:induction false} CrossAllHolds(result: seq<Branch>, children: seq<seq<Branch>>, truth: string -> bool)
    requires |result| <= MAX_BRANCHES
    ensures CrossAll(result, children) != None ==>
      && |CrossAll(result, children).value| <= MAX_BRANCHES
      && (SomeBranchHolds(CrossAll(result, children).value, truth) <==>
          SomeBranchHolds(result, truth) && forall i | 0 <= i < |children| :: SomeBranchHolds(children[i], truth))
    decreases children
  {
    if children != [] {
      var combined := Cross(result, children[0]);
      if |combined| <= MAX_BRANCHES {
        CrossHolds(result, children[0], truth);
        CrossAllHolds(combined, children[1..], truth);
        assert children == [children[0]] + children[1..];
      }
    }
  }

  /** Unless the budget overflows, the branches of an expression are equivalent to it, or to its
      negation when that was asked for, under every truth assignment to normalised atoms. */
  lemma {:induction false} BranchesAreEquivalent(ref: Expr, table: Table, negated: bool, w: World)
    requires Consed(table) && ref in table && WellFormed(ref)
    ensures var bs := Branches(ref, table, negated, w.normalize);
      bs != None ==>
        && |bs.value| <= MAX_BRANCHES
        && (SomeBranchHolds(bs.value, w.truth) <==> Holds(ref, w) != negated)
    decreases ref, 1
  {
    match ref.kind
    case NOT => BranchesAreEquivalent(ref.operands[0], table, !negated, w);
    case TRUE => EmptyBranch(w.truth);
    case FALSE => EmptyBranch(w.truth);
    case AND => JunctionIsEquivalent(ref, table, negated, negated, w);
    case OR => JunctionIsEquivalent(ref, table, negated, !negated, w);
    case _ =>
      var l := (w.normalize(ref.tokens), negated);
      assert BranchHolds([l], w.truth) <==> LiteralHolds([l][0], w.truth);
      assert SomeBranchHolds([[l]], w.truth) <==> BranchHolds([[l]][0], w.truth);
  }

  lemma {:induction false} EmptyBranch(truth: string -> bool)
    ensures SomeBranchHolds([[]], truth) && !SomeBranchHolds([], truth)
  {
    assert BranchHolds([[]][0], truth);
  }

  lemma {:induction false} JunctionIsEquivalent(ref: Expr, table: Table, negated: bool, isOr: bool, w: World)
    requires Consed(table) && ref in table && WellFormed(ref)
    ensures var bs := Junction(ref.operands, ref, table, negated, isOr, w.normalize);
      bs != None ==>
        && |bs.value| <= MAX_BRANCHES
        && (SomeBranchHolds(bs.value, w.truth) <==>
            if isOr then exists o | o in ref.operands :: Holds(o, w) != negated
            else forall o | o in ref.operands :: Holds(o, w) != negated)
    decreases ref, 0, |ref.operands| + 1
  {
    ChildrenAreEquivalent(ref.operands, ref, table, negated, w);
    var children := Children(ref.operands, ref, table, negated, w.normalize);
    if children != None {
      ConcatHolds(children.value, w.truth);
      CrossAllHolds([[]], children.value, w.truth);
      EmptyBranch(w.truth);
      IndexTruth(ref.operands, children.value, negated, w);
    }
  }

  /** Quantifying over the positions of a list or over its members is the same. */
  lemma {:induction false} IndexTruth(es: seq<Expr>, children: seq<seq<Branch>>, negated: bool, w: World)
    requires AllWellFormed(es) && |children| == |es|
    requires forall i | 0 <= i < |es| :: SomeBranchHolds(children[i], w.truth) <==> Holds(es[i], w) != negated
    ensures (exists i | 0 <= i < |children| :: SomeBranchHolds(children[i], w.truth)) <==>
            (exists o | o in es :: Holds(o, w) != negated)
    ensures (forall i | 0 <= i < |children| :: SomeBranchHolds(children[i], w.truth)) <==>
            (forall o | o in es :: Holds(o, w) != negated)
  {
    assert forall i | 0 <= i < |es| :: es[i] in es;
    if o :| o in es && Holds(o, w) != negated {
      var i :| 0 <= i < |es| && es[i] == o;
      assert SomeBranchHolds(children[i], w.truth);
    }
    if o :| o in es && Holds(o, w) == negated {
      var i :| 0 <= i < |es| && es[i] == o;
      assert !SomeBranchHolds(children[i], w.truth);
    }
  }

  lemma {:induction false} ChildrenAreEquivalent(refs: seq<Expr>, parent: Expr, table: Table, negated: bool, w: World)
    requires Consed(table) && parent in table && WellFormed(parent) && forall r | r in refs :: r in parent.operands
    ensures var cs := Children(refs, parent, table, negated, w.normalize);
      cs != None ==>
        && |cs.value| == |refs|
        && forall i | 0 <= i < |refs| :: SomeBranchHolds(cs.value[i], w.truth) <==> Holds(refs[i], w) != negated
    decreases parent, 0, |refs|
  {
    if refs != [] {
      assert refs[0] in parent.operands;
      BranchesAreEquivalent(refs[0], table, negated, w);
      ChildrenAreEquivalent(refs[1..], parent, table, negated, w);
    }
  }

  // ----- when the expansion exists -----

  function Sum(sizes: seq<nat>): nat {
    if sizes == [] then 0 else sizes[0] + Sum(sizes[1..])
  }

  function Times(sizes: seq<nat>): nat {
    if sizes == [] then 1 else sizes[0] * Times(sizes[1..])
  }

  /** A disjunction, or a negated conjunction. */
  predicate IsChoice(e: Expr, negated: bool) {
    e.kind == if negated then AND else OR
  }

  /** How many branches a formula or its negation has: alternatives add up, requirements multiply. */
  function Size(e: Expr, negated: bool): nat
    decreases e, 1
  {
    match e.kind
    case TRUE => if negated then 0 else 1
    case FALSE => if negated then 1 else 0
    case ATOMIC => 1
    case UNKNOWN => 1
    case NOT => if e.operands == [] then 1 else Size(e.operands[0], !negated)
    case _ => if IsChoice(e, negated) then Sum(Sizes(e, negated)) else Times(Sizes(e, negated))
  }

  function Sizes(e: Expr, negated: bool): (r: seq<nat>)
    ensures |r| == |e.operands|
    decreases e, 0
  {
    seq(|e.operands|, i requires 0 <= i < |e.operands| => Size(e.operands[i], negated))
  }

  /** Somewhere in the formula the alternatives add up to more than 32, or the first few requirements
      multiply to more. */
  ghost predicate TooLarge(e: Expr, negated: bool)
    decreases e
  {
    match e.kind
    case NOT => e.operands != [] && TooLarge(e.operands[0], !negated)
    case AND | OR =>
      || (exists o | o in e.operands :: TooLarge(o, negated))
      || (if IsChoice(e, negated) then Sum(Sizes(e, negated)) > 32 else PrefixTooLarge(1, Sizes(e, negated)))
    case _ => false
  }

  ghost predicate PrefixTooLarge(start: nat, sizes: seq<nat>) {
    exists n | 0 < n <= |sizes| :: start * Times(sizes[..n]) > 32
  }

  lemma {:induction false} Associates(a: nat, b: nat, c: nat)
    ensures a * (b * c) == (a * b) * c
  {
  }

  lemma {:induction false} PrefixStep(start: nat, sizes: seq<nat>)
    requires sizes != []
    ensures PrefixTooLarge(start, sizes) <==> start * sizes[0] > 32 || PrefixTooLarge(start * sizes[0], sizes[1..])
  {
    forall n | 0 < n <= |sizes| ensures start * Times(sizes[..n]) == start * sizes[0] * Times(sizes[1..][..n - 1]) {
      assert sizes[..n][1..] == sizes[1..][..n - 1];
      Associates(start, sizes[0], Times(sizes[1..][..n - 1]));
    }
    assert start * Times(sizes[..1]) == start * sizes[0] * Times(sizes[1..][..0]) == start * sizes[0];
    forall n | 0 < n <= |sizes[1..]| ensures start * sizes[0] * Times(sizes[1..][..n]) == start * Times(sizes[..n + 1]) {
      assert sizes[..n + 1][1..] == sizes[1..][..n];
    }
  }

  lemma {:induction false} ExtendSize(left: Branch, right: seq<Branch>)
    ensures |Extend(left, right)| == |right|
  {
    if right != [] {
      ExtendSize(left, right[1..]);
    }
  }

  lemma {:induction false} CrossSize(left: seq<Branch>, right: seq<Branch>)
    ensures |Cross(left, right)| == |left| * |right|
  {
    if left != [] {
      ExtendSize(left[0], right);
      CrossSize(left[1..], right);
      assert |left| * |right| == |right| + |left[1..]| * |right|;
    }
  }

  /** The sizes of the expanded operands. */
  ghost predicate HaveSizes(children: seq<seq<Branch>>, sizes: seq<nat>) {
    |children| == |sizes| && forall i | 0 <= i < |sizes| :: |children[i]| == sizes[i]
  }

  lemma {:induction false} ConcatSize(children: seq<seq<Branch>>, sizes: seq<nat>)
    requires HaveSizes(children, sizes)
    ensures |Concat(children)| == Sum(sizes)
  {
    if children != [] {
      ConcatSize(children[1..], sizes[1..]);
    }
  }

  lemma {:induction false} CrossAllSize(result: seq<Branch>, children: seq<seq<Branch>>, sizes: seq<nat>)
    requires HaveSizes(children, sizes)
    ensures CrossAll(result, children) == None <==> PrefixTooLarge(|result|, sizes)
    ensures CrossAll(result, children) != None ==> |CrossAll(result, children).value| == |result| * Times(sizes)
    decreases children
  {
    if children != [] {
      var combined := Cross(result, children[0]);
      CrossSize(result, children[0]);
      PrefixStep(|result|, sizes);
      CrossAllSize(combined, children[1..], sizes[1..]);
      Associates(|result|, sizes[0], Times(sizes[1..]));
    }
  }

  /** The expansion fails exactly when a sum of alternatives or a product of requirements exceeds 32, and
      otherwise has exactly as many branches as the formula has. */
  lemma {:induction false} BranchesExist(ref: Expr, table: Table, negated: bool, normalize: Tokens -> string)
    requires Consed(table) && ref in table
    ensures var bs := Branches(ref, table, negated, normalize);
      && (bs == None <==> TooLarge(ref, negated))
      && (bs != None ==> |bs.value| == Size(ref, negated))
    decreases ref, 1
  {
    hide Sum, Times, PrefixTooLarge;
    match ref.kind
    case NOT =>
      if ref.operands != [] {
        BranchesExist(ref.operands[0], table, !negated, normalize);
      }
    case AND => JunctionExists(ref, table, negated, normalize);
    case OR => JunctionExists(ref, table, negated, normalize);
    case _ =>
  }

  lemma {:induction false} JunctionExists(ref: Expr, table: Table, negated: bool, normalize: Tokens -> string)
    requires Consed(table) && ref in table && (ref.kind == AND || ref.kind == OR)
    ensures var bs := Junction(ref.operands, ref, table, negated, IsChoice(ref, negated), normalize);
      && (bs == None <==> TooLarge(ref, negated))
      && (bs != None ==> |bs.value| == Size(ref, negated))
    decreases ref, 0, |ref.operands| + 1
  {
    hide Sum, Times, PrefixTooLarge, Concat, CrossAll;
    ChildrenExist(ref.operands, ref, table, negated, normalize);
    var children := Children(ref.operands, ref, table, negated, normalize);
    if children != None {
      ConcatSize(children.value, Sizes(ref, negated));
      CrossAllSize([[]], children.value, Sizes(ref, negated));
    }
  }

  lemma {:induction false} ChildrenExist(refs: seq<Expr>, parent: Expr, table: Table, negated: bool,
                                         normalize: Tokens -> string)
    requires Consed(table) && parent in table && forall r | r in refs :: r in parent.operands
    ensures var cs := Children(refs, parent, table, negated, normalize);
      && (cs == None <==> exists r | r in refs :: TooLarge(r, negated))
      && (cs != None ==> HaveSizes(cs.value, seq(|refs|, i requires 0 <= i < |refs| => Size(refs[i], negated))))
    decreases parent, 0, |refs|
  {
    hide TooLarge, Size;
    if refs != [] {
      assert refs[0] in parent.operands;
      BranchesExist(refs[0], table, negated, normalize);
      ChildrenExist(refs[1..], parent, table, negated, normalize);
      assert refs == [refs[0]] + refs[1..];
    }
  }

  // ----- IF ladders -----

  /** One arm of an IF ladder: its parsed condition, or none for ELSE. */
  type Ladder = seq<Option<Expr>>

  predicate LadderWellFormed(arms: Ladder) {
    && (forall i | 0 <= i < |arms| - 1 :: arms[i] != None)
    && (forall c | c in arms :: c != None ==> WellFormed(c.value))
  }

  function Obligations(arms: Ladder, n: nat): seq<Expr>
    requires n <= |arms|
  {
    if n == 0 then []
    else Obligations(arms, n - 1) + if arms[n - 1] == None then [] else [Not(arms[n - 1].value)]
  }

  /** The predicate under which arm i of a ladder is entered. */
  function ArmPredicate(arms: Ladder, i: nat): Expr
    requires i < |arms|
  {
    var obligations := Obligations(arms, i) + if arms[i] == None then [] else [arms[i].value];
    if obligations == [] then True else Combine(AND, obligations)
  }

  predicate ConditionHolds(arms: Ladder, i: nat, w: World)
    requires i < |arms| && LadderWellFormed(arms)
  {
    arms[i] == None || Holds(arms[i].value, w)
  }

  /** Arm i is the first whose condition holds; an ELSE counts as holding. */
  predicate IsFirst(arms: Ladder, i: nat, w: World)
    requires i < |arms| && LadderWellFormed(arms)
  {
    ConditionHolds(arms, i, w) && forall j | 0 <= j < i :: !ConditionHolds(arms, j, w)
  }

  lemma {:induction false} SingletonTruth(e: Expr, w: World)
    requires WellFormed(e)
    ensures AllWellFormed([e]) && (AllHold([e], w) <==> Holds(e, w))
  {
    assert e in [e];
  }

  lemma {:induction false} ObligationsHold(arms: Ladder, n: nat, w: World)
    requires n < |arms| && LadderWellFormed(arms)
    ensures AllWellFormed(Obligations(arms, n))
    ensures AllHold(Obligations(arms, n), w) <==> forall j | 0 <= j < n :: !ConditionHolds(arms, j, w)
  {
    if n > 0 {
      ObligationsHold(arms, n - 1, w);
      assert arms[n - 1] in arms;
      var added := Not(arms[n - 1].value);
      SingletonTruth(added, w);
      AppendTruth(Obligations(arms, n - 1), [added], w);
      assert Obligations(arms, n) == Obligations(arms, n - 1) + [added];
      assert Holds(added, w) <==> !ConditionHolds(arms, n - 1, w);
    }
  }

  lemma {:induction false} ArmPredicateIsFirst(arms: Ladder, i: nat, w: World)
    requires i < |arms| && LadderWellFormed(arms)
    ensures WellFormed(ArmPredicate(arms, i))
    ensures Holds(ArmPredicate(arms, i), w) <==> IsFirst(arms, i, w)
  {
    ObligationsHold(arms, i, w);
    var before := Obligations(arms, i);
    if arms[i] == None {
      assert before + [] == before;
      if before != [] {
        CombineHolds(AND, before, w);
      }
    } else {
      assert arms[i] in arms;
      SingletonTruth(arms[i].value, w);
      AppendTruth(before, [arms[i].value], w);
      CombineHolds(AND, before + [arms[i].value], w);
    }
  }

  /** The arms of a ladder exclude each other under every truth assignment, the arm that holds is
      the first whose condition is true, and with an ELSE one of them always holds. */
  lemma {:induction false} LadderPartitions(arms: Ladder, w: World)
    requires LadderWellFormed(arms)
    ensures forall i | 0 <= i < |arms| :: WellFormed(ArmPredicate(arms, i))
    ensures forall i | 0 <= i < |arms| :: Holds(ArmPredicate(arms, i), w) <==> IsFirst(arms, i, w)
    ensures forall i, j | 0 <= i < j < |arms| ::
      !(Holds(ArmPredicate(arms, i), w) && Holds(ArmPredicate(arms, j), w))
    ensures (exists i | 0 <= i < |arms| :: Holds(ArmPredicate(arms, i), w)) <==>
            (exists i | 0 <= i < |arms| :: ConditionHolds(arms, i, w))
    ensures arms != [] && arms[|arms| - 1] == None ==>
      exists i | 0 <= i < |arms| :: Holds(ArmPredicate(arms, i), w)
  {
    forall i | 0 <= i < |arms|
      ensures WellFormed(ArmPredicate(arms, i)) && (Holds(ArmPredicate(arms, i), w) <==> IsFirst(arms, i, w))
    {
      ArmPredicateIsFirst(arms, i, w);
    }
    if i :| 0 <= i < |arms| && ConditionHolds(arms, i, w) {
      var first := FirstHolding(arms, i, w);
      assert Holds(ArmPredicate(arms, first), w);
    }
    if arms != [] && arms[|arms| - 1] == None {
      assert ConditionHolds(arms, |arms| - 1, w);
    }
  }

  lemma {:induction false} FirstHolding(arms: Ladder, i: nat, w: World) returns (first: nat)
    requires i < |arms| && LadderWellFormed(arms) && ConditionHolds(arms, i, w)
    ensures first < |arms| && IsFirst(arms, first, w)
  {
    first := i;
    if j :| 0 <= j < i && ConditionHolds(arms, j, w) {
      first := FirstHolding(arms, j, w);
    }
  }
}
