/** The procedure tree that the control-flow builder compiles, together with a
    structured, nondeterministic semantics of it.

    A tree is what the builder sees of a parsed procedure: node identities, node
    kinds, labels, and IF conditions already split into literal comparisons and
    everything else.  Handler regions count as declarations, as the builder
    treats them when it meets them in a statement list. */
module ProcedureTree {
  import opened Basics

  type NodeId = nat

  datatype Literal = Number(value: real) | Text(chars: string)

  datatype Comparison = Eq | Ne | Lt | Le | Gt | Ge

  /** The text of an IF condition, as far as the builder looks at it. */
  datatype Condition =
    | Absent
    | LiteralComparison(left: Literal, op: Comparison, right: Literal)
    | Opaque(text: string)

  datatype Arm = Arm(id: NodeId, isElse: bool, condition: Condition, body: seq<Stmt>)

  datatype LoopKind = LOOP | WHILE | REPEAT | FOR

  datatype Stmt =
    | Declaration(id: NodeId)
    | Simple(id: NodeId)
    | Compound(id: NodeId, tag: Option<string>, body: seq<Stmt>)
    | If(id: NodeId, arms: seq<Arm>)
    | Loop(id: NodeId, tag: Option<string>, kind: LoopKind, body: seq<Stmt>)
    | Return(id: NodeId)
    | Signal(id: NodeId)
    | Resignal(id: NodeId)
    | Leave(id: NodeId, target: Option<string>)
    | Iterate(id: NodeId, target: Option<string>)

  // ----- conditions -----

  predicate TextLess(a: string, b: string) {
    if b == "" then false
    else if a == "" then true
    else a[0] < b[0] || (a[0] == b[0] && TextLess(a[1..], b[1..]))
  }

  predicate LiteralLess(a: Literal, b: Literal)
    requires a.Number? == b.Number?
  {
    match a
    case Number(x) => x < b.value
    case Text(x) => TextLess(x, b.chars)
  }

  /** The truth of a comparison of two literals of the same type. */
  predicate Compare(a: Literal, op: Comparison, b: Literal)
    requires a.Number? == b.Number?
  {
    match op
    case Eq => a == b
    case Ne => a != b
    case Lt => LiteralLess(a, b)
    case Le => LiteralLess(a, b) || a == b
    case Gt => LiteralLess(b, a)
    case Ge => LiteralLess(b, a) || a == b
  }

  /** a stands before b in a dictionary: they agree in front of k, where a ends or has the smaller
      character. */
  predicate PrecedesAt(a: string, b: string, k: nat) {
    k <= |a| && k < |b| && a[..k] == b[..k] && (k == |a| || a[k] < b[k])
  }

  lemma {:induction false} PrecedesBehind(a: string, b: string, k: nat)
    requires a != [] && b != [] && a[0] == b[0] && k > 0
    ensures PrecedesAt(a, b, k) <==> PrecedesAt(a[1..], b[1..], k - 1)
  {
    if k <= |a| && k < |b| {
      assert a[..k] == [a[0]] + a[1..][..k - 1] && b[..k] == [b[0]] + b[1..][..k - 1];
      assert a[1..][..k - 1] == a[..k][1..] && b[1..][..k - 1] == b[..k][1..];
    }
  }

  /** Texts are ordered as in a dictionary. */
  lemma {:induction false} TextLessIsDictionary(a: string, b: string)
    ensures TextLess(a, b) <==> exists k: nat :: PrecedesAt(a, b, k)
  {
    if a != [] && b != [] && a[0] == b[0] {
      TextLessIsDictionary(a[1..], b[1..]);
      hide PrecedesAt;
      if k: nat :| PrecedesAt(a, b, k) {
        assert k > 0 by {
          NotFirst(a, b);
        }
        PrecedesBehind(a, b, k);
      }
      if k: nat :| PrecedesAt(a[1..], b[1..], k) {
        PrecedesBehind(a, b, k + 1);
      }
    } else if TextLess(a, b) {
      assert PrecedesAt(a, b, 0);
    } else if k: nat :| PrecedesAt(a, b, k) {
      FirstDiffers(a, b, k);
    }
  }

  lemma {:induction false} FirstDiffers(a: string, b: string, k: nat)
    requires PrecedesAt(a, b, k)
    ensures b != [] && (a == [] || a[0] <= b[0])
  {
    if k > 0 {
      assert a[0] == a[..k][0] && b[0] == b[..k][0];
    }
  }

  lemma {:induction false} NotFirst(a: string, b: string)
    requires a != [] && b != [] && a[0] == b[0]
    ensures !PrecedesAt(a, b, 0)
  {
  }

  lemma {:induction false} TextsAreOrdered(a: string, b: string)
    ensures TextLess(a, b) || TextLess(b, a) || a == b
    ensures !(TextLess(a, b) && TextLess(b, a)) && !TextLess(a, a)
  {
    if a != [] {
      TextsAreOrdered(a[1..], if b == [] then [] else b[1..]);
      assert a == [a[0]] + a[1..];
      if b != [] {
        assert b == [b[0]] + b[1..];
      }
    }
  }

  /** What each comparison says of two literals of one type: of numbers by their values, of texts by the
      dictionary, and of each pair exactly one of less, equal and greater. */
  lemma {:induction false} ComparesAsOrdered(a: Literal, op: Comparison, b: Literal)
    requires a.Number? == b.Number?
    ensures
      var less := if a.Number? then a.value < b.value else exists k: nat :: PrecedesAt(a.chars, b.chars, k);
      var greater := if a.Number? then b.value < a.value else exists k: nat :: PrecedesAt(b.chars, a.chars, k);
      match op
      case Eq => Compare(a, op, b) <==> !less && !greater
      case Ne => Compare(a, op, b) <==> less || greater
      case Lt => Compare(a, op, b) <==> less
      case Le => Compare(a, op, b) <==> !greater
      case Gt => Compare(a, op, b) <==> greater
      case Ge => Compare(a, op, b) <==> !less
  {
    hide PrecedesAt, TextLess;
    if a.Text? {
      TextLessIsDictionary(a.chars, b.chars);
      TextLessIsDictionary(b.chars, a.chars);
      TextsAreOrdered(a.chars, b.chars);
      TextsAreOrdered(a.chars, a.chars);
    }
  }

  /** The values that an arm's condition can take when a run reaches it.  A
      comparison of two literals of one type has one value; anything else may
      turn out either way on each visit. */
  predicate CanEvaluateTo(arm: Arm, truth: bool) {
    if arm.isElse then truth
    else match arm.condition
      case LiteralComparison(a, op, b) => a.Number? == b.Number? ==> truth == Compare(a, op, b)
      case _ => true
  }

  /** Some outcome of the conditions makes arm i the first one that holds. */
  ghost predicate CanTake(arms: seq<Arm>, i: nat) {
    && i < |arms|
    && CanEvaluateTo(arms[i], true)
    && forall j | 0 <= j < i :: CanEvaluateTo(arms[j], false)
  }

  /** Some outcome of the conditions makes every arm fail. */
  ghost predicate CanFallThrough(arms: seq<Arm>) {
    forall j | 0 <= j < |arms| :: CanEvaluateTo(arms[j], false)
  }

  // ----- runs -----

  /** How a run of a statement ends. */
  datatype Outcome =
    | Normal
    | Returned
    | Raised
    | Leaving(target: Option<string>)
    | Iterating(target: Option<string>)

  predicate NamesRegion(target: Option<string>, tag: Option<string>) {
    target == None || target == tag
  }

  /** A labelled region, or any region when no label is given, stops a LEAVE. */
  predicate StopsLeave(tag: Option<string>, o: Outcome) {
    o.Leaving? && NamesRegion(o.target, tag)
  }

  /** The body of a loop ended so that the header is visited again. */
  predicate Repeats(tag: Option<string>, o: Outcome) {
    o == Normal || (o.Iterating? && NamesRegion(o.target, tag))
  }

  /** Statement s has a run that visits exactly the nodes t and ends in o.  Every loop but LOOP may end
      at its header, as the builder takes it, also REPEAT; Executes is about REPEAT as it is. */
  ghost predicate Runs(s: Stmt, t: seq<NodeId>, o: Outcome)
    decreases |t|, s
  {
    match s
    case Declaration(_) => t == [] && o == Normal
    case Simple(id) => t == [id] && o == Normal
    case Return(id) => t == [id] && o == Returned
    case Signal(id) => t == [id] && o == Raised
    case Resignal(id) => t == [id] && o == Raised
    case Leave(id, target) => t == [id] && o == Leaving(target)
    case Iterate(id, target) => t == [id] && o == Iterating(target)
    case Compound(id, tag, body) =>
      && t != [] && t[0] == id
      && exists ob :: RunsSeq(body, t[1..], ob) && o == (if StopsLeave(tag, ob) then Normal else ob)
    case If(id, arms) =>
      && t != [] && t[0] == id
      && (|| (t == [id] && o == Normal && CanFallThrough(arms))
          || (&& |t| > 1
              && exists i | 0 <= i < |arms| ::
                   CanTake(arms, i) && t[1] == arms[i].id && RunsSeq(arms[i].body, t[2..], o)))
    case Loop(id, tag, kind, body) =>
      && t != [] && t[0] == id
      && (|| (t == [id] && o == Normal && kind != LOOP)
          || exists n, ob | 1 <= n <= |t| && RunsSeq(body, t[1..n], ob) ::
               if Repeats(tag, ob) then Runs(s, t[n..], o)
               else n == |t| && o == (if StopsLeave(tag, ob) then Normal else ob))
  }

  /** A statement list runs its statements in turn until one does not end normally. */
  ghost predicate RunsSeq(ss: seq<Stmt>, t: seq<NodeId>, o: Outcome)
    decreases |t|, ss
  {
    if ss == [] then t == [] && o == Normal
    else exists n, first | 0 <= n <= |t| && Runs(ss[0], t[..n], first) ::
           if first == Normal then RunsSeq(ss[1..], t[n..], o) else n == |t| && o == first
  }

  /** Like Runs, but a REPEAT loop runs its body before it tests: only a later visit of its header may
      leave it.  If again holds, the header of s has been visited before. */
  ghost predicate Executes(s: Stmt, again: bool, t: seq<NodeId>, o: Outcome)
    decreases |t|, s
  {
    match s
    case Compound(id, tag, body) =>
      && t != [] && t[0] == id
      && exists ob :: ExecutesSeq(body, t[1..], ob) && o == (if StopsLeave(tag, ob) then Normal else ob)
    case If(id, arms) =>
      && t != [] && t[0] == id
      && (|| (t == [id] && o == Normal && CanFallThrough(arms))
          || (&& |t| > 1
              && exists i | 0 <= i < |arms| ::
                   CanTake(arms, i) && t[1] == arms[i].id && ExecutesSeq(arms[i].body, t[2..], o)))
    case Loop(id, tag, kind, body) =>
      && t != [] && t[0] == id
      && (|| (t == [id] && o == Normal && kind != LOOP && (kind == REPEAT ==> again))
          || exists n, ob | 1 <= n <= |t| && ExecutesSeq(body, t[1..n], ob) ::
               if Repeats(tag, ob) then Executes(s, true, t[n..], o)
               else n == |t| && o == (if StopsLeave(tag, ob) then Normal else ob))
    case _ => Runs(s, t, o)
  }

  ghost predicate ExecutesSeq(ss: seq<Stmt>, t: seq<NodeId>, o: Outcome)
    decreases |t|, ss
  {
    if ss == [] then t == [] && o == Normal
    else exists n, first | 0 <= n <= |t| && Executes(ss[0], false, t[..n], first) ::
           if first == Normal then ExecutesSeq(ss[1..], t[n..], o) else n == |t| && o == first
  }

  // ----- node identities -----

  function Ids(s: Stmt): set<NodeId>
    decreases s
  {
    match s
    case Declaration(_) => {}
    case Compound(id, _, body) => {id} + IdsSeq(body)
    case If(id, arms) => {id} + IdsArms(arms)
    case Loop(id, _, _, body) => {id} + IdsSeq(body)
    case _ => {s.id}
  }

  function IdsSeq(ss: seq<Stmt>): set<NodeId>
    decreases ss
  {
    if ss == [] then {} else Ids(ss[0]) + IdsSeq(ss[1..])
  }

  function IdsArms(arms: seq<Arm>): set<NodeId>
    decreases arms
  {
    if arms == [] then {} else {arms[0].id} + IdsSeq(arms[0].body) + IdsArms(arms[1..])
  }

  /** No two nodes that the builder turns into graph nodes share an identity. */
  predicate Distinct(s: Stmt)
    decreases s
  {
    match s
    case Compound(id, _, body) => id !in IdsSeq(body) && DistinctSeq(body)
    case If(id, arms) => id !in IdsArms(arms) && DistinctArms(arms)
    case Loop(id, _, _, body) => id !in IdsSeq(body) && DistinctSeq(body)
    case _ => true
  }

  predicate DistinctSeq(ss: seq<Stmt>)
    decreases ss
  {
    ss != [] ==> Distinct(ss[0]) && DistinctSeq(ss[1..]) && Ids(ss[0]) !! IdsSeq(ss[1..])
  }

  predicate DistinctArms(arms: seq<Arm>)
    decreases arms
  {
    arms != [] ==>
      && DistinctSeq(arms[0].body) && DistinctArms(arms[1..])
      && arms[0].id !in IdsSeq(arms[0].body)
      && ({arms[0].id} + IdsSeq(arms[0].body)) !! IdsArms(arms[1..])
  }
}
