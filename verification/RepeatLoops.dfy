/** REPEAT loops as they are: which paths of the control-flow graph are executions. */
module RepeatLoops {
  import opened Basics
  import opened ProcedureTree
  import opened Cfg

  /** A REPEAT loop: its header, and all its nodes with the header. */
  datatype Region = Region(header: NodeId, ids: set<NodeId>)

  function Regions(s: Stmt): set<Region>
    decreases s
  {
    match s
    case Compound(_, _, body) => RegionsSeq(body)
    case If(_, arms) => RegionsArms(arms)
    case Loop(id, _, kind, body) => RegionsSeq(body) + (if kind == REPEAT then {Region(id, Ids(s))} else {})
    case _ => {}
  }

  function RegionsSeq(ss: seq<Stmt>): set<Region>
    decreases ss
  {
    if ss == [] then {} else Regions(ss[0]) + RegionsSeq(ss[1..])
  }

  function RegionsArms(arms: seq<Arm>): set<Region>
    decreases arms
  {
    if arms == [] then {} else RegionsSeq(arms[0].body) + RegionsArms(arms[1..])
  }

  /** Visit i is the first of the header of r since the loop was entered, and the next visit is outside the
      loop. */
  ghost predicate LeftAtOnce(r: Region, t: seq<NodeId>, i: nat)
    requires i < |t|
  {
    && t[i] == r.header && (i == 0 || t[i - 1] !in r.ids)
    && (i + 1 == |t| || t[i + 1] !in r.ids)
  }

  ghost predicate NoneLeft(rs: set<Region>, t: seq<NodeId>) {
    forall r, i | r in rs && 0 <= i < |t| :: !LeftAtOnce(r, t, i)
  }

  // ----- traces -----

  ghost predicate Within(t: seq<NodeId>, ids: set<NodeId>) {
    forall n | n in t :: n in ids
  }

  ghost predicate Inside(rs: set<Region>, ids: set<NodeId>) {
    forall r | r in rs :: r.header in r.ids && r.ids <= ids
  }

  lemma {:induction false} RegionsInside(s: Stmt)
    ensures Inside(Regions(s), Ids(s))
    decreases s
  {
    match s
    case Compound(_, _, body) => RegionsInsideSeq(body);
    case If(_, arms) => RegionsInsideArms(arms);
    case Loop(_, _, _, body) => RegionsInsideSeq(body);
    case _ =>
  }

  lemma {:induction false} RegionsInsideSeq(ss: seq<Stmt>)
    ensures Inside(RegionsSeq(ss), IdsSeq(ss))
    decreases ss
  {
    if ss != [] {
      RegionsInside(ss[0]);
      RegionsInsideSeq(ss[1..]);
    }
  }

  lemma {:induction false} RegionsInsideArms(arms: seq<Arm>)
    ensures Inside(RegionsArms(arms), IdsArms(arms))
    decreases arms
  {
    if arms != [] {
      RegionsInsideSeq(arms[0].body);
      RegionsInsideArms(arms[1..]);
    }
  }

  /** A run visits nodes of its statement only, and only a normal one may visit none. */
  lemma {:induction false} RunIsWithin(s: Stmt, t: seq<NodeId>, o: Outcome)
    requires Runs(s, t, o)
    ensures Within(t, Ids(s)) && (t == [] ==> o == Normal)
    decreases |t|, s
  {
    match s
    case Compound(id, tag, body) =>
      var ob :| RunsSeq(body, t[1..], ob) && o == (if StopsLeave(tag, ob) then Normal else ob);
      RunIsWithinSeq(body, t[1..], ob);
      assert t == [id] + t[1..];
    case If(id, arms) =>
      if !(t == [id] && o == Normal && CanFallThrough(arms)) {
        var i :| 0 <= i < |arms| && CanTake(arms, i) && t[1] == arms[i].id && RunsSeq(arms[i].body, t[2..], o);
        RunIsWithinSeq(arms[i].body, t[2..], o);
        ArmIsWithin(arms, i);
        assert t == [id, arms[i].id] + t[2..];
      }
    case Loop(id, tag, kind, body) =>
      if !(t == [id] && o == Normal && kind != LOOP) {
        var u, ob, v := LoopRunParts(s, t, o);
        RunIsWithinSeq(body, u, ob);
        if Repeats(tag, ob) {
          RunIsWithin(s, v, o);
        }
      }
    case _ =>
  }

  lemma {:induction false} RunIsWithinSeq(ss: seq<Stmt>, t: seq<NodeId>, o: Outcome)
    requires RunsSeq(ss, t, o)
    ensures Within(t, IdsSeq(ss)) && (t == [] ==> o == Normal)
    decreases |t|, ss
  {
    if ss != [] {
      var n, first :| 0 <= n <= |t| && Runs(ss[0], t[..n], first) &&
        if first == Normal then RunsSeq(ss[1..], t[n..], o) else n == |t| && o == first;
      RunIsWithin(ss[0], t[..n], first);
      assert t == t[..n] + t[n..];
      if first == Normal {
        RunIsWithinSeq(ss[1..], t[n..], o);
      }
    }
  }

  lemma {:induction false} ArmIsWithin(arms: seq<Arm>, i: nat)
    requires i < |arms|
    ensures {arms[i].id} + IdsSeq(arms[i].body) <= IdsArms(arms) && RegionsSeq(arms[i].body) <= RegionsArms(arms)
    decreases i
  {
    if i > 0 {
      ArmIsWithin(arms[1..], i - 1);
    }
  }

  // ----- joining traces -----

  /** Where the nodes of the regions do not meet on both sides of a cut, each side stands for itself. */
  lemma {:induction false} CutIff(rs: set<Region>, ids: set<NodeId>, x: seq<NodeId>, y: seq<NodeId>)
    requires Inside(rs, ids)
    requires x == [] || y == [] || x[|x| - 1] !in ids || y[0] !in ids
    ensures NoneLeft(rs, x + y) <==> NoneLeft(rs, x) && NoneLeft(rs, y)
  {
    var t := x + y;
    forall r, i | r in rs && 0 <= i < |x| ensures LeftAtOnce(r, x, i) <==> LeftAtOnce(r, t, i) {
    }
    forall r, i | r in rs && 0 <= i < |y| ensures LeftAtOnce(r, y, i) <==> LeftAtOnce(r, t, |x| + i) {
      assert t[|x| + i] == y[i];
    }
    if NoneLeft(rs, t) {
      forall r, i | r in rs && 0 <= i < |y| ensures !LeftAtOnce(r, y, i) {
        assert !LeftAtOnce(r, t, |x| + i);
      }
    }
    if NoneLeft(rs, x) && NoneLeft(rs, y) {
      forall r, i | r in rs && 0 <= i < |t| ensures !LeftAtOnce(r, t, i) {
        if i < |x| {
          assert !LeftAtOnce(r, x, i);
        } else {
          assert !LeftAtOnce(r, y, i - |x|) && |x| + (i - |x|) == i;
        }
      }
    }
  }

  lemma {:induction false} Elsewhere(rs: set<Region>, ids: set<NodeId>, t: seq<NodeId>)
    requires Inside(rs, ids) && forall n | n in t :: n !in ids
    ensures NoneLeft(rs, t)
  {
    forall r, i | r in rs && 0 <= i < |t| ensures !LeftAtOnce(r, t, i) {
      assert t[i] in t;
    }
  }

  lemma {:induction false} UnionIff(a: set<Region>, b: set<Region>, t: seq<NodeId>)
    ensures NoneLeft(a + b, t) <==> NoneLeft(a, t) && NoneLeft(b, t)
  {
  }

  /** Of a trace u + v, the regions of one side see that side only. */
  lemma {:induction false} SideIff(rs: set<Region>, ids: set<NodeId>, u: seq<NodeId>, v: seq<NodeId>)
    requires Inside(rs, ids)
    ensures (forall n | n in v :: n !in ids) ==> (NoneLeft(rs, u + v) <==> NoneLeft(rs, u))
    ensures (forall n | n in u :: n !in ids) ==> (NoneLeft(rs, u + v) <==> NoneLeft(rs, v))
  {
    hide NoneLeft, Inside;
    if forall n | n in v :: n !in ids {
      CutIff(rs, ids, u, v);
      Elsewhere(rs, ids, v);
    }
    if forall n | n in u :: n !in ids {
      CutIff(rs, ids, u, v);
      Elsewhere(rs, ids, u);
    }
  }

  lemma {:induction false} PairIff(a: set<Region>, aIds: set<NodeId>, b: set<Region>, bIds: set<NodeId>,
                                   u: seq<NodeId>, v: seq<NodeId>)
    requires Inside(a, aIds) && Inside(b, bIds) && aIds !! bIds && Within(u, aIds) && Within(v, bIds)
    ensures NoneLeft(a + b, u + v) <==> NoneLeft(a, u) && NoneLeft(b, v)
  {
    hide NoneLeft, Inside;
    UnionIff(a, b, u + v);
    SideIff(a, aIds, u, v);
    SideIff(b, bIds, u, v);
  }

  // ----- executions -----

  lemma {:induction false} ExecutionIsRun(s: Stmt, again: bool, t: seq<NodeId>, o: Outcome)
    requires Executes(s, again, t, o)
    ensures Runs(s, t, o)
    decreases |t|, s
  {
    match s
    case Compound(id, tag, body) =>
      var ob :| ExecutesSeq(body, t[1..], ob) && o == (if StopsLeave(tag, ob) then Normal else ob);
      ExecutionIsRunSeq(body, t[1..], ob);
    case If(id, arms) =>
      if !(t == [id] && o == Normal && CanFallThrough(arms)) {
        var i :| 0 <= i < |arms| && CanTake(arms, i) && t[1] == arms[i].id && ExecutesSeq(arms[i].body, t[2..], o);
        ExecutionIsRunSeq(arms[i].body, t[2..], o);
      }
    case Loop(id, tag, kind, body) =>
      if !(t == [id] && o == Normal && kind != LOOP && (kind == REPEAT ==> again)) {
        var u, ob, v := LoopExecutionParts(s, again, t, o);
        ExecutionIsRunSeq(body, u, ob);
        if Repeats(tag, ob) {
          ExecutionIsRun(s, true, v, o);
        }
        LoopRun(s, u, ob, v, o);
      }
    case _ =>
  }

  lemma {:induction false} ExecutionIsRunSeq(ss: seq<Stmt>, t: seq<NodeId>, o: Outcome)
    requires ExecutesSeq(ss, t, o)
    ensures RunsSeq(ss, t, o)
    decreases |t|, ss
  {
    if ss != [] {
      var n, first := SeqExecutionParts(ss, t, o);
      ExecutionIsRun(ss[0], false, t[..n], first);
      if first == Normal {
        ExecutionIsRunSeq(ss[1..], t[n..], o);
      }
    }
  }

  lemma {:induction false} SeqExecutionParts(ss: seq<Stmt>, t: seq<NodeId>, o: Outcome) returns (n: nat, first: Outcome)
    requires ss != [] && ExecutesSeq(ss, t, o)
    ensures n <= |t| && Executes(ss[0], false, t[..n], first)
    ensures if first == Normal then ExecutesSeq(ss[1..], t[n..], o) else n == |t| && o == first
  {
    n, first :| 0 <= n <= |t| && Executes(ss[0], false, t[..n], first) &&
      if first == Normal then ExecutesSeq(ss[1..], t[n..], o) else n == |t| && o == first;
  }

  lemma {:induction false} LoopExecutionParts(s: Stmt, again: bool, t: seq<NodeId>, o: Outcome)
    returns (u: seq<NodeId>, ob: Outcome, v: seq<NodeId>)
    requires s.Loop? && Executes(s, again, t, o)
    requires !(t == [s.id] && o == Normal && s.kind != LOOP && (s.kind == REPEAT ==> again))
    ensures ExecutesSeq(s.body, u, ob) && t == [s.id] + u + v
    ensures if Repeats(s.tag, ob) then Executes(s, true, v, o)
            else v == [] && o == (if StopsLeave(s.tag, ob) then Normal else ob)
  {
    var n;
    n, ob :| 1 <= n <= |t| && ExecutesSeq(s.body, t[1..n], ob) &&
      if Repeats(s.tag, ob) then Executes(s, true, t[n..], o)
      else n == |t| && o == (if StopsLeave(s.tag, ob) then Normal else ob);
    u, v := t[1..n], t[n..];
  }

  lemma {:induction false} LoopExecution(s: Stmt, again: bool, u: seq<NodeId>, ob: Outcome, v: seq<NodeId>, o: Outcome)
    requires s.Loop? && ExecutesSeq(s.body, u, ob)
    requires if Repeats(s.tag, ob) then Executes(s, true, v, o)
             else v == [] && o == (if StopsLeave(s.tag, ob) then Normal else ob)
    ensures Executes(s, again, [s.id] + u + v, o)
  {
    var t, n := [s.id] + u + v, 1 + |u|;
    assert t[1..n] == u && t[n..] == v;
  }

  /** A trace of s as its regions see it; a later visit of a header is preceded by a node of its loop. */
  function Seen(s: Stmt, again: bool, t: seq<NodeId>): seq<NodeId> {
    if again && s.Loop? then [s.id] + t else t
  }

  /** The executions of a statement are the runs in which no REPEAT header is left on its first visit. */
  lemma {:induction false} ExecutesIff(s: Stmt, again: bool, t: seq<NodeId>, o: Outcome)
    requires Distinct(s)
    ensures Executes(s, again, t, o) <==> Runs(s, t, o) && NoneLeft(Regions(s), Seen(s, again, t))
    decreases |t|, s, 2
  {
    hide NoneLeft;
    match s
    case Compound(id, tag, body) =>
      forall ob ensures t != [] && t[0] == id ==>
        (ExecutesSeq(body, t[1..], ob) <==> RunsSeq(body, t[1..], ob) && NoneLeft(RegionsSeq(body), t))
      {
        if t != [] && t[0] == id {
          ExecutesSeqIff(body, t[1..], ob);
          RegionsInsideSeq(body);
          SideIff(RegionsSeq(body), IdsSeq(body), [id], t[1..]);
          assert t == [id] + t[1..];
        }
      }
    case If(id, arms) => IfExecutesIff(s, t, o);
    case Loop(id, tag, kind, body) => LoopExecutesIff(s, again, t, o);
    case _ => Elsewhere({}, {}, t);
  }

  lemma {:induction false} ExecutesSeqIff(ss: seq<Stmt>, t: seq<NodeId>, o: Outcome)
    requires DistinctSeq(ss)
    ensures ExecutesSeq(ss, t, o) <==> RunsSeq(ss, t, o) && NoneLeft(RegionsSeq(ss), t)
    decreases |t|, ss, 2
  {
    hide NoneLeft;
    if ss == [] {
      Elsewhere({}, {}, t);
    } else {
      forall n, first | 0 <= n <= |t| && Runs(ss[0], t[..n], first) && (first == Normal ==> RunsSeq(ss[1..], t[n..], o))
        && (first != Normal ==> n == |t|)
        ensures NoneLeft(RegionsSeq(ss), t) <==>
          && Executes(ss[0], false, t[..n], first)
          && (first == Normal ==> ExecutesSeq(ss[1..], t[n..], o))
      {
        SplitIff(ss, t, n, first, o);
      }
      if ExecutesSeq(ss, t, o) {
        ExecutionIsRunSeq(ss, t, o);
        var n, first := SeqExecutionParts(ss, t, o);
        ExecutionIsRun(ss[0], false, t[..n], first);
        if first == Normal {
          ExecutionIsRunSeq(ss[1..], t[n..], o);
        }
      }
    }
  }

  /** A list that runs its first statement over the first n nodes. */
  lemma {:induction false} SplitIff(ss: seq<Stmt>, t: seq<NodeId>, n: nat, first: Outcome, o: Outcome)
    requires DistinctSeq(ss) && ss != [] && n <= |t| && Runs(ss[0], t[..n], first)
    requires if first == Normal then RunsSeq(ss[1..], t[n..], o) else n == |t|
    ensures NoneLeft(RegionsSeq(ss), t) <==>
      Executes(ss[0], false, t[..n], first) && (first == Normal ==> ExecutesSeq(ss[1..], t[n..], o))
    decreases |t|, ss, 1
  {
    hide NoneLeft;
    var u, v := t[..n], t[n..];
    assert t == u + v;
    RunIsWithin(ss[0], u, first);
    RegionsInside(ss[0]);
    RegionsInsideSeq(ss[1..]);
    ExecutesIff(ss[0], false, u, first);
    if first == Normal {
      RunIsWithinSeq(ss[1..], v, o);
      ExecutesSeqIff(ss[1..], v, o);
    } else {
      Elsewhere(RegionsSeq(ss[1..]), IdsSeq(ss[1..]), v);
    }
    PairIff(Regions(ss[0]), Ids(ss[0]), RegionsSeq(ss[1..]), IdsSeq(ss[1..]), u, v);
  }

  lemma {:induction false} DistinctArm(arms: seq<Arm>, i: nat, t: seq<NodeId>)
    requires DistinctArms(arms) && i < |arms| && Within(t, IdsSeq(arms[i].body))
    ensures DistinctSeq(arms[i].body) && arms[i].id !in IdsSeq(arms[i].body)
    ensures NoneLeft(RegionsArms(arms), t) <==> NoneLeft(RegionsSeq(arms[i].body), t)
    decreases i
  {
    hide NoneLeft;
    UnionIff(RegionsSeq(arms[0].body), RegionsArms(arms[1..]), t);
    if i == 0 {
      RegionsInsideArms(arms[1..]);
      Elsewhere(RegionsArms(arms[1..]), IdsArms(arms[1..]), t);
    } else {
      DistinctArm(arms[1..], i - 1, t);
      ArmIsWithin(arms[1..], i - 1);
      RegionsInsideSeq(arms[0].body);
      Elsewhere(RegionsSeq(arms[0].body), IdsSeq(arms[0].body), t);
    }
  }

  lemma {:induction false} IfExecutesIff(s: Stmt, t: seq<NodeId>, o: Outcome)
    requires Distinct(s) && s.If?
    ensures Executes(s, false, t, o) <==> Runs(s, t, o) && NoneLeft(Regions(s), t)
    ensures Executes(s, true, t, o) <==> Executes(s, false, t, o)
    decreases |t|, s, 1
  {
    hide NoneLeft;
    var arms := s.arms;
    RegionsInsideArms(arms);
    if t == [s.id] {
      Elsewhere(RegionsArms(arms), IdsArms(arms), t);
    } else if |t| > 1 && t[0] == s.id {
      forall i | 0 <= i < |arms| && t[1] == arms[i].id && RunsSeq(arms[i].body, t[2..], o)
        ensures ExecutesSeq(arms[i].body, t[2..], o) <==> NoneLeft(Regions(s), t)
      {
        RunIsWithinSeq(arms[i].body, t[2..], o);
        DistinctArm(arms, i, t[2..]);
        ExecutesSeqIff(arms[i].body, t[2..], o);
        TwoHeads(s, i, t);
      }
      forall i | 0 <= i < |arms| && ExecutesSeq(arms[i].body, t[2..], o) ensures RunsSeq(arms[i].body, t[2..], o) {
        ExecutionIsRunSeq(arms[i].body, t[2..], o);
      }
    }
  }

  /** The nodes of an IF and of its arm are no REPEAT headers. */
  lemma {:induction false} TwoHeads(s: Stmt, i: nat, t: seq<NodeId>)
    requires Distinct(s) && s.If? && i < |s.arms| && |t| > 1 && t[0] == s.id && t[1] == s.arms[i].id
    requires Within(t[2..], IdsSeq(s.arms[i].body))
    ensures NoneLeft(Regions(s), t) <==> NoneLeft(RegionsSeq(s.arms[i].body), t[2..])
  {
    hide NoneLeft;
    assert Within(t[1..], IdsArms(s.arms)) by {
      ArmIsWithin(s.arms, i);
      assert t[1..] == [t[1]] + t[2..];
    }
    assert t == [t[0]] + t[1..];
    RegionsInsideArms(s.arms);
    SideIff(RegionsArms(s.arms), IdsArms(s.arms), [t[0]], t[1..]);
    ArmHead(s.arms, i, t[1..]);
  }

  lemma {:induction false} ArmHead(arms: seq<Arm>, i: nat, t: seq<NodeId>)
    requires DistinctArms(arms) && i < |arms| && t != [] && t[0] == arms[i].id && Within(t[1..], IdsSeq(arms[i].body))
    ensures NoneLeft(RegionsArms(arms), t) <==> NoneLeft(RegionsSeq(arms[i].body), t[1..])
    decreases i
  {
    hide NoneLeft;
    var a, b := RegionsSeq(arms[0].body), RegionsArms(arms[1..]);
    UnionIff(a, b, t);
    assert t == [t[0]] + t[1..];
    RegionsInsideSeq(arms[0].body);
    RegionsInsideArms(arms[1..]);
    if i == 0 {
      Elsewhere(b, IdsArms(arms[1..]), t);
      SideIff(a, IdsSeq(arms[0].body), [t[0]], t[1..]);
    } else {
      ArmHead(arms[1..], i - 1, t);
      ArmIsWithin(arms[1..], i - 1);
      Elsewhere(a, IdsSeq(arms[0].body), t);
    }
  }

  // ----- loops -----

  /** A trace all inside a REPEAT loop leaves it at once only if it is nothing but its header. */
  lemma {:induction false} OwnRegion(r: Region, t: seq<NodeId>)
    requires Within(t, r.ids)
    ensures NoneLeft({r}, t) <==> !(|t| == 1 && t[0] == r.header)
  {
    if t != [] {
      assert forall i | 0 <= i < |t| :: t[i] in t;
      assert LeftAtOnce(r, t, 0) <==> |t| == 1 && t[0] == r.header;
    }
  }

  /** What the regions of a loop see of a trace all inside it. */
  lemma {:induction false} LoopSees(s: Stmt, t: seq<NodeId>)
    requires s.Loop? && Distinct(s) && Within(t, Ids(s))
    ensures NoneLeft(Regions(s), t) <==> NoneLeft(RegionsSeq(s.body), t) && (s.kind == REPEAT ==> t != [s.id])
  {
    hide NoneLeft;
    var own := Region(s.id, Ids(s));
    UnionIff(RegionsSeq(s.body), if s.kind == REPEAT then {own} else {}, t);
    OwnRegion(own, t);
    Elsewhere({}, {}, t);
  }

  /** One round of a loop: the regions of its body see the rounds one by one. */
  lemma {:induction false} RoundsIff(s: Stmt, again: bool, u: seq<NodeId>, v: seq<NodeId>)
    requires s.Loop? && Distinct(s) && Within(u, IdsSeq(s.body)) && Within(v, Ids(s))
    requires v != [] ==> v[0] == s.id
    requires v == [] ==> u != []
    ensures NoneLeft(Regions(s), Seen(s, again, [s.id] + u + v)) <==>
      NoneLeft(RegionsSeq(s.body), u) && (v != [] ==> NoneLeft(Regions(s), Seen(s, true, v)))
  {
    hide NoneLeft;
    var rs, ids, h, t := RegionsSeq(s.body), IdsSeq(s.body), [s.id], [s.id] + u + v;
    RegionsInsideSeq(s.body);
    LoopSees(s, Seen(s, again, t));
    LoopSees(s, Seen(s, true, v));
    SideIff(rs, ids, h, v);
    SideIff(rs, ids, h, t);
    assert t == h + (u + v);
    SideIff(rs, ids, h, u + v);
    CutIff(rs, ids, u, v);
    if v == [] {
      Elsewhere(rs, ids, v);
    }
  }

  lemma {:induction false} LoopExecutesIff(s: Stmt, again: bool, t: seq<NodeId>, o: Outcome)
    requires Distinct(s) && s.Loop?
    ensures Executes(s, again, t, o) <==> Runs(s, t, o) && NoneLeft(Regions(s), Seen(s, again, t))
    decreases |t|, s, 1
  {
    hide NoneLeft;
    if Executes(s, again, t, o) {
      LoopExecutionIsSeen(s, again, t, o);
    }
    if Runs(s, t, o) && NoneLeft(Regions(s), Seen(s, again, t)) {
      SeenLoopExecutes(s, again, t, o);
    }
  }

  /** A run that ends at the header of its loop. */
  lemma {:induction false} HeaderOnly(s: Stmt, again: bool)
    requires s.Loop? && Distinct(s)
    ensures NoneLeft(Regions(s), Seen(s, again, [s.id])) <==> (s.kind == REPEAT ==> again)
  {
    hide NoneLeft;
    RegionsInsideSeq(s.body);
    LoopSees(s, Seen(s, again, [s.id]));
    Elsewhere(RegionsSeq(s.body), IdsSeq(s.body), Seen(s, again, [s.id]));
  }

  lemma {:induction false} LoopExecutionIsSeen(s: Stmt, again: bool, t: seq<NodeId>, o: Outcome)
    requires Distinct(s) && s.Loop? && Executes(s, again, t, o)
    ensures Runs(s, t, o) && NoneLeft(Regions(s), Seen(s, again, t))
    decreases |t|, s, 0
  {
    hide NoneLeft;
    ExecutionIsRun(s, again, t, o);
    if t == [s.id] && o == Normal && s.kind != LOOP && (s.kind == REPEAT ==> again) {
      HeaderOnly(s, again);
    } else {
      var u, ob, v := LoopExecutionParts(s, again, t, o);
      ExecutionIsRunSeq(s.body, u, ob);
      RunIsWithinSeq(s.body, u, ob);
      ExecutesSeqIff(s.body, u, ob);
      if Repeats(s.tag, ob) {
        LoopExecutionIsSeen(s, true, v, o);
        RunIsWithin(s, v, o);
      }
      RoundsIff(s, again, u, v);
    }
  }

  lemma {:induction false} SeenLoopExecutes(s: Stmt, again: bool, t: seq<NodeId>, o: Outcome)
    requires Distinct(s) && s.Loop? && Runs(s, t, o) && NoneLeft(Regions(s), Seen(s, again, t))
    ensures Executes(s, again, t, o)
    decreases |t|, s, 0
  {
    hide NoneLeft;
    if t == [s.id] && o == Normal && s.kind != LOOP {
      HeaderOnly(s, again);
    } else {
      var u, ob, v := LoopRunParts(s, t, o);
      RunIsWithinSeq(s.body, u, ob);
      ExecutesSeqIff(s.body, u, ob);
      if Repeats(s.tag, ob) {
        RunIsWithin(s, v, o);
      }
      RoundsIff(s, again, u, v);
      if Repeats(s.tag, ob) {
        SeenLoopExecutes(s, true, v, o);
      }
      LoopExecution(s, again, u, ob, v, o);
    }
  }

  // ----- the paths of the graph -----

  /** p visits the entry, then the nodes of an execution of the body, then its exit. */
  ghost predicate IsExecution(body: seq<Stmt>, p: seq<NodeRef>) {
    exists t, o :: ExecutesSeq(body, t, o) && p == [Entry] + Nodes(t) + [ExitFor(o)]
  }

  /** Somewhere on p the header of a REPEAT loop is entered from outside the loop and left to the
      outside. */
  ghost predicate LeavesRepeatAtOnce(body: seq<Stmt>, p: seq<NodeRef>) {
    exists r, i | r in RegionsSeq(body) && 0 < i < |p| - 1 :: Skips(r, p, i)
  }

  ghost predicate Skips(r: Region, p: seq<NodeRef>, i: nat)
    requires 0 < i < |p| - 1
  {
    p[i] == Ast(r.header) && p[i - 1] !in NodesFor(r.ids) && p[i + 1] !in NodesFor(r.ids)
  }

  lemma {:induction false} SkipsIff(rs: set<Region>, t: seq<NodeId>, exit: NodeRef)
    requires IsExit(exit)
    ensures var p := [Entry] + Nodes(t) + [exit];
      NoneLeft(rs, t) <==> !exists r, i | r in rs && 0 < i < |p| - 1 :: Skips(r, p, i)
  {
    var p := [Entry] + Nodes(t) + [exit];
    forall r, i | r in rs && 0 <= i < |t| ensures LeftAtOnce(r, t, i) <==> Skips(r, p, i + 1) {
      assert p[i + 1] == Ast(t[i]);
      assert i > 0 ==> p[i] == Ast(t[i - 1]);
      assert i + 1 < |t| ==> p[i + 2] == Ast(t[i + 1]);
      assert p[0] == Entry && p[|t| + 1] == exit;
    }
    if NoneLeft(rs, t) {
      forall r, i | r in rs && 0 < i < |p| - 1 ensures !Skips(r, p, i) {
        assert !LeftAtOnce(r, t, i - 1);
      }
    } else {
      var r, i :| r in rs && 0 <= i < |t| && LeftAtOnce(r, t, i);
      assert Skips(r, p, i + 1);
    }
  }

  /** A path from the entry to an exit is an execution exactly when it never leaves the header of a REPEAT
      loop on its first visit. */
  lemma {:induction false} PathsAreExecutions(body: seq<Stmt>, p: seq<NodeRef>)
    requires DistinctSeq(body)
    ensures IsExecution(body, p) <==>
      EndsAtExit(ProgramEdges(body), p) && p[0] == Entry && !LeavesRepeatAtOnce(body, p)
  {
    hide ProgramEdges, EndsAtExit, NoneLeft, Skips;
    PathsAreRuns(body, p);
    forall t, o ensures ExecutesSeq(body, t, o) <==>
      RunsSeq(body, t, o) && !LeavesRepeatAtOnce(body, [Entry] + Nodes(t) + [ExitFor(o)])
    {
      ExecutesSeqIff(body, t, o);
      SkipsIff(RegionsSeq(body), t, ExitFor(o));
    }
    hide LeavesRepeatAtOnce;
    assert IsExecution(body, p) <==> IsRunPath(body, p) && !LeavesRepeatAtOnce(body, p);
  }

  lemma {:induction false} OneStatementRuns(s: Stmt, t: seq<NodeId>)
    requires Runs(s, t, Normal)
    ensures RunsSeq([s], t, Normal)
  {
    var n := |t|;
    assert t[..n] == t && t[n..] == [] && [s][1..] == [];
    assert RunsSeq([s][1..], t[n..], Normal);
    assert Runs([s][0], t[..n], Normal);
  }

  /** REPEAT x UNTIL ...: the graph has a path that skips x, and no execution takes it. */
  lemma {:induction false} RepeatMayBeSkipped(tag: Option<string>)
    ensures var body, p := [Loop(0, tag, REPEAT, [Simple(1)])], [Entry, Ast(0), NormalExit];
      EndsAtExit(ProgramEdges(body), p) && !IsExecution(body, p)
  {
    var s := Loop(0, tag, REPEAT, [Simple(1)]);
    var body, p := [s], [Entry, Ast(0), NormalExit];
    assert DistinctSeq(body[1..]) && Distinct(s);
    OneStatementRuns(s, [0]);
    assert p == [Entry] + Nodes([0]) + [ExitFor(Normal)];
    assert IsRunPath(body, p);
    PathsAreRuns(body, p);
    PathsAreExecutions(body, p);
    var r := Region(0, Ids(s));
    assert r in Regions(s) && Regions(s) <= RegionsSeq(body);
    assert Skips(r, p, 1);
  }
}
