/** The definition maps that slicing and dynamic SQL reconstruction look up: a worklist over the
    nodes of the control-flow graph, with initial definitions at the entry. */
module ReachingDefinitions {
  import opened Basics

  type Node = string
  type Symbol = string
  type Ref = string

  /** Definition ref of symbol may be the last one. */
  datatype Fact = Fact(symbol: Symbol, ref: Ref)

  /** What is known at one point: the symbols with their possible definitions. */
  type State = set<Fact>

  datatype Arc = Arc(source: Node, target: Node)

  /** A control-flow graph with the symbols that each node defines, the name of each node as a
      definition, and the definitions that hold on entry (parameters and declaration defaults). */
  datatype Graph = Graph(arcs: set<Arc>, entry: Node, defs: map<Node, set<Symbol>>, refs: map<Node, Ref>, initial: State)

  /** Nothing leads back to the entry, and every defining node has a name. */
  predicate WellFormed(g: Graph) {
    && (forall a | a in g.arcs :: a.target != g.entry)
    && (forall n | n in g.defs :: n in g.refs)
  }

  function Defines(g: Graph, n: Node): set<Symbol> {
    if n in g.defs then g.defs[n] else {}
  }

  /** The state behind a node. */
  function Transfer(g: Graph, n: Node, m: State): State
    requires WellFormed(g)
  {
    (set f | f in m && f.symbol !in Defines(g, n)) + Generated(g, n)
  }

  function Generated(g: Graph, n: Node): State
    requires WellFormed(g)
  {
    if n in g.defs then set s | s in g.defs[n] :: Fact(s, g.refs[n]) else {}
  }

  // ----- paths -----

  ghost predicate IsPath(g: Graph, p: seq<Node>) {
    p != [] && p[0] == g.entry && forall i | 0 < i < |p| :: Arc(p[i - 1], p[i]) in g.arcs
  }

  /** On arrival at the end of p, f is the last definition of its symbol, or an initial one. */
  ghost predicate Carried(g: Graph, p: seq<Node>, f: Fact)
    requires WellFormed(g)
    decreases |p|
  {
    if |p| <= 1 then f in g.initial
    else f in Generated(g, p[|p| - 2]) || (f.symbol !in Defines(g, p[|p| - 2]) && Carried(g, p[..|p| - 1], f))
  }

  /** Along some path to n, f is the last definition of its symbol before n. */
  ghost predicate Reaches(g: Graph, n: Node, f: Fact)
    requires WellFormed(g)
  {
    exists p :: IsPath(g, p) && p[|p| - 1] == n && Carried(g, p, f)
  }

  ghost predicate Reachable(g: Graph, n: Node) {
    exists p :: IsPath(g, p) && p[|p| - 1] == n
  }

  lemma {:induction false} ExtendPath(g: Graph, p: seq<Node>, n: Node)
    requires IsPath(g, p) && Arc(p[|p| - 1], n) in g.arcs
    ensures IsPath(g, p + [n]) && (p + [n])[..|p|] == p
  {
    var q := p + [n];
    forall i | 0 < i < |q| ensures Arc(q[i - 1], q[i]) in g.arcs {
      assert q[i - 1] == p[i - 1];
      assert i < |p| ==> q[i] == p[i];
    }
  }

  lemma {:induction false} ExtendReaches(g: Graph, n: Node, t: Node, m: State, f: Fact)
    requires WellFormed(g) && Reachable(g, n) && Arc(n, t) in g.arcs
    requires (forall x | x in m :: Reaches(g, n, x)) && f in Transfer(g, n, m)
    ensures Reaches(g, t, f)
  {
    var p: seq<Node>;
    if f in Generated(g, n) {
      p :| IsPath(g, p) && p[|p| - 1] == n;
    } else {
      p :| IsPath(g, p) && p[|p| - 1] == n && Carried(g, p, f);
    }
    ExtendPath(g, p, t);
    var q := p + [t];
    assert q[|q| - 2] == n && q[..|q| - 1] == p;
    assert Carried(g, q, f);
  }

  lemma {:induction false} ExtendReachable(g: Graph, n: Node, t: Node)
    requires Reachable(g, n) && Arc(n, t) in g.arcs
    ensures Reachable(g, t)
  {
    var p :| IsPath(g, p) && p[|p| - 1] == n;
    ExtendPath(g, p, t);
    assert (p + [t])[|p|] == t;
  }

  // ----- the worklist -----

  datatype Work = Work(incoming: map<Node, State>, outgoing: map<Node, State>, queue: seq<Node>, queued: set<Node>)

  function Out(w: Work, n: Node): State {
    if n in w.outgoing then w.outgoing[n] else {}
  }

  /** A predecessor of t sends f. */
  ghost predicate SentTo(g: Graph, w: Work, t: Node, f: Fact) {
    exists a | a in g.arcs :: a.target == t && f in Out(w, a.source)
  }

  ghost predicate Sound(g: Graph, w: Work)
    requires WellFormed(g)
  {
    && (forall n | n in w.incoming :: Reachable(g, n) && forall f | f in w.incoming[n] :: Reaches(g, n, f))
    && (forall n | n in w.outgoing :: n in w.incoming)
    && (forall n | n in w.queue :: n in w.incoming)
    && (forall n :: n in w.queued <==> n in w.queue)
    && g.entry in w.incoming && w.incoming[g.entry] == g.initial
  }

  /** What a node has sent is at most what it would send now, and exactly that unless it waits. */
  ghost predicate Sent(g: Graph, w: Work, n: Node)
    requires WellFormed(g) && n in w.incoming
  {
    && (n in w.outgoing ==> w.outgoing[n] <= Transfer(g, n, w.incoming[n]))
    && (n !in w.queued ==> n in w.outgoing && w.outgoing[n] == Transfer(g, n, w.incoming[n]))
  }

  /** A node other than the entry holds nothing that was not sent to it. */
  ghost predicate NoMore(g: Graph, w: Work) {
    forall t, f | t in w.incoming && t != g.entry && f in w.incoming[t] :: SentTo(g, w, t, f)
  }

  /** What nodes have sent has been received, except perhaps by the pending ones. */
  ghost predicate Received(g: Graph, w: Work, pending: set<Node>) {
    && (forall a | a in g.arcs && a.source in w.outgoing && a.target !in pending :: a.target in w.incoming)
    && (forall t, f | t in w.incoming && t !in pending && SentTo(g, w, t, f) :: f in w.incoming[t])
  }

  ghost predicate AllSent(g: Graph, w: Work)
    requires WellFormed(g)
  {
    forall n | n in w.incoming :: Sent(g, w, n)
  }

  ghost predicate Invariant(g: Graph, w: Work, pending: set<Node>)
    requires WellFormed(g)
  {
    Sound(g, w) && NoMore(g, w) && Received(g, w, pending) && AllSent(g, w)
  }

  // ----- the end -----

  /** When nothing waits, the states hold everything that any path carries. */
  lemma {:induction false} Complete(g: Graph, w: Work, p: seq<Node>)
    requires WellFormed(g) && Invariant(g, w, {}) && w.queue == []
    requires IsPath(g, p)
    ensures var n := p[|p| - 1]; n in w.incoming && n in w.outgoing && forall f | Carried(g, p, f) :: f in w.incoming[n]
    decreases |p|
  {
    var n := p[|p| - 1];
    if |p| == 1 {
      assert Sent(g, w, n);
    } else {
      var q, m := p[..|p| - 1], p[|p| - 2];
      assert IsPath(g, q) && q[|q| - 1] == m;
      Complete(g, w, q);
      var a := Arc(m, n);
      assert a in g.arcs && a.target in w.incoming && Sent(g, w, m) && Sent(g, w, n);
      forall f | Carried(g, p, f) ensures f in w.incoming[n] {
        assert f in Out(w, a.source);
        assert SentTo(g, w, n, f);
      }
    }
  }

  /** The states are exact. */
  lemma {:induction false} AtTheEnd(g: Graph, w: Work, n: Node, f: Fact)
    requires WellFormed(g) && Invariant(g, w, {}) && w.queue == []
    ensures n in w.incoming <==> Reachable(g, n)
    ensures n in w.incoming ==> (f in w.incoming[n] <==> Reaches(g, n, f))
  {
    hide Carried, Received, AllSent, NoMore;
    if Reachable(g, n) {
      var p :| IsPath(g, p) && p[|p| - 1] == n;
      Complete(g, w, p);
    }
    if Reaches(g, n, f) {
      var p :| IsPath(g, p) && p[|p| - 1] == n && Carried(g, p, f);
      Complete(g, w, p);
    }
  }

  // ----- a round -----

  method MergePredecessors(g: Graph, w: Work, t: Node) returns (m: State)
    ensures forall f :: f in m <==> SentTo(g, w, t, f)
  {
    m := {};
    var preds := set a | a in g.arcs && a.target == t :: a.source;
    var todo := preds;
    while todo != {}
      invariant todo <= preds
      invariant forall f :: f in m <==> exists n | n in preds - todo :: f in Out(w, n)
      decreases todo
    {
      var n :| n in todo;
      assert preds - (todo - {n}) == (preds - todo) + {n};
      m, todo := m + Out(w, n), todo - {n};
    }
    forall f ensures f in m <==> SentTo(g, w, t, f) {
      MergedIsSent(g, w, t, preds, f);
    }
  }

  lemma {:induction false} MergedIsSent(g: Graph, w: Work, t: Node, preds: set<Node>, f: Fact)
    requires preds == set a | a in g.arcs && a.target == t :: a.source
    ensures (exists n | n in preds - {} :: f in Out(w, n)) <==> SentTo(g, w, t, f)
  {
    if n :| n in preds && f in Out(w, n) {
      var a :| a in g.arcs && a.target == t && a.source == n;
      assert f in Out(w, a.source);
    }
    if a :| a in g.arcs && a.target == t && f in Out(w, a.source) {
      assert a.source in preds - {};
    }
  }

  function Successors(g: Graph, n: Node): set<Node> {
    set a | a in g.arcs && a.source == n :: a.target
  }

  /** The work after current has sent its state, with the successors still to receive it. */
  lemma {:induction false} Sending(g: Graph, w: Work, rest: Work, current: Node, out: State, now: Work)
    requires WellFormed(g) && Invariant(g, w, {}) && w.queue != [] && current == w.queue[0]
    requires rest == w.(queue := w.queue[1..], queued := set n | n in w.queue[1..])
    requires out == Transfer(g, current, w.incoming[current])
    requires now == rest.(outgoing := w.outgoing[current := out])
    ensures Invariant(g, now, Successors(g, current))
    ensures Out(w, current) <= out
  {
    hide Transfer, Reaches, Reachable;
    assert w.queue == [current] + w.queue[1..];
    assert Sent(g, w, current);
    SendingGrows(g, w, current, out, now);
    assert Sound(g, now);
    assert NoMore(g, now);
    forall t, f | t in now.incoming && t !in Successors(g, current) && SentTo(g, now, t, f) ensures f in now.incoming[t] {
      SentByOthers(g, w, current, out, now, t, f);
    }
    forall n | n in now.incoming ensures Sent(g, now, n) {
      assert Sent(g, w, n);
    }
  }

  lemma {:induction false} SendingGrows(g: Graph, w: Work, current: Node, out: State, now: Work)
    requires now.outgoing == w.outgoing[current := out] && Out(w, current) <= out
    ensures forall t, f | SentTo(g, w, t, f) :: SentTo(g, now, t, f)
  {
    forall t, f | SentTo(g, w, t, f) ensures SentTo(g, now, t, f) {
      var a :| a in g.arcs && a.target == t && f in Out(w, a.source);
      assert f in Out(now, a.source);
    }
  }

  lemma {:induction false} SentByOthers(g: Graph, w: Work, current: Node, out: State, now: Work, t: Node, f: Fact)
    requires now.outgoing == w.outgoing[current := out] && t !in Successors(g, current) && SentTo(g, now, t, f)
    ensures SentTo(g, w, t, f)
  {
    var a :| a in g.arcs && a.target == t && f in Out(now, a.source);
    assert a.source != current;
    assert f in Out(w, a.source);
  }

  function Enqueue(w: Work, t: Node): Work {
    if t in w.queued then w else w.(queue := w.queue + [t], queued := w.queued + {t})
  }

  function Deliver(w: Work, t: Node, m: State): Work {
    if t in w.incoming && w.incoming[t] == m then w else Enqueue(w.(incoming := w.incoming[t := m]), t)
  }

  lemma {:induction false} Delivering(g: Graph, w: Work, pending: set<Node>, current: Node, t: Node, m: State)
    requires WellFormed(g) && Invariant(g, w, pending) && t in pending && Arc(current, t) in g.arcs && current in w.outgoing
    requires forall f :: f in m <==> SentTo(g, w, t, f)
    ensures Invariant(g, Deliver(w, t, m), pending - {t}) && Deliver(w, t, m).outgoing == w.outgoing
  {
    hide Transfer, Reaches, Reachable, Sent;
    var now := Deliver(w, t, m);
    assert t != g.entry by { assert Arc(current, t).target != g.entry; }
    assert forall x, f :: SentTo(g, now, x, f) <==> SentTo(g, w, x, f) by {
      SameSent(g, w, now);
    }
    assert t in w.incoming ==> w.incoming[t] <= m;
    MergeIsSound(g, w, t, m);
    ArrivalIsReachable(g, w, current, t);
    assert Sound(g, now);
    DeliveringSent(g, w, t, m);
  }

  lemma {:induction false} DeliveringSent(g: Graph, w: Work, t: Node, m: State)
    requires WellFormed(g) && AllSent(g, w) && (t in w.outgoing ==> t in w.incoming) && (t in w.incoming ==> w.incoming[t] <= m)
    ensures AllSent(g, Deliver(w, t, m))
  {
    hide Transfer;
    var now := Deliver(w, t, m);
    forall n | n in now.incoming ensures Sent(g, now, n) {
      if n in w.incoming {
        assert Sent(g, w, n);
        if n == t {
          TransferGrows(g, n, w.incoming[n], m);
        }
      }
    }
  }

  lemma {:induction false} SameSent(g: Graph, w: Work, now: Work)
    requires now.outgoing == w.outgoing
    ensures forall x, f :: SentTo(g, now, x, f) <==> SentTo(g, w, x, f)
  {
    assert forall n :: Out(now, n) == Out(w, n);
  }

  lemma {:induction false} TransferGrows(g: Graph, n: Node, a: State, b: State)
    requires WellFormed(g) && a <= b
    ensures Transfer(g, n, a) <= Transfer(g, n, b)
  {
  }

  lemma {:induction false} ArrivalIsReachable(g: Graph, w: Work, current: Node, t: Node)
    requires WellFormed(g) && Sound(g, w) && current in w.outgoing && Arc(current, t) in g.arcs
    ensures Reachable(g, t)
  {
    hide Reaches;
    ExtendReachable(g, current, t);
  }

  lemma {:induction false} MergeIsSound(g: Graph, w: Work, t: Node, m: State)
    requires WellFormed(g) && Sound(g, w) && AllSent(g, w) && forall f :: f in m <==> SentTo(g, w, t, f)
    ensures forall f | f in m :: Reaches(g, t, f)
  {
    hide Transfer, Reaches, Reachable;
    forall f | f in m ensures Reaches(g, t, f) {
      var a :| a in g.arcs && a.target == t && f in Out(w, a.source);
      assert a == Arc(a.source, t) && Sent(g, w, a.source);
      ExtendReaches(g, a.source, t, w.incoming[a.source], f);
    }
  }

  // ----- termination -----

  ghost function AllFacts(g: Graph): set<Fact>
    requires WellFormed(g)
  {
    g.initial + set n, s | n in g.defs && s in g.defs[n] :: Fact(s, g.refs[n])
  }

  ghost function Places(g: Graph): set<Node> {
    {g.entry} + set a | a in g.arcs :: a.target
  }

  ghost function Universe(g: Graph): set<(Node, Option<Fact>)>
    requires WellFormed(g)
  {
    (set n | n in Places(g) :: (n, None)) + set n, f | n in Places(g) && f in AllFacts(g) :: (n, Some(f))
  }

  ghost function Recorded(w: Work): set<(Node, Option<Fact>)> {
    (set n | n in w.outgoing :: (n, None)) + set n, f | n in w.outgoing && f in w.outgoing[n] :: (n, Some(f))
  }

  lemma {:induction false} CarriedIsFact(g: Graph, p: seq<Node>, f: Fact)
    requires WellFormed(g) && Carried(g, p, f)
    ensures f in AllFacts(g)
    decreases |p|
  {
    if |p| > 1 && f !in Generated(g, p[|p| - 2]) {
      CarriedIsFact(g, p[..|p| - 1], f);
    }
  }

  lemma {:induction false} ReachesIsFact(g: Graph, n: Node, f: Fact)
    requires WellFormed(g) && Reaches(g, n, f)
    ensures f in AllFacts(g)
  {
    var p :| IsPath(g, p) && p[|p| - 1] == n && Carried(g, p, f);
    CarriedIsFact(g, p, f);
  }

  lemma {:induction false} ReachableIsPlace(g: Graph, n: Node)
    requires Reachable(g, n)
    ensures n in Places(g)
  {
    var p :| IsPath(g, p) && p[|p| - 1] == n;
    if |p| > 1 {
      assert Arc(p[|p| - 2], p[|p| - 1]) in g.arcs;
    }
  }

  /** A node that sends something new brings the solver nearer to its end. */
  lemma {:induction false} Progress(g: Graph, w: Work, current: Node, out: State, now: Work)
    requires WellFormed(g) && Sound(g, w) && current in w.incoming && out == Transfer(g, current, w.incoming[current])
    requires Out(w, current) <= out && !(current in w.outgoing && w.outgoing[current] == out)
    requires now.outgoing == w.outgoing[current := out]
    ensures Universe(g) - Recorded(now) < Universe(g) - Recorded(w)
  {
    hide Reaches, Reachable;
    ReachableIsPlace(g, current);
    forall f | f in out ensures f in AllFacts(g) {
      if f in w.incoming[current] {
        ReachesIsFact(g, current, f);
      }
    }
    forall u | u in Recorded(w) ensures u in Recorded(now) {
      if u.1 != None {
        assert u == (u.0, Some(u.1.value)) && u.1.value in now.outgoing[u.0];
      }
    }
    if current !in w.outgoing {
      assert (current, None) in Universe(g) && (current, None) in Recorded(now) && (current, None) !in Recorded(w);
    } else {
      var f :| f in out && f !in w.outgoing[current];
      assert f in now.outgoing[current];
      assert (current, Some(f)) in Universe(g) && (current, Some(f)) in Recorded(now) && (current, Some(f)) !in Recorded(w);
    }
  }

  // ----- the solver -----

  method SendTo(g: Graph, before: Work, current: Node) returns (w: Work)
    requires WellFormed(g) && Invariant(g, before, Successors(g, current)) && current in before.outgoing
    ensures Invariant(g, w, {}) && w.outgoing == before.outgoing
  {
    hide Invariant;
    w := before;
    var todo := Successors(g, current);
    while todo != {}
      invariant todo <= Successors(g, current) && Invariant(g, w, todo) && w.outgoing == before.outgoing
      decreases todo
    {
      var t :| t in todo;
      assert Arc(current, t) in g.arcs;
      var merged := MergePredecessors(g, w, t);
      Delivering(g, w, todo, current, t, merged);
      w := Deliver(w, t, merged);
      todo := todo - {t};
    }
  }

  /** Terminates on every finite graph, cyclic or not; a node has a state iff it is reachable, and
      its state holds exactly the definitions that are last, or still initial, along some path. */
  method Solve(g: Graph) returns (incoming: map<Node, State>)
    requires WellFormed(g)
    ensures forall n :: n in incoming <==> Reachable(g, n)
    ensures forall n, f | n in incoming :: f in incoming[n] <==> Reaches(g, n, f)
  {
    hide Invariant, Reaches, Reachable, Transfer;
    var w := Work(map[g.entry := g.initial], map[], [g.entry], {g.entry});
    Initially(g);
    while w.queue != []
      invariant Invariant(g, w, {})
      decreases Universe(g) - Recorded(w), |w.queue|
    {
      var current := w.queue[0];
      InvariantGives(g, w);
      var rest := w.(queue := w.queue[1..], queued := set n | n in w.queue[1..]);
      var out := Transfer(g, current, w.incoming[current]);
      ghost var now := rest.(outgoing := w.outgoing[current := out]);
      Sending(g, w, rest, current, out, now);
      if current in w.outgoing && w.outgoing[current] == out {
        Resting(g, w, rest, current);
        w := rest;
      } else {
        Progress(g, w, current, out, now);
        w := SendTo(g, rest.(outgoing := w.outgoing[current := out]), current);
        SameRecord(now, w);
      }
    }
    incoming := w.incoming;
    forall n, f
      ensures n in incoming <==> Reachable(g, n)
      ensures n in incoming ==> (f in incoming[n] <==> Reaches(g, n, f))
    {
      AtTheEnd(g, w, n, f);
    }
    forall n ensures n in incoming <==> Reachable(g, n) {
      AtTheEnd(g, w, n, Fact("", ""));
    }
  }

  lemma {:induction false} SameRecord(a: Work, b: Work)
    requires a.outgoing == b.outgoing
    ensures Recorded(a) == Recorded(b)
  {
  }

  lemma {:induction false} InvariantGives(g: Graph, w: Work)
    requires WellFormed(g) && Invariant(g, w, {})
    ensures Sound(g, w) && forall n | n in w.queue :: n in w.incoming
  {
  }

  lemma {:induction false} Initially(g: Graph)
    requires WellFormed(g)
    ensures Invariant(g, Work(map[g.entry := g.initial], map[], [g.entry], {g.entry}), {})
  {
    var w := Work(map[g.entry := g.initial], map[], [g.entry], {g.entry});
    assert IsPath(g, [g.entry]) && [g.entry][0] == g.entry;
    forall f | f in g.initial ensures Reaches(g, g.entry, f) {
      assert Carried(g, [g.entry], f);
    }
    assert Reachable(g, g.entry);
    forall t, f ensures !SentTo(g, w, t, f) {
    }
  }

  /** A node with nothing new to send may leave the queue. */
  lemma {:induction false} Resting(g: Graph, w: Work, rest: Work, current: Node)
    requires WellFormed(g) && Invariant(g, w, {}) && w.queue != [] && current == w.queue[0]
    requires rest == w.(queue := w.queue[1..], queued := set n | n in w.queue[1..])
    requires current in w.outgoing && w.outgoing[current] == Transfer(g, current, w.incoming[current])
    ensures Invariant(g, rest, {})
  {
    hide Transfer, Reaches, Reachable;
    assert w.queue == [current] + w.queue[1..];
    SameSent(g, w, rest);
    forall n | n in rest.incoming ensures Sent(g, rest, n) {
      assert Sent(g, w, n);
    }
  }
}
