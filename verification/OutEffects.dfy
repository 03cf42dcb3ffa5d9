/** Labels of OUT assignments and the ones a bundle inherits, by what the paths do with them. */
module OutEffects {
  import opened Basics
  import opened Dataflow

  datatype Observability = Escaping | Intermediate | Overwritten

  datatype OutEffect = OutEffect(symbol: Symbol, ref: Ref, observability: Observability)

  /** Definition d of s takes effect on edge i of p and nothing redefines s afterwards. */
  ghost predicate SurvivesFrom(g: Graph, p: seq<Edge>, i: nat, s: Symbol, d: Ref) {
    && i < |p|
    && EdgeDefinition(g, p[i], s) == Some(d)
    && forall j | i < j < |p| :: EdgeDefinition(g, p[j], s) == None
  }

  /** Some path from the entry runs through the definition and reaches n with it intact. */
  ghost predicate SurvivesTo(g: Graph, n: Node, s: Symbol, d: Ref) {
    exists p, i :: IsPath(g, p, n) && SurvivesFrom(g, p, i, s, d)
  }

  lemma {:induction false} LastDefinitionSurvives(g: Graph, p: seq<Edge>, s: Symbol, d: Ref)
    ensures LastDefinition(g, p, s) == Some(d) <==> exists i :: SurvivesFrom(g, p, i, s, d)
  {
    if p != [] {
      var n := |p| - 1;
      var q := p[..n];
      LastDefinitionSurvives(g, q, s, d);
      if EdgeDefinition(g, p[n], s) == None {
        if i :| SurvivesFrom(g, q, i, s, d) {
          assert SurvivesFrom(g, p, i, s, d);
        }
        if i :| SurvivesFrom(g, p, i, s, d) {
          assert SurvivesFrom(g, q, i, s, d);
        }
      } else if EdgeDefinition(g, p[n], s) == Some(d) {
        assert SurvivesFrom(g, p, n, s, d);
      }
    }
  }

  lemma {:induction false} ReachesIsSurvival(g: Graph, n: Node, s: Symbol, d: Ref)
    ensures Reaches(g, n, s, d) <==> SurvivesTo(g, n, s, d)
  {
    if Reaches(g, n, s, d) {
      var p :| IsPath(g, p, n) && LastDefinition(g, p, s) == Some(d);
      LastDefinitionSurvives(g, p, s, d);
      var i :| SurvivesFrom(g, p, i, s, d);
    }
    if SurvivesTo(g, n, s, d) {
      var p, i :| IsPath(g, p, n) && SurvivesFrom(g, p, i, s, d);
      LastDefinitionSurvives(g, p, s, d);
    }
  }

  ghost predicate LabelIsExact(g: Graph, normalExit: Node, exceptionalExit: Node, effect: OutEffect) {
    var normal := SurvivesTo(g, normalExit, effect.symbol, effect.ref);
    var exceptional := SurvivesTo(g, exceptionalExit, effect.symbol, effect.ref);
    && (effect.observability == Escaping <==> normal)
    && (effect.observability == Intermediate <==> !normal && exceptional)
    && (effect.observability == Overwritten <==> !normal && !exceptional)
  }

  /** Labels every definition of an OUT parameter by the exits its value can reach. */
  method LabelOutAssignments(g: Graph, definitions: seq<Site>, outNames: set<Symbol>,
                             normalExit: Node, exceptionalExit: Node)
    returns (effects: seq<OutEffect>)
    requires WellFormed(g) && normalExit in g.nodes && exceptionalExit in g.nodes
    ensures forall x | x in effects :: LabelIsExact(g, normalExit, exceptionalExit, x)
    ensures forall d | d in definitions && d.symbol in outNames ::
      exists x :: x in effects && x.symbol == d.symbol && x.ref == d.ref
    ensures forall x | x in effects :: Site(x.symbol, x.ref) in definitions && x.symbol in outNames
  {
    var inState, _ := Solve(g);
    effects := [];
    for i := 0 to |definitions|
      invariant forall x | x in effects :: LabelIsExact(g, normalExit, exceptionalExit, x)
      invariant forall j | 0 <= j < i && definitions[j].symbol in outNames ::
        exists x :: x in effects && x.symbol == definitions[j].symbol && x.ref == definitions[j].ref
      invariant forall x | x in effects :: Site(x.symbol, x.ref) in definitions && x.symbol in outNames
    {
      var d := definitions[i];
      if d.symbol in outNames {
        var observability :=
          if d.ref in Get(inState[normalExit], d.symbol) then Escaping
          else if d.ref in Get(inState[exceptionalExit], d.symbol) then Intermediate
          else Overwritten;
        assert In(inState[normalExit], d.symbol, d.ref) <==> d.ref in Get(inState[normalExit], d.symbol);
        assert In(inState[exceptionalExit], d.symbol, d.ref) <==> d.ref in Get(inState[exceptionalExit], d.symbol);
        ReachesIsSurvival(g, normalExit, d.symbol, d.ref);
        ReachesIsSurvival(g, exceptionalExit, d.symbol, d.ref);
        var x := OutEffect(d.symbol, d.ref, observability);
        ghost var before := effects;
        effects := effects + [x];
        assert x in effects && forall y | y in before :: y in effects;
      }
    }
  }

  // ----- inherited OUT assignments -----

  /** d is the one definition of s that can be the last before n. */
  ghost predicate OnlyDefinitionBefore(g: Graph, n: Node, s: Symbol, d: Ref) {
    Reaches(g, n, s, d) && forall x | Reaches(g, n, s, x) :: x == d
  }

  /** An effect that the bundle of a primary effect at node n may take over. */
  ghost predicate Inherits(g: Graph, n: Node, members: set<OutEffect>, x: OutEffect) {
    && x !in members && (forall m | m in members :: m.symbol != x.symbol)
    && x.observability == Escaping
    && OnlyDefinitionBefore(g, n, x.symbol, x.ref)
  }

  lemma {:induction false} SingletonState(g: Graph, m: State, n: Node, s: Symbol)
    requires forall d :: In(m, s, d) <==> Reaches(g, n, s, d)
    ensures |Get(m, s)| == 1 ==> exists d :: Get(m, s) == {d} && OnlyDefinitionBefore(g, n, s, d)
    ensures forall d | OnlyDefinitionBefore(g, n, s, d) :: Get(m, s) == {d}
  {
    if |Get(m, s)| == 1 {
      var d :| d in Get(m, s);
      assert |Get(m, s) - {d}| == 0;
      assert Get(m, s) == {d};
      forall x | Reaches(g, n, s, x) ensures x == d {
        assert In(m, s, x);
      }
      assert In(m, s, d);
    }
    forall d | OnlyDefinitionBefore(g, n, s, d) ensures Get(m, s) == {d} {
      forall x ensures x in Get(m, s) <==> x == d {
        assert In(m, s, x) <==> Reaches(g, n, s, x);
      }
    }
  }

  /** The effect on one target that is taken over, from the state m in front of the primary effect. */
  method InheritOne(g: Graph, m: State, primary: Node, members: set<OutEffect>, admitted: set<OutEffect>, target: Symbol)
    returns (found: Option<OutEffect>)
    requires forall s, d :: In(m, s, d) <==> Reaches(g, primary, s, d)
    requires forall x, y | x in admitted && y in admitted && x.symbol == y.symbol && x.ref == y.ref :: x == y
    ensures forall x :: found == Some(x) <==> x in admitted && x.symbol == target && Inherits(g, primary, members, x)
  {
    hide Reaches;
    var refs := Get(m, target);
    SingletonState(g, m, primary, target);
    var matching := set x | x in admitted && x.symbol == target && refs == {x.ref} && x.observability == Escaping;
    found := None;
    if (forall m | m in members :: m.symbol != target) && |refs| == 1 && matching != {} {
      var x :| x in matching;
      forall y | y in matching ensures y == x {
        assert y.ref in refs;
      }
      if x !in members {
        found := Some(x);
      }
    }
    forall x ensures found == Some(x) <==> x in admitted && x.symbol == target && Inherits(g, primary, members, x) {
      SingletonIsOnly(g, m, primary, target, x.ref);
      assert x in admitted && x.symbol == target && x.observability == Escaping && refs == {x.ref} ==> x in matching;
    }
  }

  lemma {:induction false} SingletonIsOnly(g: Graph, m: State, n: Node, s: Symbol, d: Ref)
    requires forall x :: In(m, s, x) <==> Reaches(g, n, s, x)
    ensures Get(m, s) == {d} <==> OnlyDefinitionBefore(g, n, s, d)
  {
    hide Reaches;
    SingletonState(g, m, n, s);
  }

  /** The effect that a bundle is about: its node, whether the bundle is controlled by an IF arm, and
      the OUT parameter that it assigns, if it assigns one. */
  datatype Primary = Primary(node: Node, inIfArm: bool, target: Option<Symbol>)

  predicate Mentions(text: string, part: string)
    decreases |text|
  {
    part <= text || (text != [] && Mentions(text[1..], part))
  }

  /** Only branches that decide something take over effects: the primary effect assigns an OUT
      parameter that is named for a decision, a status or a result. */
  predicate MayInherit(p: Primary) {
    && p.inIfArm && p.target != None
    && (Mentions(p.target.value, "DECISION") || Mentions(p.target.value, "STATUS") || Mentions(p.target.value, "RESULT"))
  }

  /** Takes over, per target of the admitted effects, the assignment that is the only definition
      reaching the primary effect: no other definition of the target can be the last one before it. */
  method InheritOutEffects(g: Graph, primary: Primary, members: set<OutEffect>, admitted: set<OutEffect>)
    returns (result: seq<OutEffect>)
    requires WellFormed(g) && primary.node in g.nodes
    requires forall x, y | x in admitted && y in admitted && x.symbol == y.symbol && x.ref == y.ref :: x == y
    ensures forall x :: x in result <==>
      MayInherit(primary) && x in admitted && x.symbol != "" && Inherits(g, primary.node, members, x)
  {
    hide Inherits, Reaches, Mentions;
    result := [];
    if !MayInherit(primary) {
      return;
    }
    var inState, _ := Solve(g);
    var targets := set x | x in admitted && x.symbol != "" :: x.symbol;
    var todo := targets;
    while todo != {}
      invariant todo <= targets
      invariant forall x :: x in result <==>
        x in admitted && x.symbol in targets - todo && Inherits(g, primary.node, members, x)
      decreases todo
    {
      var target :| target in todo;
      var found := InheritOne(g, inState[primary.node], primary.node, members, admitted, target);
      if found != None {
        result := result + [found.value];
      }
      todo := todo - {target};
    }
  }

  /** Inheritance is about definitions, not about certainty: a path may reach the primary effect
      without any definition of the target, and the assignment is still the only one. */
  lemma {:induction false} OnlyDefinitionMayBeSkipped()
    ensures var (g, around) := SkippedDefinition();
            && WellFormed(g) && "use" in g.nodes && OnlyDefinitionBefore(g, "use", "S", "set")
            && IsPath(g, around, "use") && LastDefinition(g, around, "S") == None
  {
    var (g, around) := SkippedDefinition();
    var e1, e2 := g.edges[0], g.edges[1];
    var sites := [Site("S", "set")];
    assert sites[..0] == [] && SiteFor(sites, "S") == Some("set");
    assert IsPath(g, [], "entry");
    assert [e1][..0] == [] && IsPath(g, [e1], "set");
    assert [e1, e2][..1] == [e1] && IsPath(g, [e1, e2], "use");
    assert around[..0] == [];
    assert LastDefinition(g, [e1, e2], "S") == Some("set");
    forall x | Reaches(g, "use", "S", x) ensures x == "set" {
      var p :| IsPath(g, p, "use") && LastDefinition(g, p, "S") == Some(x);
      LastIsFact(g, p, "S");
    }
  }

  /** An assignment on one of two ways to a use, and the way around it. */
  function SkippedDefinition(): (Graph, seq<Edge>) {
    var e1, e2, e3 := Edge("1", "entry", "set", false), Edge("2", "set", "use", false), Edge("3", "entry", "use", false);
    (Graph({"entry", "set", "use"}, [e1, e2, e3], "entry", map["set" := [Site("S", "set")]], {}), [e3])
  }

  /** The inherited value is certain exactly when no path avoids every definition of the target. */
  lemma {:induction false} CertainIffNotSkipped(g: Graph, n: Node, s: Symbol, d: Ref)
    requires OnlyDefinitionBefore(g, n, s, d)
    ensures (forall p | IsPath(g, p, n) :: LastDefinition(g, p, s) == Some(d))
       <==> !exists p :: IsPath(g, p, n) && forall i | 0 <= i < |p| :: EdgeDefinition(g, p[i], s) == None
  {
    forall p ensures LastDefinition(g, p, s) == None <==> forall i | 0 <= i < |p| :: EdgeDefinition(g, p[i], s) == None {
      NoneIffUndefined(g, p, s);
    }
    forall p | IsPath(g, p, n) && LastDefinition(g, p, s) != None ensures LastDefinition(g, p, s) == Some(d) {
      assert Reaches(g, n, s, LastDefinition(g, p, s).value);
    }
  }

  lemma {:induction false} NoneIffUndefined(g: Graph, p: seq<Edge>, s: Symbol)
    ensures LastDefinition(g, p, s) == None <==> forall i | 0 <= i < |p| :: EdgeDefinition(g, p[i], s) == None
  {
    if p != [] {
      var n := |p| - 1;
      NoneIffUndefined(g, p[..n], s);
      assert forall i | 0 <= i < n :: p[..n][i] == p[i];
    }
  }
}
