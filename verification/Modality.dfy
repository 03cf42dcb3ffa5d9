/** From the first boundaries of a data change to the obligation reported for it:
    classification, observability, relationship within its bundle, modality. */
module Modality {
  import opened Basics
  import opened Transaction

  datatype Classification =
    | MustCommit | MustRollback | ContractCommit | CallerControlled
    | MayCommitOrRollback | MayCommitOrCallerControlled
    | CallerControlledOrExceptional | MayCommitRollbackOrCallerControlled
    | Unresolved

  datatype Observability =
    | CommittedEffect | ConditionallyCommittedEffect | RolledBackEffect | SurvivalUnresolved

  datatype Relationship =
    | Primary | RolledBack | Audit | RequiredCoEffect | ConditionalCoEffect

  datatype Modality = Must | May | MustNot | MustIfCallerContractHolds | Unknown

  function Classify(outcomes: set<PathOutcome>): Classification {
    var meaningful := outcomes - {NoTerminalPath};
    if meaningful != {} && meaningful <= {ExplicitCommit, CommitOnReturn} then MustCommit
    else if meaningful == {ExplicitRollback} then MustRollback
    else if CallerContractCommit in meaningful && meaningful <= {CallerContractCommit, CallerContractRollback} then
      ContractCommit
    else if meaningful == {NormalExitCallerControlled} then CallerControlled
    else if meaningful <= {ExplicitCommit, CommitOnReturn, ExplicitRollback} && ExplicitRollback in meaningful then
      MayCommitOrRollback
    else if meaningful <= {ExplicitCommit, CommitOnReturn, NormalExitCallerControlled}
         && NormalExitCallerControlled in meaningful then
      MayCommitOrCallerControlled
    else if meaningful <= {NormalExitCallerControlled, ExceptionalEscape} then CallerControlledOrExceptional
    else if {ExplicitCommit, ExplicitRollback, NormalExitCallerControlled} * meaningful != {} then
      MayCommitRollbackOrCallerControlled
    else Unresolved
  }

  function Observe(c: Classification): Observability {
    match c
    case MustCommit => CommittedEffect
    case ContractCommit => ConditionallyCommittedEffect
    case MustRollback => RolledBackEffect
    case _ => SurvivalUnresolved
  }

  /** What the bundle and the loops around it say about an effect.  partialLoops has one entry per
      enclosing loop: whether its summary is missing or partial.  isRequired is the verdict of the
      dominator tests. */
  datatype Member = Member(isPrimary: bool, isDml: bool, isAuditTarget: bool, isRequired: bool,
                           partialLoops: seq<bool>, iterationScope: bool, bundlePartial: bool)

  function Relate(m: Member, o: Observability): Relationship {
    if m.isPrimary then Primary
    else if o == RolledBackEffect then RolledBack
    else if m.isDml && m.isAuditTarget then Audit
    else if m.isRequired then RequiredCoEffect
    else ConditionalCoEffect
  }

  function Base(r: Relationship): Modality {
    match r
    case Primary | RequiredCoEffect => Must
    case RolledBack => MustNot
    case Audit | ConditionalCoEffect => May
  }

  /** The modality of a data change with the given classification. */
  method Oblige(m: Member, c: Classification) returns (modality: Modality)
    ensures modality == MustNot <==> c == MustRollback
    ensures modality == MustIfCallerContractHolds <==> c == ContractCommit
    ensures modality == Must <==>
      && c == MustCommit
      && (m.isPrimary || (!(m.isDml && m.isAuditTarget) && m.isRequired))
      && (m.partialLoops == [] || m.iterationScope)
      && !m.bundlePartial
    ensures modality == Unknown <==>
      || c !in {MustCommit, MustRollback, ContractCommit}
      || (c == MustCommit && m.partialLoops != [] && !m.iterationScope && true in m.partialLoops)
      || (&& c == MustCommit && (m.isPrimary || (!(m.isDml && m.isAuditTarget) && m.isRequired))
          && (m.partialLoops == [] || m.iterationScope) && m.bundlePartial)
    ensures modality == May <==>
      && c == MustCommit
      && (|| (m.partialLoops != [] && !m.iterationScope && true !in m.partialLoops)
          || (&& (m.partialLoops == [] || m.iterationScope)
              && !m.isPrimary && ((m.isDml && m.isAuditTarget) || !m.isRequired)))
  {
    var o := Observe(c);
    modality := Base(Relate(m, o));
    if m.partialLoops != [] && !m.iterationScope {
      if modality == Must {
        modality := May;
      }
      for i := 0 to |m.partialLoops|
        invariant modality != Must
        invariant modality == MustNot ==> c == MustRollback
        invariant modality != MustIfCallerContractHolds
        invariant c == MustCommit ==> (modality == Unknown <==> true in m.partialLoops[..i])
      {
        assert m.partialLoops[..i + 1] == m.partialLoops[..i] + [m.partialLoops[i]];
        if m.partialLoops[i] {
          modality := Unknown;
        }
      }
    }
    assert m.partialLoops[..|m.partialLoops|] == m.partialLoops;
    if m.bundlePartial && modality == Must {
      modality := Unknown;
    }
    if o == SurvivalUnresolved {
      modality := Unknown;
    }
    if c == MustRollback {
      modality := MustNot;
    } else if c == ContractCommit {
      modality := MustIfCallerContractHolds;
    } else if c != MustCommit {
      modality := Unknown;
    }
  }

  // ----- end to end -----

  ghost predicate ReachesBoundary(g: Graph, policy: Policy, source: Node) {
    exists b :: FirstBoundary(g, policy, source, b)
  }

  /** A boundary is reachable and every first boundary has one of the given outcomes. */
  ghost predicate FirstBoundariesAre(g: Graph, policy: Policy, source: Node, allowed: set<PathOutcome>) {
    && ReachesBoundary(g, policy, source)
    && forall b | FirstBoundary(g, policy, source, b) :: b.outcome in allowed
  }

  ghost predicate OutcomesOf(g: Graph, policy: Policy, source: Node, outcomes: set<PathOutcome>) {
    forall o :: o in outcomes <==> exists ref :: FirstBoundary(g, policy, source, Boundary(o, ref))
  }

  /** What the three definite classifications say about the paths behind the data change. */
  lemma {:induction false} ClassificationOnPaths(g: Graph, policy: Policy, source: Node, outcomes: set<PathOutcome>)
    requires OutcomesOf(g, policy, source, outcomes)
    ensures Classify(outcomes) == MustCommit <==>
      FirstBoundariesAre(g, policy, source, {ExplicitCommit, CommitOnReturn})
    ensures Classify(outcomes) == MustRollback <==>
      FirstBoundariesAre(g, policy, source, {ExplicitRollback})
    ensures Classify(outcomes) == ContractCommit <==>
      && FirstBoundariesAre(g, policy, source, {CallerContractCommit, CallerContractRollback})
      && exists b :: FirstBoundary(g, policy, source, b) && b.outcome == CallerContractCommit
    ensures Classify(outcomes) == CallerControlled <==>
      FirstBoundariesAre(g, policy, source, {NormalExitCallerControlled})
    ensures Classify(outcomes) == MayCommitOrRollback <==>
      && FirstBoundariesAre(g, policy, source, {ExplicitCommit, CommitOnReturn, ExplicitRollback})
      && !FirstBoundariesAre(g, policy, source, {ExplicitCommit, CommitOnReturn})
      && !FirstBoundariesAre(g, policy, source, {ExplicitRollback})
    ensures Classify(outcomes) == MayCommitOrCallerControlled <==>
      && FirstBoundariesAre(g, policy, source, {ExplicitCommit, CommitOnReturn, NormalExitCallerControlled})
      && !FirstBoundariesAre(g, policy, source, {ExplicitCommit, CommitOnReturn})
      && !FirstBoundariesAre(g, policy, source, {NormalExitCallerControlled})
    ensures Classify(outcomes) == CallerControlledOrExceptional <==>
      || !ReachesBoundary(g, policy, source)
      || (&& FirstBoundariesAre(g, policy, source, {NormalExitCallerControlled, ExceptionalEscape})
          && !FirstBoundariesAre(g, policy, source, {NormalExitCallerControlled}))
    ensures Classify(outcomes) == Unresolved ==>
      FirstBoundariesAre(g, policy, source, {CommitOnReturn, CallerContractCommit, CallerContractRollback, ExceptionalEscape})
  {
    assert NoTerminalPath !in outcomes;
    DefiniteClassifications(outcomes);
    OtherClassifications(outcomes);
    OutcomesWithin(g, policy, source, outcomes, {NormalExitCallerControlled});
    OutcomesWithin(g, policy, source, outcomes, {ExplicitCommit, CommitOnReturn, ExplicitRollback});
    OutcomesWithin(g, policy, source, outcomes, {ExplicitCommit, CommitOnReturn, NormalExitCallerControlled});
    OutcomesWithin(g, policy, source, outcomes, {NormalExitCallerControlled, ExceptionalEscape});
    OutcomesWithin(g, policy, source, outcomes,
                   {CommitOnReturn, CallerContractCommit, CallerContractRollback, ExceptionalEscape});
    OutcomesWithin(g, policy, source, outcomes, {ExplicitCommit, CommitOnReturn});
    OutcomesWithin(g, policy, source, outcomes, {ExplicitRollback});
    OutcomesWithin(g, policy, source, outcomes, {CallerContractCommit, CallerContractRollback});
    if b :| FirstBoundary(g, policy, source, b) && b.outcome == CallerContractCommit {
      assert b == Boundary(CallerContractCommit, b.ref);
    }
    if CallerContractCommit in outcomes {
      var ref :| FirstBoundary(g, policy, source, Boundary(CallerContractCommit, ref));
    }
  }

  lemma {:induction false} DefiniteClassifications(outcomes: set<PathOutcome>)
    requires NoTerminalPath !in outcomes
    ensures Classify(outcomes) == MustCommit <==> outcomes != {} && outcomes <= {ExplicitCommit, CommitOnReturn}
    ensures Classify(outcomes) == MustRollback <==> outcomes != {} && outcomes <= {ExplicitRollback}
    ensures Classify(outcomes) == ContractCommit <==>
      CallerContractCommit in outcomes && outcomes <= {CallerContractCommit, CallerContractRollback}
    ensures outcomes == {} ==> Classify(outcomes) == CallerControlledOrExceptional
  {
    assert outcomes - {NoTerminalPath} == outcomes;
    if outcomes != {} && outcomes <= {ExplicitRollback} {
      var o :| o in outcomes;
      assert outcomes == {ExplicitRollback};
    }
  }

  lemma {:induction false} OtherClassifications(outcomes: set<PathOutcome>)
    requires NoTerminalPath !in outcomes
    ensures var c := Classify(outcomes);
      var commits, mixed, open := {ExplicitCommit, CommitOnReturn}, {ExplicitCommit, CommitOnReturn, ExplicitRollback},
        {ExplicitCommit, CommitOnReturn, NormalExitCallerControlled};
      && (c == CallerControlled <==> outcomes != {} && outcomes <= {NormalExitCallerControlled})
      && (c == MayCommitOrRollback <==>
            outcomes != {} && outcomes <= mixed && !(outcomes <= commits) && !(outcomes <= {ExplicitRollback}))
      && (c == MayCommitOrCallerControlled <==>
            outcomes != {} && outcomes <= open && !(outcomes <= commits) && !(outcomes <= {NormalExitCallerControlled}))
      && (c == CallerControlledOrExceptional <==>
            || outcomes == {}
            || (&& outcomes <= {NormalExitCallerControlled, ExceptionalEscape}
                && !(outcomes <= {NormalExitCallerControlled})))
      && (c == Unresolved ==>
            && outcomes != {}
            && outcomes <= {CommitOnReturn, CallerContractCommit, CallerContractRollback, ExceptionalEscape})
  {
    assert outcomes - {NoTerminalPath} == outcomes;
    assert outcomes <= {NormalExitCallerControlled} ==> outcomes == {} || outcomes == {NormalExitCallerControlled};
    assert outcomes <= {ExplicitRollback} ==> outcomes == {} || outcomes == {ExplicitRollback};
    forall o | o in outcomes ensures o != NoTerminalPath {
    }
  }

  lemma {:induction false} OutcomesWithin(g: Graph, policy: Policy, source: Node, outcomes: set<PathOutcome>,
                                          allowed: set<PathOutcome>)
    requires OutcomesOf(g, policy, source, outcomes)
    ensures outcomes != {} <==> ReachesBoundary(g, policy, source)
    ensures outcomes != {} && outcomes <= allowed <==> FirstBoundariesAre(g, policy, source, allowed)
  {
    forall b | FirstBoundary(g, policy, source, b) ensures b.outcome in outcomes {
      assert b == Boundary(b.outcome, b.ref);
    }
    forall o | o in outcomes ensures exists b :: FirstBoundary(g, policy, source, b) && b.outcome == o {
      var ref :| FirstBoundary(g, policy, source, Boundary(o, ref));
    }
  }

  /** Some path from the data change ends, and all that end do so at a COMMIT, or at the normal exit under
      COMMIT ON RETURN. */
  ghost predicate AlwaysCommits(g: Graph, policy: Policy, source: Node) {
    && (exists p :: EndingPath(g, source, p))
    && forall p | EndingPath(g, source, p) ::
         AtRole(g, p, Commit) || (AtNormalExit(g, p) && policy.commitOnReturn)
  }

  /** Some path from the data change ends, and all that end do so at a ROLLBACK. */
  ghost predicate AlwaysRollsBack(g: Graph, source: Node) {
    && (exists p :: EndingPath(g, source, p))
    && forall p | EndingPath(g, source, p) :: AtRole(g, p, Rollback)
  }

  /** The caller decides: every path that ends does so at an exit, some at the normal one, and a caller
      contract was given but no COMMIT ON RETURN. */
  ghost predicate LeftToContract(g: Graph, policy: Policy, source: Node) {
    && policy.callerContract && !policy.commitOnReturn
    && (exists p :: EndingPath(g, source, p) && AtNormalExit(g, p))
    && forall p | EndingPath(g, source, p) :: AtNormalExit(g, p) || AtExceptionalExit(g, p)
  }

  lemma {:induction false} BoundariesMean(g: Graph, policy: Policy, source: Node, allowed: set<PathOutcome>)
    ensures FirstBoundariesAre(g, policy, source, allowed) <==>
      && (exists p :: EndingPath(g, source, p))
      && forall p | EndingPath(g, source, p) :: exists o | o in allowed :: Means(g, policy, p, o)
  {
    hide FirstBoundary, EndingPath, Means;
    if FirstBoundariesAre(g, policy, source, allowed) {
      var b :| FirstBoundary(g, policy, source, b);
      var _ := BoundaryIsMet(g, policy, source, b);
      forall p | EndingPath(g, source, p) ensures exists o | o in allowed :: Means(g, policy, p, o) {
        var end := EndIsBoundary(g, policy, source, p);
        assert Means(g, policy, p, end.outcome);
      }
    }
    if p :| EndingPath(g, source, p) {
      var b := EndIsBoundary(g, policy, source, p);
    }
    if forall p | EndingPath(g, source, p) :: exists o | o in allowed :: Means(g, policy, p, o) {
      forall b | FirstBoundary(g, policy, source, b) ensures b.outcome in allowed {
        var p := BoundaryIsMet(g, policy, source, b);
        var end := EndIsBoundary(g, policy, source, p);
      }
    }
  }

  lemma {:induction false} CommitsByRole(g: Graph, policy: Policy, source: Node)
    ensures FirstBoundariesAre(g, policy, source, {ExplicitCommit, CommitOnReturn}) <==> AlwaysCommits(g, policy, source)
  {
    hide FirstBoundariesAre, EndingPath, AtRole, AtNormalExit, AtExceptionalExit;
    BoundariesMean(g, policy, source, {ExplicitCommit, CommitOnReturn});
    assert forall p :: (exists o | o in {ExplicitCommit, CommitOnReturn} :: Means(g, policy, p, o)) <==>
      Means(g, policy, p, ExplicitCommit) || Means(g, policy, p, CommitOnReturn);
  }

  lemma {:induction false} RollsBackByRole(g: Graph, policy: Policy, source: Node)
    ensures FirstBoundariesAre(g, policy, source, {ExplicitRollback}) <==> AlwaysRollsBack(g, source)
  {
    hide FirstBoundariesAre, EndingPath, AtRole, AtNormalExit, AtExceptionalExit;
    BoundariesMean(g, policy, source, {ExplicitRollback});
    assert forall p :: (exists o | o in {ExplicitRollback} :: Means(g, policy, p, o)) <==> Means(g, policy, p, ExplicitRollback);
  }

  lemma {:induction false} ContractByExits(g: Graph, policy: Policy, source: Node)
    ensures
      && FirstBoundariesAre(g, policy, source, {CallerContractCommit, CallerContractRollback})
      && (exists b :: FirstBoundary(g, policy, source, b) && b.outcome == CallerContractCommit)
      <==> LeftToContract(g, policy, source)
  {
    hide FirstBoundariesAre, FirstBoundary, EndingPath, AtRole, AtNormalExit, AtExceptionalExit;
    var allowed := {CallerContractCommit, CallerContractRollback};
    BoundariesMean(g, policy, source, allowed);
    assert forall p :: (exists o | o in allowed :: Means(g, policy, p, o)) <==>
      Means(g, policy, p, CallerContractCommit) || Means(g, policy, p, CallerContractRollback);
    if b :| FirstBoundary(g, policy, source, b) && b.outcome == CallerContractCommit {
      var _ := BoundaryIsMet(g, policy, source, b);
    }
    if p :| EndingPath(g, source, p) && Means(g, policy, p, CallerContractCommit) {
      var b := EndIsBoundary(g, policy, source, p);
      assert FirstBoundary(g, policy, source, b) && b.outcome == CallerContractCommit;
    }
  }

  /** The whole chain for one data change.  A change that has no graph node has no first boundary. */
  method ObligationFor(g: Graph, policy: Policy, source: Option<Node>, m: Member) returns (modality: Modality)
    requires WellFormed(g) && (source != None ==> source.value in g.nodes)
    ensures modality == MustNot <==>
      source != None && AlwaysRollsBack(g, source.value)
    ensures modality == Must <==>
      && source != None && AlwaysCommits(g, policy, source.value)
      && (m.isPrimary || (!(m.isDml && m.isAuditTarget) && m.isRequired))
      && (m.partialLoops == [] || m.iterationScope)
      && !m.bundlePartial
    ensures modality == MustIfCallerContractHolds <==>
      source != None && LeftToContract(g, policy, source.value)
    ensures modality == Unknown <==>
      || source == None
      || !(|| AlwaysCommits(g, policy, source.value) || AlwaysRollsBack(g, source.value)
           || LeftToContract(g, policy, source.value))
      || (&& AlwaysCommits(g, policy, source.value)
          && (|| (m.partialLoops != [] && !m.iterationScope && true in m.partialLoops)
              || (&& (m.isPrimary || (!(m.isDml && m.isAuditTarget) && m.isRequired))
                  && (m.partialLoops == [] || m.iterationScope) && m.bundlePartial)))
    ensures modality == May <==>
      && source != None && AlwaysCommits(g, policy, source.value)
      && (|| (m.partialLoops != [] && !m.iterationScope && true !in m.partialLoops)
          || (&& (m.partialLoops == [] || m.iterationScope)
              && !m.isPrimary && ((m.isDml && m.isAuditTarget) || !m.isRequired)))
  {
    if source != None {
      CommitsByRole(g, policy, source.value);
      RollsBackByRole(g, policy, source.value);
      ContractByExits(g, policy, source.value);
    }
    var outcomes := {NoTerminalPath};
    if source != None {
      var found, _ := FirstBoundaries(g, policy, source.value);
      ClassificationOnPaths(g, policy, source.value, found);
      if found != {} {
        outcomes := found;
      }
    }
    modality := Oblige(m, Classify(outcomes));
  }
}
