# Verified model of the stored-procedure analyser

The repository reads SQL PL procedures and derives facts about them: a control-flow graph, which
definitions reach which uses, how a data change ends up committed or rolled back, which branch
conditions contradict each other, what text a dynamic statement can have, and where the parts of a
flat script begin and end.  This project models that engine in Dafny and proves what those facts
mean.

`dafny verify dfyconfig.toml` checks everything.

| file | models |
|---|---|
| `ProcedureTree.dfy`, `Cfg.dfy`, `RepeatLoops.dfy` | structured programs, their runs, and the compiler to control-flow graphs |
| `Dataflow.dfy`, `OutEffects.dfy` | the edge-sensitive reaching-definition solver and the labels of OUT assignments |
| `Transaction.dfy`, `Modality.dfy` | the first-boundary search, transaction classes and obligations |
| `Predicates.dfy`, `Contradiction.dfy` | the predicate graph, its expansion and the contradiction theory |
| `BooleanParser.dfy`, `ConditionOperands.dfy`, `WrittenConditions.dfy` | the condition parser, and what it makes of conditions as they are written |
| `ReachingDefinitions.dfy` | the node-based solver |
| `DynamicSql.dfy`, `VariantSources.dfy`, `DynamicSqlPaths.dfy`, `UntrackedBindings.dfy` | dynamic SQL reconstruction and the definitions that variants name, over a definition map, over the paths of the graph, and against bindings that are not tracked |
| `Slicing.dfy`, `SlicingPaths.dfy`, `ParameterSources.dfy` | backward slices, over a definition map and over the paths of the graph, and the parameters they name |
| `RegionTracker.dfy`, `ControlFlow.dfy`, `RefinedEdges.dfy` | recovery of nesting and of control flow from flat streams, and the refined edges by position |
| `BlockMatcher.dfy`, `MatchedBodies.dfy`, `MatchedPieces.dfy` | recovery of procedure ends from flat streams |
| `CommentMask.dfy`, `Lexer.dfy`, `Literals.dfy` | comment masking in place and the lexical scanner |

## How the model is cut

- Ids that the program derives by hashing are injective names here: values stand for their own names.
- Text that the program recognises by regular expressions arrives classified (statement kinds,
  condition atoms, tokens).  `Lexer`, `CommentMask`, `BlockMatcher` and `BooleanParser` work on
  characters and tokens themselves.  Character classes are a parameter of the lexer.
- Objects with mutable fields are classes; worklists, scans and accumulating loops are methods whose
  contracts tie them to a specification, and the laws are lemmas about that specification.
- Dictionaries from symbols to sets of definitions are maps in `Dataflow`; in `ReachingDefinitions`
  they are sets of (symbol, definition) pairs.  One solver there stands for both node-based solvers of
  the program: variables and prepared statements are two families of symbols.  Nothing may lead back
  to the entry, which holds for every compiled graph, handlers included (`EntryIsNoTarget`).
- Every lemma switches automatic induction off, so that what is proved is what its body proves.
- Numbers in comparisons are reals; conditions are two-valued over normalised atom text, as in the code.

## Where the code is not what one might expect

Each of these is a lemma, with the exact condition where there is one.

- A branch `X >= 1, X <= 1, X <> 1` is not reported as contradictory (`PinnedExclusionIsMissed`), nor is
  the negation of `X >= 1` beside `X >= 2` (`NegatedComparisonIsMissed`); apart from such pinned points
  and negated comparisons the report is exact (`FindContradiction`).
- A parenthesis at the front of an atom is taken for a Boolean group.  One operand such as
  `(B + C) > 3`, anywhere in a condition, turns the whole condition into a single atom: `RoundTrip` says
  that a formula is parsed right iff it is a single atom or none of its atoms opens with a parenthesis.
  When none does, parentheses may stand wherever one likes (`WrittenIsParsed`).  One that never closes is
  read as a group all the same if an AND or OR follows (`UnclosedGroupIsParsed`).
- The branch budget is spent prefix by prefix: a conjunction whose first operands multiply to more than 32
  is over budget even if a later operand has no branch at all (`BranchesExist`).
- A data change after which no boundary is reachable is classified CALLER_CONTROLLED_OR_EXCEPTIONAL
  (`ClassificationOnPaths`); its modality is UNKNOWN.
- A uniquely reaching OUT assignment may still be skipped on some path (`OnlyDefinitionMayBeSkipped`,
  `CertainIffNotSkipped`).
- A slice does not follow a definition's use of its own symbol, so a COMPLETE slice can miss influences
  (`IncrementIsMissed`); it holds them all iff such uses are covered (`SliceHoldsAllInfluences`), and in
  particular when no definition reads the symbol it defines (`SliceIsInfluences`).
- An inline handler directly in front of a BEGIN is taken for the owner of that block
  (`TreeIsRecovered` says exactly when parents are right).
- The block matcher follows keywords by a stack.  `BodyRuns` says what every piece of a body does to it, and
  `MatcherFindsEnd` exactly when the END of the body is found.
- It recognises FOR loops only by AS and CURSOR among the next nine tokens.  The END FOR of an
  unrecognised loop closes whatever FOR frame is open (`ForIsLeftIff`), so a plain FOR in a block inside a
  CURSOR loop ends the procedure early (`NestedForsEndEarly`).  When keywords are otherwise read as what
  they are, the END is found iff no END reaches below the BEGIN of its own block (`TidyBodyIsFound`),
  in particular when all FOR loops are recognised or none is (`UniformBodyIsFound`).
- A CASE statement behind anything but `;`, `:`, BEGIN, THEN, ELSE or DO is taken for an expression
  (`CaseIsLeftIffRecognised`), and a closer such as FOR behind a CASE expression keeps it open
  (`ExpressionIsLeftIffNoCloserFollows`).  Inside a recognised compound, as in LOOP CASE, neither does any
  harm (`CaseInLoopDoesNoHarm`); outside every recognised compound, as in BEGIN ATOMIC CASE, each hides the
  END (`UnrecognisedCaseHidesEnd`, `ForBehindExpressionHidesEnd`).  `CalmBodyIsFound` is that iff.
- An opening keyword inside a CASE expression, such as the REPEAT function, also ends the procedure early
  (`StrayInExpressionEndsEarly`, `ExpressionIsLeftIffNoStray`).  Any word behind the last END is taken for
  its label, also the CREATE of the next procedure.
- The graph tests REPEAT at its header, so it has paths that skip the body (`RepeatMayBeSkipped`).
  `PathsAreExecutions` says which paths those are: the ones that leave a REPEAT header on its first visit.
- Dynamic SQL reconstruction tracks assignments, declaration defaults and PREPARE only.  After SET V = 'A' and
  SELECT ... INTO V or FETCH, EXECUTE IMMEDIATE V is reported as reconstructed with the old text
  (`SelectIntoIsMissed`).  A verdict is right iff no binding whose text is not known can be last on a path for
  a name that is followed (`ReconstructWhole`).  A tracked definition without any operand counts as one
  whose text is not known; it is dropped silently (`UnknownDefinitionIsDropped`).
- A slice names a parameter as a source only where no definition reaches the use, so an IN parameter that
  is assigned on one branch is missing from a COMPLETE slice (`AssignedParameterIsMissed`,
  `OwedAreNamedIff`).
- Normalised condition atoms are in upper case, string literals included: `X = 'a' AND X <> 'A'` is reported
  as contradictory (`LiteralsLoseTheirCase`).
- A loop control statement directly in front of an exception section gets a fall-through edge to the END
  of that section (`LeaveFallsThrough`); `LoopControlLeads` says exactly which edges leave it.
- Masking leaves the last character of a block comment that never closes, and `/*/` counts as closed
  (`MaskBlanksComments`); masking is idempotent all the same.


## Model

| member | source | states |
|---|---|---|
| `RepeatLoops.PathsAreExecutions` | src/ojas_reconciler/db2_behavior/analysis/cfg.py:96-203 | for every handler-free body with distinct node ids, a path from the entry to an exit is the trace of an execution, in which a REPEAT loop runs its body before it tests, iff the path never leaves the header of a REPEAT loop on its first visit; every execution is such a path |
| `RepeatLoops.ExecutesIff` | src/ojas_reconciler/db2_behavior/analysis/cfg.py:169-192 | the executions of a statement are its runs with header-tested loops in which no REPEAT header is left on its first visit |
| `RepeatLoops.RepeatMayBeSkipped` | src/ojas_reconciler/db2_behavior/analysis/cfg.py:184-191 | the graph of a REPEAT loop has a path that skips its body, which no execution takes |
| `Cfg.PathsAreRuns` | src/ojas_reconciler/db2_behavior/analysis/cfg.py:96-203 | for every handler-free body with distinct node ids, a node sequence is a path from the entry to an exit iff it is the trace of a run of the structured semantics that tests REPEAT, like the compiler, at its header, ending at the exit of that run |
| `Cfg.RunIsPath` | src/ojas_reconciler/db2_behavior/analysis/cfg.py:107-203 | every run of a statement, with any outcome, is a path through the edges built for it to the place where that outcome leads |
| `Cfg.PathIsRun` | src/ojas_reconciler/db2_behavior/analysis/cfg.py:107-203 | every path that enters a statement and gets to an exit starts with a run of that statement and stands where its outcome leads |
| `Cfg.CompoundTarget` | src/ojas_reconciler/db2_behavior/analysis/cfg.py:353-377 | a jump out of a compound goes to the innermost matching context: what the compound stops lands at its continuation, everything else where the outer contexts send it |
| `Cfg.LoopTarget` | src/ojas_reconciler/db2_behavior/analysis/cfg.py:353-377 | the same for loops: LEAVE lands behind the loop, ITERATE at its header, other outcomes where the outer contexts send them |
| `Cfg.ControlFlowGraphBuilder.Build` | src/ojas_reconciler/db2_behavior/analysis/cfg.py:58-94 | the finished graph has exactly the nodes and edges of the body, and its entry-to-exit paths are exactly the runs of the body |
| `Cfg.ControlFlowGraphBuilder.BuildSequence` | src/ojas_reconciler/db2_behavior/analysis/cfg.py:96-105 | building a list backwards from its continuation adds exactly the edges, nodes and exclusions of the list and returns its entry |
| `Cfg.ControlFlowGraphBuilder.BuildNode` | src/ojas_reconciler/db2_behavior/analysis/cfg.py:107-203 | building one statement adds exactly its edges, nodes and exclusions and returns its entry |
| `Cfg.ControlFlowGraphBuilder.BuildArm` | src/ojas_reconciler/db2_behavior/analysis/cfg.py:136-153 | an arm gets its choice edge iff a run can take it, and the ladder counts as always taken iff no run can fall through the arms so far |
| `Cfg.ControlFlowGraphBuilder.BuildArms` | src/ojas_reconciler/db2_behavior/analysis/cfg.py:133-156 | literal pruning drops the choice of exactly the arms no run can take, and the no-match edge exactly when some arm is always taken |
| `ProcedureTree.ComparesAsOrdered` | src/ojas_reconciler/db2_behavior/analysis/cfg.py:390-420 | each of the six operators on two literals of one type, numbers by value and texts as in a dictionary |
| `ProcedureTree.TextLessIsDictionary` | src/ojas_reconciler/db2_behavior/analysis/cfg.py:390-420 | a text is less iff at the first difference it has the smaller character, or it is a proper prefix |
| `Cfg.ControlFlowGraphBuilder.AddEdge` | src/ojas_reconciler/db2_behavior/analysis/cfg.py:447-479 | an edge is named by its parts: adding it again changes nothing |
| `Cfg.EntryIsNoTarget` | src/ojas_reconciler/db2_behavior/analysis/cfg.py:96-280 | no edge of a compiled procedure, handler subgraphs and handler edges included, leads to the entry, as the node-based solvers rely on |
| `Dataflow.Solve` | src/ojas_reconciler/db2_behavior/analysis/dataflow.py:114-145 | terminates on every finite graph; a definition is in the state of a node iff it is the last one of its symbol along some path from the entry |
| `Dataflow.TransferForEdge` | src/ojas_reconciler/db2_behavior/analysis/dataflow.py:158-178 | along an edge exactly the definitions that take effect there replace older ones; a handler edge out of a fallible binding neither generates nor kills |
| `Dataflow.MergePredecessorStates` | src/ojas_reconciler/db2_behavior/analysis/dataflow.py:147-156 | the merged state holds exactly what arrives on some incoming edge |
| `Dataflow.Complete` | src/ojas_reconciler/db2_behavior/analysis/dataflow.py:114-145 | a solution with nothing left to propagate carries the last definition of every path |
| `Dataflow.RoundDecreases` | src/ojas_reconciler/db2_behavior/analysis/dataflow.py:125-145 | each round records something new or shortens the queue |
| `Dataflow.Propagate` | src/ojas_reconciler/db2_behavior/analysis/dataflow.py:132-144 | serving all edges out of a node leaves only queued nodes unsettled |
| `OutEffects.LabelOutAssignments` | src/ojas_reconciler/db2_behavior/analysis/effects.py:60-97 | every definition of an OUT parameter is labelled ESCAPING iff it survives some path to the normal exit, INTERMEDIATE iff only to the exceptional exit, OVERWRITTEN iff to neither |
| `OutEffects.ReachesIsSurvival` | src/ojas_reconciler/db2_behavior/analysis/dataflow.py:43-55 | reaching a node is the same as running through the definition with no later effective redefinition |
| `OutEffects.InheritOutEffects` | src/ojas_reconciler/db2_behavior/analysis/bundles.py:252-313 | only under an IF arm and for a primary OUT assignment named for a decision, status or result, an OUT effect is inherited iff it is admitted, escaping, its target is not already in the bundle, and it is the only definition of the target that can be last before the primary effect |
| `OutEffects.InheritOne` | src/ojas_reconciler/db2_behavior/analysis/bundles.py:299-312 | per target, the inherited effect is exactly the admitted one with that property, or none |
| `OutEffects.OnlyDefinitionMayBeSkipped` | src/ojas_reconciler/db2_behavior/analysis/bundles.py:299-312 | a graph in which an inherited assignment is skipped on one path: uniqueness does not make it certain |
| `OutEffects.CertainIffNotSkipped` | src/ojas_reconciler/db2_behavior/analysis/bundles.py:299-312 | the inherited value is certain iff no path to the primary effect avoids every definition of the target |
| `Transaction.FirstBoundaries` | src/ojas_reconciler/db2_behavior/analysis/transaction.py:146-213 | the search terminates and returns exactly the first boundaries over all paths from the data change, its own handler edge aside |
| `Transaction.PushSuccessors` | src/ojas_reconciler/db2_behavior/analysis/transaction.py:203-211 | the stack grows by exactly the successors that may be followed |
| `Transaction.FollowedToTheEnd` | src/ojas_reconciler/db2_behavior/analysis/transaction.py:166-213 | once everything seen is handled, every boundary-free path has been followed to its end |
| `Modality.ClassificationOnPaths` | src/ojas_reconciler/db2_behavior/analysis/transaction.py:220-263 | each of the nine classes by the first boundaries over all paths: MUST_COMMIT, MUST_ROLLBACK and the contract class hold iff a boundary is reachable and every first boundary has the matching outcomes; with no boundary the class is CALLER_CONTROLLED_OR_EXCEPTIONAL |
| `Transaction.BoundaryIsMet` | src/ojas_reconciler/db2_behavior/analysis/transaction.py:166-213 | a first boundary is what some path meets first: a statement in the role of a commit or rollback, or an exit with what the policy says of it |
| `Modality.CommitsByRole` | src/ojas_reconciler/db2_behavior/analysis/transaction.py:220-263 | every first boundary is a commit iff every path from the change that ends, ends at a COMMIT or at a normal exit that commits on return, and one does |
| `Modality.RollsBackByRole` | src/ojas_reconciler/db2_behavior/analysis/transaction.py:220-263 | every first boundary is a rollback iff every path that ends, ends at a ROLLBACK, and one does |
| `Modality.ContractByExits` | src/ojas_reconciler/db2_behavior/analysis/transaction.py:220-263 | the contract class holds iff every path that ends, ends at an exit that the caller contract covers, and one at an exit after which the caller commits |
| `Modality.Oblige` | src/ojas_reconciler/db2_behavior/analysis/modalities.py:39-110 | exactly when a data change gets MUST, MUST_NOT, MUST_IF_CALLER_CONTRACT_HOLDS, UNKNOWN or MAY: UNKNOWN iff its class is none of the three definite ones, or it is MUST_COMMIT and a loop around it or its bundle is partial where that counts; MAY for what is left of MUST_COMMIT |
| `Modality.ObligationFor` | src/ojas_reconciler/db2_behavior/analysis/bundles.py:87-104 | end to end, for each of the five modalities, by the roles of the statements and the exits that paths from the data change meet first, the bundle and the loops around it |
| `Predicates.CombineHolds` | src/ojas_reconciler/db2_behavior/analysis/predicates.py:123-133 | flattening keeps the truth of the conjunction or disjunction under every valuation |
| `Predicates.StoreAllIsConsed` | src/ojas_reconciler/db2_behavior/analysis/predicates.py:266-304 | hash-consing stores exactly the subterms, each under its own name |
| `Predicates.GraphBuilder.Add` | src/ojas_reconciler/db2_behavior/analysis/predicates.py:275-300 | the table after adding is the table with the expression and everything below it stored |
| `Predicates.BranchesAreEquivalent` | src/ojas_reconciler/db2_behavior/analysis/predicates.py:393-432 | within the 32-branch budget the possibly negated formula is true iff all literals of some branch are true, for every valuation of normalised atoms |
| `Predicates.BranchesExist` | src/ojas_reconciler/db2_behavior/analysis/predicates.py:393-432 | the expansion is over budget iff, counted over the formula alone (a sum for a disjunction under its polarity, a product taken prefix by prefix for a conjunction), some sum or prefix product exceeds 32; otherwise it has exactly as many branches as the count says |
| `Predicates.ArmPredicateIsFirst` | src/ojas_reconciler/db2_behavior/analysis/predicates.py:227-249 | the predicate of an arm holds iff the arm is the first whose condition is true |
| `Predicates.LadderPartitions` | src/ojas_reconciler/db2_behavior/analysis/predicates.py:227-249 | arm predicates are pairwise disjoint, one holds iff some condition holds, and with ELSE exactly one holds |
| `Contradiction.FindContradiction` | src/ojas_reconciler/db2_behavior/analysis/predicates.py:477-576 | nothing is reported iff no atom has both polarities and the literals that the theory reads are jointly satisfiable |
| `Contradiction.CheckRecords` | src/ojas_reconciler/db2_behavior/analysis/predicates.py:544-576 | the final checks pass iff every record passes |
| `Contradiction.ReadIsFaithful` | src/ojas_reconciler/db2_behavior/analysis/predicates.py:484-542 | the per-symbol records hold exactly what the literals read so far require |
| `Contradiction.ReadContradicts` | src/ojas_reconciler/db2_behavior/analysis/predicates.py:487-542 | a contradiction found while reading makes the branch unsatisfiable |
| `Contradiction.CheckNumberIsExact` | src/ojas_reconciler/db2_behavior/analysis/predicates.py:547-570 | a numeric record passes iff some number fits its equality, exclusions and bounds, pinned points aside |
| `Contradiction.ReportIsRight` | src/ojas_reconciler/db2_behavior/analysis/predicates.py:477-576 | a reported branch has no satisfying world |
| `Contradiction.ReportIsComplete` | src/ojas_reconciler/db2_behavior/analysis/predicates.py:503-570 | on branches without negated comparisons and without a pinned excluded point the check decides satisfiability |
| `Contradiction.PinnedExclusionIsMissed` | src/ojas_reconciler/db2_behavior/analysis/predicates.py:547-570 | X >= 1, X <= 1, X <> 1 is unsatisfiable and not reported |
| `Contradiction.NegatedComparisonIsMissed` | src/ojas_reconciler/db2_behavior/analysis/predicates.py:503-537 | the negation of X >= 1 beside X >= 2 is unsatisfiable and not reported |
| `Contradiction.LiteralsLoseTheirCase` | src/ojas_reconciler/db2_behavior/analysis/predicates.py:409-570 | X = y AND X <> z is reported iff the literals differ at most in case, and contradictory iff they are the same |
| `Contradiction.Assess` | src/ojas_reconciler/db2_behavior/analysis/predicates.py:350-391 | BUDGET_EXCEEDED iff the branch count of the formula exceeds 32 on the way; OBVIOUS_CONTRADICTION implies that no world satisfies the predicate graph, through hash-consing, expansion and the branch checks; otherwise as many branches survive as pass |
| `BooleanParser.RoundTrip` | src/ojas_reconciler/db2_behavior/analysis/predicates.py:44-133 | for every AND/OR/NOT formula over atoms with balanced parentheses and absorbed BETWEEN, parsing the parenthesised rendering yields the flattened formula iff it is a single atom or none of its atoms opens with a parenthesis; otherwise the whole rendering becomes one atom |
| `WrittenConditions.WrittenIsParsed` | src/ojas_reconciler/db2_behavior/analysis/predicates.py:44-133 | every condition written with NOT, AND, OR, operands that do not open with a parenthesis, missing operands, and parentheses anywhere, needed or not, is parsed as precedence reads it |
| `WrittenConditions.PlainRoundTrip` | src/ojas_reconciler/db2_behavior/analysis/predicates.py:44-133 | a formula written with parentheses only around a disjunction in a conjunction and around either under NOT is parsed as the flattened formula |
| `WrittenConditions.CombineFlattens` | src/ojas_reconciler/db2_behavior/analysis/predicates.py:123-133 | combining lines up, in order, the operands of what is of its own kind and everything else, and nests nothing |
| `WrittenConditions.MissingParses` | src/ojas_reconciler/db2_behavior/analysis/predicates.py:79-102 | where no operand stands, UNKNOWN is read and nothing is consumed |
| `WrittenConditions.UnclosedGroupIsParsed` | src/ojas_reconciler/db2_behavior/analysis/predicates.py:67-115 | an opening parenthesis that never closes is read as a group all the same when an AND or OR follows |
| `WrittenConditions.UnclosedOperandIsOne` | src/ojas_reconciler/db2_behavior/analysis/predicates.py:67-115 | without an AND or OR behind it everything is one operand |
| `BooleanParser.OrStops` | src/ojas_reconciler/db2_behavior/analysis/predicates.py:53-102 | on balanced tokens the parser stops behind them, or inside them at a token that no level goes on from |
| `BooleanParser.OpenFormulaSticks` | src/ojas_reconciler/db2_behavior/analysis/predicates.py:67-115 | an atom that opens with a parenthesis, anywhere in a formula, leaves tokens over at the top |
| `BooleanParser.TrailingOperandIsSwallowed` | src/ojas_reconciler/db2_behavior/analysis/predicates.py:44-115 | an unparenthesised conjunction whose last operand opens with a parenthesis becomes one atom |
| `BooleanParser.ParseIsWellFormed` | src/ojas_reconciler/db2_behavior/analysis/predicates.py:44-102 | on every token list the parser terminates with a well-formed expression |
| `BooleanParser.LeadingGroupIsOneAtom` | src/ojas_reconciler/db2_behavior/analysis/predicates.py:67-115 | a leading group followed by anything but AND or OR makes the whole input one atom |
| `BooleanParser.ClosedGroup` | src/ojas_reconciler/db2_behavior/analysis/predicates.py:104-115 | any balanced parenthesis is taken for a Boolean group |
| `BooleanParser.AtomEnd` | src/ojas_reconciler/db2_behavior/analysis/predicates.py:79-102 | the atom loop stops at the first AND or OR outside parentheses that no BETWEEN claims |
| `ConditionOperands.OperandEndsFirst` | src/ojas_reconciler/db2_behavior/analysis/predicates.py:79-102 | an operand ends in front of the first closing parenthesis too many, OR outside parentheses, or AND outside parentheses for which no BETWEEN waits |
| `ConditionOperands.AtomIs` | src/ojas_reconciler/db2_behavior/analysis/predicates.py:79-102 | the atoms of the laws, by position: nothing ends them, as many parentheses close as open, every BETWEEN has its AND, and they are more than a parenthesised text |
| `ConditionOperands.GroupIs` | src/ojas_reconciler/db2_behavior/analysis/predicates.py:104-115 | a parenthesis is read as a group iff it closes, or an AND or OR stands directly inside it |
| `BooleanParser.Parser.Run` | src/ojas_reconciler/db2_behavior/analysis/predicates.py:44-51 | the parser object returns the parse of its tokens, or one atom when something is left; what the parse is, WrittenIsParsed says |
| `BooleanParser.Parser.OrLevel` | src/ojas_reconciler/db2_behavior/analysis/predicates.py:53-58 | consumes a disjunction and leaves the rest |
| `BooleanParser.Parser.AndLevel` | src/ojas_reconciler/db2_behavior/analysis/predicates.py:60-65 | consumes a conjunction and leaves the rest |
| `BooleanParser.Parser.NotLevel` | src/ojas_reconciler/db2_behavior/analysis/predicates.py:67-77 | consumes a negation, a group or an atom and leaves the rest |
| `BooleanParser.Parser.AtomLevel` | src/ojas_reconciler/db2_behavior/analysis/predicates.py:79-102 | consumes one atom and leaves the rest |
| `DynamicSql.Reconstruct` | src/ojas_reconciler/db2_behavior/analysis/dynamic_sql.py:356-402 | a site reported as reconstructed or enumerable has, trimmed, exactly the strings obtainable through its reaching definitions that have an operand as its variants; BUDGET_EXCEEDED, UNRESOLVED, STATIC, PARTIALLY_RECONSTRUCTED and reconstructed each iff what their variants say |
| `DynamicSql.ReconstructedIsExact` | src/ojas_reconciler/db2_behavior/analysis/dynamic_sql.py:249-402 | the same as a law of the evaluation functions: depth, cycle and budget limits drop nothing silently |
| `DynamicSql.ExpressionIsExact` | src/ojas_reconciler/db2_behavior/analysis/dynamic_sql.py:274-309 | if nothing was exceeded and no placeholder remains, the values of an expression are exactly its obtainable strings |
| `DynamicSql.AtomIsExact` | src/ojas_reconciler/db2_behavior/analysis/dynamic_sql.py:311-354 | the same for one operand, through every reaching definition |
| `DynamicSql.DedupeKeys` | src/ojas_reconciler/db2_behavior/analysis/dynamic_sql.py:756-769 | merging equal values keeps every text and placeholder set |
| `DynamicSql.EvaluateExpression` | src/ojas_reconciler/db2_behavior/analysis/dynamic_sql.py:274-309 | the loops compute the recursive evaluation |
| `DynamicSql.EvaluateAtom` | src/ojas_reconciler/db2_behavior/analysis/dynamic_sql.py:311-354 | the loop over definitions computes the recursive evaluation |
| `DynamicSql.EvaluateSite` | src/ojas_reconciler/db2_behavior/analysis/dynamic_sql.py:249-272 | the values of an execute site come from its expression or from every reaching PREPARE |
| `DynamicSql.DedupeValues` | src/ojas_reconciler/db2_behavior/analysis/dynamic_sql.py:756-769 | the accumulating loop merges equal values |
| `DynamicSql.Combinations` | src/ojas_reconciler/db2_behavior/analysis/dynamic_sql.py:296-309 | enumerates the combinations in order, stops when the budget is used up, and says whether some were left |
| `DynamicSql.UnknownDefinitionIsDropped` | src/ojas_reconciler/db2_behavior/analysis/dynamic_sql.py:286-354 | a definition without an expression, or with one without any operand, is dropped without a trace |
| `DynamicSql.LostNameIsPlaceholder` | src/ojas_reconciler/db2_behavior/analysis/dynamic_sql.py:311-354 | a name that leads back to itself, or to no known definition, becomes its placeholder and exceeds nothing |
| `VariantSources.VariantsAre` | src/ojas_reconciler/db2_behavior/analysis/dynamic_sql.py:249-402 | when nothing was exceeded and no placeholder remains, the variants are the obtainable strings, trimmed, each naming exactly the definitions through which it can be obtained |
| `VariantSources.ExpressionNames` | src/ojas_reconciler/db2_behavior/analysis/dynamic_sql.py:274-354 | a value names a definition iff its text is obtained through it |
| `DynamicSql.DedupeKeepsApart` | src/ojas_reconciler/db2_behavior/analysis/dynamic_sql.py:756-769 | merging leaves no two values with the same text and placeholders |
| `UntrackedBindings.ReconstructWhole` | src/ojas_reconciler/db2_behavior/analysis/dynamic_sql.py:184-402 | a statement reported as reconstructed has as its variants exactly the strings that it can really execute, iff no binding whose text is not known (SELECT INTO, FETCH, OUT arguments, parameters) can be last on a path for a name that it leads to; otherwise some string is missing |
| `UntrackedBindings.NoGapIsExact` | src/ojas_reconciler/db2_behavior/analysis/dynamic_sql.py:184-402 | without such a binding the tracked definitions yield exactly the strings there really are |
| `UntrackedBindings.ExecutionGapIsOpen` | src/ojas_reconciler/db2_behavior/analysis/dynamic_sql.py:184-402 | through such a binding any text can get into what is executed, although the analyser has evaluated every name |
| `UntrackedBindings.SelectIntoIsMissed` | src/ojas_reconciler/db2_behavior/analysis/dynamic_sql.py:196-222 | SELECT INTO V between SET V and EXECUTE IMMEDIATE V: only the old text is obtainable for the analyser, any text really |
| `DynamicSqlPaths.ReconstructOnPaths` | src/ojas_reconciler/db2_behavior/analysis/dynamic_sql.py:184-402 | from the graph to the verdict: a statement reported as reconstructed has exactly the strings obtainable by resolving each variable through the last tracked definitions (assignments, declaration defaults, PREPARE) along paths of the graph; conversely a statement that leads only to names with known definitions, at most 11 deep and with at most 10 combinations each, is reconstructed iff every obtainable string, trimmed, has a known kind |
| `DynamicSqlPaths.FollowableIsDone` | src/ojas_reconciler/db2_behavior/analysis/dynamic_sql.py:274-354 | an expression whose names all have reaching definitions, all of them known and without opaque operands, in chains shorter than 12 and with no more than 10 combinations, is evaluated without exceeding anything and without a placeholder |
| `DynamicSqlPaths.ExecutionIsDone` | src/ojas_reconciler/db2_behavior/analysis/dynamic_sql.py:249-272 | the same for an execute site |
| `DynamicSqlPaths.ManyCombinationsExceed` | src/ojas_reconciler/db2_behavior/analysis/dynamic_sql.py:296-309 | such an expression with more than 10 combinations of strings exceeds the budget |
| `DynamicSqlPaths.DeepIsPlaceholder` | src/ojas_reconciler/db2_behavior/analysis/dynamic_sql.py:274-285 | at depth 12 only a placeholder is left |
| `DynamicSqlPaths.BuildFlow` | src/ojas_reconciler/db2_behavior/analysis/dynamic_sql.py:184-247 | the definition map holds exactly the last definitions along the paths of the graph |
| `DynamicSqlPaths.ResolvesOnPaths` | src/ojas_reconciler/db2_behavior/analysis/dynamic_sql.py:274-354 | resolving through the map is resolving through the paths |
| `ReachingDefinitions.Solve` | src/ojas_reconciler/db2_behavior/analysis/slicing.py:335-379 | terminates on every finite graph; a node has a state iff it is reachable, and the state holds exactly the definitions that are last, or still initial, along some path |
| `ReachingDefinitions.AtTheEnd` | src/ojas_reconciler/db2_behavior/analysis/dynamic_sql.py:184-247 | when nothing waits, the states are exact for the path semantics |
| `ReachingDefinitions.Complete` | src/ojas_reconciler/db2_behavior/analysis/slicing.py:353-379 | a settled worklist holds everything that any path carries |
| `ReachingDefinitions.SendTo` | src/ojas_reconciler/db2_behavior/analysis/slicing.py:369-378 | delivering to all successors restores the invariant |
| `ReachingDefinitions.MergePredecessors` | src/ojas_reconciler/db2_behavior/analysis/slicing.py:370-373 | the merged state is the union of what the predecessors sent |
| `ReachingDefinitions.Progress` | src/ojas_reconciler/db2_behavior/analysis/slicing.py:361-368 | a changed outgoing state brings the solver nearer to its end |
| `Slicing.ReachingMap` | src/ojas_reconciler/db2_behavior/analysis/slicing.py:335-386 | every use is mapped to exactly the non-parameter definitions that are last before it on some path |
| `Slicing.DefinitionsReaching` | src/ojas_reconciler/db2_behavior/analysis/slicing.py:381-386 | looking up one use returns exactly those definitions |
| `Slicing.FollowUses` | src/ojas_reconciler/db2_behavior/analysis/slicing.py:168-225 | the worklist terminates and visits exactly the least set of uses closed under reaching definitions and their other symbols |
| `Slicing.SliceIsLeast` | src/ojas_reconciler/db2_behavior/analysis/slicing.py:168-225 | every closed set that holds the roots holds the slice |
| `Slicing.Visit` | src/ojas_reconciler/db2_behavior/analysis/slicing.py:168-225 | one use contributes exactly its entries and leads to exactly its successors |
| `Slicing.SliceBundle` | src/ojas_reconciler/db2_behavior/analysis/slicing.py:121-262 | visits exactly the slice, collects exactly what it calls for, and is COMPLETE iff nothing collected shows a gap and bundle and predicate are sound |
| `Slicing.CompleteMeans` | src/ojas_reconciler/db2_behavior/analysis/slicing.py:249-262 | COMPLETE iff every use ends in a parameter, a default or fully summarised definitions, every local binding is complete, and no condition, bundle or predicate is partial |
| `Slicing.SliceHoldsAllInfluences` | src/ojas_reconciler/db2_behavior/analysis/slicing.py:223-225 | the slice holds every influence iff each definition that reads its own symbol is also visited on another account |
| `Slicing.IncrementIsMissed` | src/ojas_reconciler/db2_behavior/analysis/slicing.py:223-225 | SET x = p; SET x = x + 1; INSERT x has a complete slice that misses p |
| `Slicing.SliceIsInfluences` | src/ojas_reconciler/db2_behavior/analysis/slicing.py:223-225 | when no definition reads the symbol that it defines, the slice holds exactly the influences |
| `SlicingPaths.SliceOnPaths` | src/ojas_reconciler/db2_behavior/analysis/slicing.py:121-262 | from the graph: the slice holds exactly what definitions along paths lead to, COMPLETE is exact over those paths, and a parameter is named as a source iff the slice holds a use of it to which no path brings a definition |
| `ParameterSources.OwedAreNamedIff` | src/ojas_reconciler/db2_behavior/analysis/slicing.py:181-192 | a slice names every parameter whose value on entry arrives at one of its uses iff no such value arrives only together with a definition; it names no others unless a use is unreachable |
| `ParameterSources.UndefinedIsUnset` | src/ojas_reconciler/db2_behavior/analysis/slicing.py:335-386 | a reachable use to which no path brings a definition gets the value on entry |
| `ParameterSources.AssignedParameterIsMissed` | src/ojas_reconciler/db2_behavior/analysis/slicing.py:181-386 | an IN parameter assigned on one branch is missing from the sources of a slice in which every use is resolved |
| `SlicingPaths.SliceAgrees` | src/ojas_reconciler/db2_behavior/analysis/slicing.py:168-225 | the slice over the definition map is the slice over the paths |
| `RegionTracker.StreamIsRead` | src/atlas/dialects/structure.py:77-234 | on the stream of any Db2 or MySQL tree the run ends on its starting stack, closes each loop once and records the parents of the tree that the stream reads as |
| `RegionTracker.TreeIsRecovered` | src/atlas/dialects/structure.py:36-50 | parents and conditionality are those of the tree iff no inline handler stands directly in front of a block |
| `RegionTracker.AllRun` | src/atlas/dialects/structure.py:77-187 | for a separated list in any context the stack is restored and every statement gets its enclosing arm or region |
| `RegionTracker.OneBackEdgePerLoop` | src/atlas/dialects/adapter.py:283-296 | the LOOP_BACK edges lead to the loop headers, each exactly once |
| `RegionTracker.ParseStream` | src/atlas/dialects/adapter.py:101-214 | the statement loop over the tracker computes the run over the stream |
| `RegionTracker.StructuredRegionTracker.AfterNode` | src/atlas/dialects/structure.py:77-187 | the stack and the closed frames after each kind of statement |
| `RegionTracker.StructuredRegionTracker.Close` | src/atlas/dialects/structure.py:189-234 | what each form of END closes |
| `RegionTracker.StructuredRegionTracker.PopThrough` | src/atlas/dialects/structure.py:205-211 | pops through the innermost frame of a kind, innermost first |
| `RegionTracker.StructuredRegionTracker.FindNearest` | src/atlas/dialects/structure.py:30-34 | the innermost frame of the given kinds |
| `RegionTracker.StructuredRegionTracker.SetActive` | src/atlas/dialects/structure.py:91-107 | makes a statement the active arm of the innermost matching frame |
| `RegionTracker.StructuredRegionTracker.Drain` | src/atlas/dialects/structure.py:236-239 | returns and clears what is left |
| `BlockMatcher.MatcherFindsEnd` | src/atlas/dialects/db2/clp.py:135-206 | for every body built in any nesting from ordinary words, groups, stray keywords, CASE expressions, compounds and blocks, whatever stands around them and whatever CASE or FOR is taken for, the matcher stops at the END of the outermost BEGIN iff the pieces leave that BEGIN as the only one on the stack and no CASE expression on top, and no closer follows |
| `BlockMatcher.EndIsReported` | src/atlas/dialects/db2/clp.py:172-192 | what is answered for a body whose END is found: the word behind the END if there is one, otherwise the END; and, unless another END stands next to it, only then |
| `BlockMatcher.BodyRuns` | src/atlas/dialects/db2/clp.py:149-191 | behind a body the machine has exactly the stack that its pieces leave one after the other, and has stopped inside it exactly when they say so |
| `BlockMatcher.NodeRuns` | src/atlas/dialects/db2/clp.py:149-191 | the same for one piece: a bracket opens, runs its pieces, and lets its END cut |
| `BlockMatcher.StateDecides` | src/atlas/dialects/db2/clp.py:149-192 | where the matcher stops follows from its state at any token on the way |
| `BlockMatcher.ForIsRecognisedIff` | src/atlas/dialects/db2/clp.py:203-206 | a FOR is taken for a loop iff both AS and CURSOR are among the nine tokens behind it |
| `BlockMatcher.ProcedureEnd` | src/atlas/dialects/db2/clp.py:135-192 | the token loop computes the stack machine from the first BEGIN |
| `MatchedBodies.CalmBodyIsFound` | src/atlas/dialects/db2/clp.py:162-206 | with CASE statements and FOR loops recognised or not, and closers behind CASE expressions, the END is found iff every unrecognised CASE and every closer behind an expression stands inside a recognised compound, and no closer follows |
| `MatchedBodies.CalmLeaves` | src/atlas/dialects/db2/clp.py:149-206 | what such a body leaves on the stack: nothing iff it holds no unrecognised CASE and no closer behind an expression outside a recognised compound, and else CASE expressions and blocks that could not be closed |
| `MatchedBodies.SealedBodyIsFound` | src/atlas/dialects/db2/clp.py:149-191 | when every inner block is opened by its BEGIN and may be closed by its END, the END of the body is found iff no END reaches below the BEGIN of its own block and the last one may close a block too |
| `MatchedBodies.KeptStays` | src/atlas/dialects/db2/clp.py:149-191 | as long as no END reaches below the BEGIN of its block, the stack up to that BEGIN stays and no other block is left open above it |
| `MatchedBodies.LostIsMissed` | src/atlas/dialects/db2/clp.py:149-191 | once an END has reached below the BEGIN of its block, a BEGIN is missing or the machine has stopped |
| `MatchedBodies.TidyBodyIsFound` | src/atlas/dialects/db2/clp.py:135-206 | if every keyword but FOR is read as what it is, the END is found iff no END reaches below the BEGIN of its own block and no closer follows |
| `MatchedBodies.UniformBodyIsFound` | src/atlas/dialects/db2/clp.py:135-206 | if moreover all FOR loops of the body are recognised, or no FOR of the body is, the END is found whatever follows it except a closer |
| `MatchedPieces.ExpressionIsLeftIff` | src/atlas/dialects/db2/clp.py:162-191 | a CASE expression leaves the stack as it was iff its pieces leave nothing and no closer follows |
| `MatchedPieces.ExpressionIsLeftIffNoStray` | src/atlas/dialects/db2/clp.py:162-191 | a CASE expression with stray keywords leaves the stack as it was iff none of them is taken for a block and no closer follows |
| `MatchedPieces.ExpressionIsLeftIffNoCloserFollows` | src/atlas/dialects/db2/clp.py:162-172 | a closer behind a CASE expression cuts the stack at its own kind instead of leaving it as it was |
| `MatchedPieces.CaseIsLeftIffRecognised` | src/atlas/dialects/db2/clp.py:173-201 | a CASE statement, whatever its arms leave short of another CASE statement, leaves the stack as it was iff the token before it starts a statement and no CASE expression is open |
| `MatchedPieces.RecognisedCompoundIsLeft` | src/atlas/dialects/db2/clp.py:173-191 | a recognised compound takes away whatever its pieces leave, unless that holds a frame of its own kind |
| `MatchedPieces.ForIsLeftIff` | src/atlas/dialects/db2/clp.py:162-206 | the END FOR of an unrecognised loop leaves the stack below alone iff no FOR frame is open there or its body left one |
| `MatchedPieces.CaseInLoopDoesNoHarm` | src/atlas/dialects/db2/clp.py:162-201 | an unrecognised CASE statement directly behind LOOP: the matcher stops at the right END |
| `MatchedPieces.NestedForsEndEarly` | src/atlas/dialects/db2/clp.py:162-206 | a plain FOR in a block inside a CURSOR loop: the matcher stops at the END of the inner block |
| `MatchedPieces.StrayInExpressionEndsEarly` | src/atlas/dialects/db2/clp.py:162-191 | a REPEAT call inside a CASE expression ends the procedure early |
| `MatchedPieces.UnrecognisedCaseHidesEnd` | src/atlas/dialects/db2/clp.py:182-201 | a CASE statement behind BEGIN ATOMIC makes the matcher miss the END |
| `MatchedPieces.ForBehindExpressionHidesEnd` | src/atlas/dialects/db2/clp.py:162-172 | a FOR clause behind a CASE expression makes the matcher miss the END |
| `ControlFlow.RefineControlFlow` | src/atlas/dialects/control_flow.py:39-480 | all source nodes survive in order, no edge is duplicated, the edges are exactly the refined ones (RefinedByPosition), and UNKNOWN is set iff a node is not exempt, not reached by control and not a handler with something reached inside |
| `RefinedEdges.RefinedByPosition` | src/atlas/dialects/control_flow.py:74-422 | for every list of statements and every kind of edge: the refined graph has the edge iff it is kept from the parser or is not in vain and some statement calls for it by position, as the next rows say kind by kind |
| `RefinedEdges.JoinsAre` | src/atlas/dialects/control_flow.py:342-382 | JOIN leads from the last statement of each arm, BEGIN and END aside, unless it is a transfer, to the statement behind the last one inside the choice; FALSE from an IF without ELSE and NO_MATCH from every CASE lead there too |
| `RefinedEdges.LoopExitsAre` | src/atlas/dialects/control_flow.py:123-146 | FALSE leads from a loop behind the first END inside it that is worded as a loop end or behind which the loop is left, or to the exit |
| `RefinedEdges.HandlerSkipsAre` | src/atlas/dialects/control_flow.py:221-262 | HANDLER_DECLARATION leads behind the END of the handler block, TRY_SUCCESS from the first END TRY behind END CATCH, NO_EXCEPTION from the statement before an exception section, unless it ends there, to the END of the section |
| `RefinedEdges.CausesAre` | src/atlas/dialects/control_flow.py:384-389 | EXCEPTION leads from a statement that may fail, in no handler, to exactly the deepest handlers in whose scope it stands and whose condition covers it |
| `RefinedEdges.RaisesAre` | src/atlas/dialects/control_flow.py:173-219 | a raise leads to the first of the best fitting of those handlers, by name before NOT FOUND before a general condition, or to the exit if there is none |
| `RefinedEdges.GotosAre` | src/atlas/dialects/control_flow.py:270-284 | GOTO leads to the last label of its name |
| `RefinedEdges.LoopControlsAre` | src/atlas/dialects/control_flow.py:285-334 | a loop control statement leads back to the labelled loop, behind the labelled END, or else to the loop around it or behind that |
| `RefinedEdges.CallsAre` | src/atlas/dialects/control_flow.py:391-412 | CALLS leads from each call to its routine, which is numbered by how many others are called before its first call |
| `RefinedEdges.TargetIdIs` | src/atlas/dialects/control_flow.py:392-412 | the nodes of external routines are told apart by their numbers, written with at least four digits |
| `RefinedEdges.SourceNodesJoin` | src/atlas/dialects/control_flow.py:54-56 | what is refined is every node but the external routines, in order |
| `RefinedEdges.DependenciesAre` | src/atlas/dialects/control_flow.py:414-422 | DATA_DEPENDENCY leads from the last statement that writes a variable in front of a reader, if it is another one, to the reader |
| `RefinedEdges.StaysIs` | src/atlas/dialects/control_flow.py:74-88 | an edge of the parser is kept iff it leaves a statement that is no transfer and does not run on into a handler section |
| `RefinedEdges.AncestryIsLineage` | src/atlas/dialects/control_flow.py:58-69 | the ancestors are the one list that goes from parent to parent, as far as possible and without repeating one |
| `RefinedEdges.ContainsIs` | src/atlas/dialects/control_flow.py:191-199 | a handler condition contains a name iff the name stands somewhere in it |
| `ControlFlow.ReturnLeadsToExit` | src/atlas/dialects/control_flow.py:264-266 | the only control edge out of a RETURN goes to the exit |
| `ControlFlow.RaiseHasOneEdge` | src/atlas/dialects/control_flow.py:267-269 | a raise has exactly one control edge, exceptional, to the best of the innermost handlers in scope or to the exit |
| `ControlFlow.GotoLeadsToLabel` | src/atlas/dialects/control_flow.py:270-284 | the only control edge out of a GOTO goes to its label, and there is none without one |
| `ControlFlow.LoopControlLeads` | src/atlas/dialects/control_flow.py:249-334 | a loop control statement has exactly the edge its keyword and label call for and, iff it stands directly in front of an exception section that has an END, a fall-through edge to that END |
| `ControlFlow.LeaveFallsThrough` | src/atlas/dialects/control_flow.py:249-262 | a LEAVE directly in front of an exception section has both edges |
| `ControlFlow.TransferIsAll` | src/atlas/dialects/control_flow.py:74-104 | no pass adds a control edge to a RETURN, raise or GOTO beyond its transfer |
| `ControlFlow.RefineEdges` | src/atlas/dialects/control_flow.py:74-104 | kept edges and proposals, exactly the refined ones, without duplicates |
| `ControlFlow.Reach` | src/atlas/dialects/control_flow.py:436-448 | the search finds exactly the nodes that control edges reach from the entry |
| `ControlFlow.LiftHandlers` | src/atlas/dialects/control_flow.py:450-458 | a handler counts as reached iff it is, or something inside it is |
| `ControlFlow.DescendantsNest` | src/atlas/dialects/control_flow.py:58-72 | descent is transitive, also on cyclic parent references |
| `CommentMask.MaskComments` | src/atlas/dialects/scanner.py:28-80 | the scan in place computes the mask |
| `CommentMask.MaskBlanksComments` | src/atlas/dialects/scanner.py:28-80 | the mask blanks the comments of any legal reading of the text and keeps literals and code unchanged |
| `CommentMask.TextHasReading` | src/atlas/dialects/scanner.py:28-80 | every text, with open comments and literals too, has a legal reading |
| `CommentMask.MaskOnlyBlanks` | src/atlas/dialects/scanner.py:28-80 | length and line breaks are kept and only spaces are written |
| `CommentMask.MaskIsIdempotent` | src/atlas/dialects/scanner.py:28-80 | masking twice is masking once |
| `CommentMask.BlankLine` | src/atlas/dialects/scanner.py:61-67 | a line comment is blanked up to the line break |
| `CommentMask.BlankBlock` | src/atlas/dialects/scanner.py:68-78 | a block comment is blanked through its closing mark, or up to the last character if it never closes |
| `Lexer.Scan` | src/atlas/dialects/db2/clp_lexer.py:41-198 | terminates with the tokens, code lines and open-literal and open-comment flags of the text |
| `Lexer.OpenLiteralIsSeen` | src/atlas/dialects/db2/clp_lexer.py:103-198 | the flag for open literals is set iff some quoted token never closes |
| `Lexer.OpenCommentIsSeen` | src/atlas/dialects/db2/clp_lexer.py:74-198 | the flag for open comments is set iff some comment never closes |
| `Lexer.CodeLinesAre` | src/atlas/dialects/db2/clp_lexer.py:41-198 | the code lines are those on which a token begins, or a comment that never closes |
| `Lexer.TokensTile` | src/atlas/dialects/db2/clp_lexer.py:41-198 | each token is the slice at its offset with the line and column of that offset, and gaps hold only blanks and comments |
| `Lexer.TokensAreLongest` | src/atlas/dialects/db2/clp_lexer.py:41-198 | the first character gives the kind of a token: words and numbers are the longest runs, literals end behind the mark that closes them, and a symbol has two characters exactly where they form one of the seven |
| `Literals.LiteralEndsFirst` | src/atlas/dialects/db2/clp_lexer.py:103-149 | a literal ends behind the first mark that has no other behind it and an even number before it, or with the text |
| `Lexer.TilesDoNotOverlap` | src/atlas/dialects/db2/clp_lexer.py:41-198 | tokens come in text order and do not overlap |
| `Lexer.LayoutDoesNotMatter` | src/atlas/dialects/db2/clp_lexer.py:41-198 | scanning the tokens joined by single blanks yields the same tokens |
| `Lexer.NestedCommentIsOneGap` | src/atlas/dialects/db2/clp_lexer.py:74-99 | a comment with comments nested to any depth is one gap |
| `Lexer.TokensAreWords` | src/atlas/dialects/db2/clp_lexer.py:41-198 | places aside, the tokens of a suffix depend on the suffix alone |
| `Lexer.ColumnBehind` | src/atlas/dialects/db2/clp_lexer.py:51-57 | the column counts the characters since the last line break |
| `Lexer.ReadLiteral` | src/atlas/dialects/db2/clp_lexer.py:103-149 | a literal runs to the first undoubled mark or to the end |
| `Lexer.SkipComment` | src/atlas/dialects/db2/clp_lexer.py:74-99 | a comment runs to where its nesting closes or to the end |

## Left out

- Handler subgraphs and CONTINUE resumption in the trace theorem: the exit of a handler is not wired back, so no trace semantics fits them. Handler edges are in scope for dataflow and the boundary search.
- Whether ITERATE in a REPEAT loop tests its condition: a visit of the header through ITERATE counts as a later one, which may leave the loop.
- Condition texts on graph edges and in region frames, and the reason codes beside modalities and assessments.
- The finer verdicts on single branches (literal truth, fully supported or not) beside contradiction.
- The order in which merged dynamic SQL values are listed, and relation and call resolution of variants.
- The NEXT, TRUE and FALSE edges that the statement loop derives from the tracker.
- Closing rules of T-SQL and of Oracle and PL/pgSQL exception sections are in the tracker's specification, but the tree theorem is for Db2 and MySQL.
- Obligations of CALL and dynamic SQL effects, whose modality is UNKNOWN by two guards of their own; the obligation model is for data changes.
- Dominators and post-dominators: whether a co-effect is required is an input of the obligation.
- Findings of the refinement pass (unresolved labels, unreachable statements); they follow from the edges and marks.
- Upper-case copies of token values in the lexer.
- BooleanParser.RoundTrip: an atom that is nothing but a parenthesised text is outside it, because its tokens are those of a group.
- The order in which inherited OUT effects are listed.
- Hashing, digests, JSON, file access, the web and command-line layers, deliverables and validation of records.
