# RDAO detector: a verified model of its analyses

The RDAO detector finds concurrency bugs in multithreaded C programs: races, deadlocks,
atomicity violations and order violations. It does not look at the program directly. It
builds a *multithreaded application source code model* (MASCM) first. Its time units group
the threads that run together. Its edges link operations, resources and mutexes. Its relations
pair operations that belong together, such as a `malloc` and the `free` of the same pointer.
The four detectors then read that model.

This project models in Dafny:

- The four detectors (`Deadlock`, `AtomicityViolation`, `OrderViolation`, `RaceCondition`) and
  the time-unit graph builder they share (`TimeUnitHelper`). These work on a value model of the
  MASCM (`Mascm`).
- The relation matchers of the model builder (`CreateMascm`), as functions over a matcher
  state. A class `MascmBuilder` holds that state and runs the same steps as methods with loops.
- The helpers that read syntax-tree nodes (`MascmHelper`, over the node datatype in `CAst`),
  and the parsing of configured function pairs (`Common`).
- The classes `Resource` (`Resources`), `Thread` and `Operation` (`Threads`).

Supporting modules:

- `Exceptions`: the raised errors, as a `Result`.
- `Collections`: `itertools.combinations(_, 2)`, filtering and flattening.
- `Text`: decimal numerals, as printed by `__repr__`.

Edges are a datatype with one constructor per kind of edge. The source recognises edge kinds
by matching regular expressions against `str(edge)`. The model tests the constructor instead,
and compares endpoints structurally where the source tests substrings of the printed edge.

## Model

| member | source | states |
|---|---|---|
| Mascm.MultiThreadUnits | rdao/deadlock.py:105-107 | the units kept are exactly the input's units with more than one thread, and none are kept exactly when every unit has at most one thread |
| TimeUnitHelper.TimeUnitEdgesMember | helpers/time_unit_helper.py:16-29 | an edge is yielded exactly when it is a model edge with an operation endpoint of some thread of the unit |
| TimeUnitHelper.TimeUnitEdgesMultiplicity | helpers/time_unit_helper.py:16-29 | an edge is yielded once per thread of the unit it touches, times its multiplicity in the model |
| TimeUnitHelper.ThreadEdgesMultiplicity | helpers/time_unit_helper.py:22-27 | one thread's pass keeps every copy of an edge touching the thread and drops every other edge |
| TimeUnitHelper.CollectThreadEdges | helpers/time_unit_helper.py:23-27 | the loop over the edges for one thread yields exactly that thread's edges, in model order |
| TimeUnitHelper.GetTimeUnitEdges | helpers/time_unit_helper.py:16-29 | the generator's two loops yield the unit's edges thread by thread |
| TimeUnitHelper.FlagAfterParity | helpers/time_unit_helper.py:39-45 | after a run of edges, `is_mutex` is the starting flag flipped once per mutex edge |
| TimeUnitHelper.KeptSnoc | helpers/time_unit_helper.py:42-49 | an edge is kept when it has a mutex or resource endpoint, or when the flag left by the edges before it is set |
| TimeUnitHelper.KeptElements | helpers/time_unit_helper.py:42-49 | every kept edge comes from the unit's edges, and every mutex or resource edge among them is kept |
| TimeUnitHelper.AddUnitEdgesSpec | helpers/time_unit_helper.py:40-49 | one unit's pass appends exactly its kept edges under its key (the defaultdict gets no entry when none are kept) and passes the flag on |
| TimeUnitHelper.AddUnitsSound | helpers/time_unit_helper.py:38-52 | every edge filed under a unit is a model edge that touches one of that unit's threads |
| TimeUnitHelper.TimeUnitsGraphsSound | helpers/time_unit_helper.py:32-52 | the same for the whole function from an empty dict |
| TimeUnitHelper.GetTimeUnitsGraphs | helpers/time_unit_helper.py:32-52 | the loop over units, with `is_mutex` set once before all units, computes the graphs the function model describes |
| TimeUnitHelper.ParityCarriesAcrossUnits | helpers/time_unit_helper.py:39-49 | a unit ending on an odd number of mutex edges makes the next unit keep a plain transition |
| TimeUnitHelper.ThreadEdgeListsErr | rdao/deadlock.py:113-118 | ValueError exactly when some listed thread has no edge in the unit's graph; otherwise one list per thread, that thread's edges |
| TimeUnitHelper.UnitThreadEdgesErr | rdao/deadlock.py:113-118 | ValueError exactly when some thread of some unit has no edge in its unit's graph; otherwise the lists unit by unit, none empty |
| Deadlock.MutexEdges | rdao/deadlock.py:120-125 | the collection holds only lock and unlock edges of the thread's edges |
| Deadlock.MutexIndexesSpec | rdao/deadlock.py:16-28 | entry i pairs the i-th mutex edge with its mutex number, positive exactly for a lock edge |
| Deadlock.MutexIndexesOfMutexEdges | rdao/deadlock.py:16-28 | on a lock/unlock collection, entry i belongs to edge i |
| Deadlock.CollectMutexesIndexes | rdao/deadlock.py:16-28 | the loop computes the signed entries |
| Deadlock.SingleMutexIff | rdao/deadlock.py:31-36 | a single mutex is used exactly when some entry is positive and every positive entry has its number |
| Deadlock.BalancedLocksGiveFalse | rdao/deadlock.py:39-44 | a collection in which every lock is released answers false |
| Deadlock.UnmatchedLockGivesTrue | rdao/deadlock.py:39-44 | one unreleased lock answers true |
| Deadlock.LockOrderPositive | rdao/deadlock.py:62-63 | the lock order holds only positive numbers |
| Deadlock.ConflictsInMember | rdao/deadlock.py:65-68 | a pair conflicts exactly when it is a first-side pair whose reverse is a second-side pair |
| Deadlock.CollectConflictedPairs | rdao/deadlock.py:65-68 | the loop computes the conflicted pairs in first-side order |
| Deadlock.ConflictedPairsIff | rdao/deadlock.py:62-68 | (a, b) conflicts exactly when the first side locks a before b and the second locks b before a |
| Deadlock.FirstAt | rdao/deadlock.py:74-80 | the found position is the first at or after the start with that number, and None means there is none |
| Deadlock.PairEvidenceStarted | rdao/deadlock.py:74-80 | once a's entry has been taken, the evidence is the next entry numbered b, if any |
| Deadlock.PairEvidenceSpec | rdao/deadlock.py:70-89 | the evidence is the first entry of a and then the first entry of b at or after it |
| Deadlock.PairEvidenceLength | rdao/deadlock.py:70-89 | one side never has more than two edges |
| Deadlock.CollectPairEvidence | rdao/deadlock.py:73-80 | the `is_first`/`break` loop computes that evidence |
| Deadlock.EvidenceFor | rdao/deadlock.py:69-90 | one evidence pair per conflicted pair, in order |
| Deadlock.FindMutuallyExclusivePairs | rdao/deadlock.py:55-90 | the generator's loops compute mutually_exclusive_pairs_of_mutex |
| Deadlock.CollectEvidence | rdao/deadlock.py:69-90 | the loop over the conflicted pairs yields, in order, each pair's evidence from both sides |
| Deadlock.MutuallyExclusiveSpec | rdao/deadlock.py:55-90 | nothing when either side uses a single mutex; otherwise one finding per conflicted pair, with the conflict and the evidence of both sides |
| Deadlock.MissingFromMember | rdao/deadlock.py:95-99 | the entries kept are the collection's edges at positive positions whose negation is absent |
| Deadlock.MissingUnlockSpec | rdao/deadlock.py:93-100 | on a lock/unlock collection, the findings are exactly its lock edges whose mutex it never unlocks |
| Deadlock.DoubleLocksKind | rdao/deadlock.py:128-130 | the first loop yields only double-lock findings |
| Deadlock.MissingUnlocksKind | rdao/deadlock.py:132-134 | the second loop yields only missing-unlock findings |
| Deadlock.DoubleLocksFirstConcat | rdao/deadlock.py:128-134 | all double locks come before all missing unlocks |
| Deadlock.DetectDeadlockSpec | rdao/deadlock.py:103-136 | nothing without a unit of two threads; ValueError exactly when an inspected thread has no edges; otherwise double locks before missing unlocks |
| Deadlock.TwoLocksNotSingle | rdao/deadlock.py:31-36 | two distinct lock numbers rule out the single-mutex shortcut |
| Deadlock.ScenarioIndexes | rdao/deadlock.py:16-28 | the entries of three sample lock/unlock sequences |
| Deadlock.OppositeOrderIsReported | rdao/deadlock.py:55-90 | m1-then-m2 against m2-then-m1 is one finding with both threads' two locks |
| Deadlock.ReleaseOrderIsIgnored | rdao/deadlock.py:55-90 | the same lock order with a different release order is no finding |
| AtomicityViolation.FirstIndex | rdao/atomicity_violation.py:36 | the first position holding the mutex, or the length when there is none |
| AtomicityViolation.Remove | rdao/atomicity_violation.py:36 | list.remove fails with ValueError exactly when the mutex is absent, else drops one copy |
| AtomicityViolation.StepInv | rdao/atomicity_violation.py:29-46 | one iteration keeps the grouping invariant and records only the current edge |
| AtomicityViolation.GroupFromInv | rdao/atomicity_violation.py:29-46 | the loop keeps the invariant, never changes what it has recorded, and records only graph edges |
| AtomicityViolation.GroupSound | rdao/atomicity_violation.py:24-47 | every entry is a usage or dependency edge of the graph met under a held mutex, operation first; section numbers start at 1 and never decrease |
| AtomicityViolation.GroupFromErr | rdao/atomicity_violation.py:35-36 | grouping fails, with ValueError, exactly when an unlock names a mutex not on the stack built so far |
| AtomicityViolation.GroupFromSnoc | rdao/atomicity_violation.py:29-46 | reading one more edge is one more loop iteration on the state reached so far |
| AtomicityViolation.GroupPrefixStep | rdao/atomicity_violation.py:30-46 | one iteration on the positional state of a prefix fails exactly on an unlock of a mutex not held, and otherwise gives the positional state of the longer prefix |
| AtomicityViolation.GroupPrefix | rdao/atomicity_violation.py:24-47 | after any prefix the loop has not failed exactly when every unlock so far named a held mutex, and then its stack, section counter and entries are StackAt, SectionAt and RecordsUpTo of that prefix |
| AtomicityViolation.GroupComplete | rdao/atomicity_violation.py:24-47 | the entries are exactly the usage and dependency edges read with a non-empty stack, in graph order, each with the stack at that point and the number of sections opened so far; grouping fails exactly when some unlock names a mutex not held |
| AtomicityViolation.NestedLocksShareSection | rdao/atomicity_violation.py:30-34 | while the stack stays non-empty the section number does not change, so a lock taken under a held lock opens no section |
| AtomicityViolation.OuterLockOpensSection | rdao/atomicity_violation.py:30-34 | a lock taken with an empty stack opens the next section and leaves only its mutex on the stack |
| AtomicityViolation.GroupOperationsByCriticalSection | rdao/atomicity_violation.py:24-47 | the loop computes the grouping or its error |
| AtomicityViolation.SharedAccessesMember | rdao/atomicity_violation.py:78-82 | the other thread's edges kept are exactly those that use or depend on the shared resource |
| AtomicityViolation.SplitSectionsElements | rdao/atomicity_violation.py:59-66 | the split entries are the entries holding exactly one of the two operations |
| AtomicityViolation.ViolationSpec | rdao/atomicity_violation.py:50-83 | ValueError from grouping; RDAOException exactly when more than two entries are split; nothing under two; with two, their edges and then exactly the other thread's accesses to the first entry's resource |
| AtomicityViolation.DetectViolation | rdao/atomicity_violation.py:50-83 | the loops compute detect_violation |
| AtomicityViolation.CollectSplitSections | rdao/atomicity_violation.py:57-66 | the first loop computes the split entries and their edges |
| AtomicityViolation.CollectSharedAccesses | rdao/atomicity_violation.py:77-82 | the last loop computes the other thread's accesses |
| AtomicityViolation.SymmetricRelationViolatedCount | rdao/atomicity_violation.py:98-108 | one yield per relation |
| AtomicityViolation.RelationResultsShape | rdao/atomicity_violation.py:101-108 | each results list holds at most two findings and no empty one |
| AtomicityViolation.SymmetricRelationViolatedSpec | rdao/atomicity_violation.py:98-108 | one results list per relation, in order, each the relation's findings in both directions |
| AtomicityViolation.FindSymmetricViolations | rdao/atomicity_violation.py:98-108 | the loop computes symmetric_relation_violated |
| AtomicityViolation.ViolationsOverCount | rdao/atomicity_violation.py:142-144 | one yield per pair of subgraphs and relation |
| AtomicityViolation.DetectAtomicityViolationSpec | rdao/atomicity_violation.py:111-144 | nothing without a unit of two threads; ValueError when a thread has no edges; otherwise n(n-1)/2 times the number of symmetric relations yields for n subgraphs |
| AtomicityViolation.SplitSectionsOfTwo | rdao/atomicity_violation.py:59-66 | which of two entries are split, case by case |
| AtomicityViolation.TwoSectionsOfOneThread | rdao/atomicity_violation.py:24-47 | two locked increments of a counter land in sections 1 and 2 |
| AtomicityViolation.ForeignRelationFindsNothing | rdao/atomicity_violation.py:50-72 | one thread's relation finds nothing in the other thread's graph |
| AtomicityViolation.AccessesOfThread | rdao/atomicity_violation.py:77-82 | a thread's two accesses to the counter |
| AtomicityViolation.OwnRelationIsSplit | rdao/atomicity_violation.py:50-83 | a thread's relation split across its two sections gives its two edges and the other thread's two accesses |
| AtomicityViolation.MirroredFindings | rdao/atomicity_violation.py:98-108 | two threads, two relations: two yields with one mirrored finding each |
| AtomicityViolation.OneSectionGroup | rdao/atomicity_violation.py:24-47 | one section with two accesses groups into two entries of section 1 |
| AtomicityViolation.SameSectionIsReported | rdao/atomicity_violation.py:59-83 | two related operations inside one section are reported as well |
| OrderViolation.ResourceOf | rdao/order_violation.py:24-28 | an edge has a resource endpoint exactly when it is a usage or dependency edge |
| OrderViolation.AnyPrintsAsIff | rdao/order_violation.py:29-32 | the `any` holds exactly when some edge prints as (op2, r) or (r, op2) |
| OrderViolation.EdgeFindingsSpec | rdao/order_violation.py:20-33 | one finding per edge of op1 whose resource op2 also touches, in edge order |
| OrderViolation.ScanOrder | rdao/order_violation.py:16-17 | forward findings first, then backward, then symmetric |
| OrderViolation.ScanMember | rdao/order_violation.py:14-33 | (op1, op2, r) is reported exactly when a relation pairs them, an edge of op1 has resource r and an edge links op2 with r |
| OrderViolation.SharedFirstOperation | rdao/order_violation.py:14-33 | two relations from one malloc give two findings, in relation order |
| RaceCondition.LoneUsagesMember | rdao/race_condition.py:28-29 | an edge is yielded exactly when it is the only edge of some thread and a usage edge |
| RaceCondition.LoneUsagesBound | rdao/race_condition.py:28-29 | at most one yield per thread |
| RaceCondition.ThreadListsMember | rdao/race_condition.py:24-27 | the lists are exactly the unit's threads' edge lists |
| RaceCondition.UnitListsMember | rdao/race_condition.py:22-27 | the lists are exactly the edge lists of the threads of the units |
| RaceCondition.DetectRaceConditionSpec | rdao/race_condition.py:14-34 | nothing without a unit of two threads; ValueError exactly when a thread has no edges; otherwise an edge is yielded exactly when it is a usage edge and some thread's only edge |
| CreateMascm.SharesListed | mascm/create_mascm.py:62-64 | true exactly when both operations use some listed resource |
| CreateMascm.SharesArgument | mascm/create_mascm.py:65-68 | true exactly when the second operation uses some argument of the first |
| CreateMascm.IsResourceShared | mascm/create_mascm.py:52-69 | true exactly when both use a listed resource, or (local flag) the second uses an argument of the first |
| CreateMascm.ForwardSpec | mascm/create_mascm.py:90-119 | only the forward handler and relations change; the invariant is kept; each new relation ends at the operation and starts at a pending operation sharing a listed resource with it, in its thread when asked |
| CreateMascm.BackwardSpec | mascm/create_mascm.py:122-147 | only the backward handler and relations change; the invariant is kept; each new relation ends at the operation and starts at a stored opener, with no resource test |
| CreateMascm.SymmetricSpec | mascm/create_mascm.py:150-180 | only the symmetric handler and relations change; the invariant is kept; each new relation starts at a pending operation sharing a resource or an argument with the operation |
| CreateMascm.MatchAllSpec | mascm/create_mascm.py:211-213 | the three matchers together add only sound relations, leave mascm.o alone and keep the invariant; each handler and relation list ends up as its own matcher alone leaves the state before the operation |
| CreateMascm.AddOperationSpec | mascm/create_mascm.py:202-215 | the operation is appended to mascm.o after matching within its own thread; the invariant is kept; each relation list is what its own matcher, run in the thread, makes of the state before |
| CreateMascm.MatchOpsInv | mascm/create_mascm.py:84-87 | matching a thread pair's operations keeps the invariant and mascm.o |
| CreateMascm.MatchPairsInv | mascm/create_mascm.py:82-87 | the same for every thread pair of a unit |
| CreateMascm.MatchUnitsInv | mascm/create_mascm.py:81-87 | the same for every unit |
| CreateMascm.FindMultithreadedSpec | mascm/create_mascm.py:72-87 | the invariant and mascm.o are kept, and nothing changes when no unit has two threads |
| CreateMascm.UnnamedForward | mascm/create_mascm.py:99-118 | an operation naming no function of a forward pair changes nothing |
| CreateMascm.UnnamedBackward | mascm/create_mascm.py:130-147 | the same for backward pairs |
| CreateMascm.UnnamedSymmetric | mascm/create_mascm.py:158-180 | the same for symmetric pairs |
| CreateMascm.UnnamedMatchesNothing | mascm/create_mascm.py:90-180 | an operation naming no function of any table leaves every handler and relation as it was |
| CreateMascm.ForwardOpenerQueued | mascm/create_mascm.py:103-105 | a forward opener with no identical pending entry is queued at the end, and nothing else changes |
| CreateMascm.ForwardCloserRelates | mascm/create_mascm.py:106-119 | a forward closer takes the first pending entry waiting for its closer name; exactly when they share a listed resource, are of one thread (when asked) and no forward relation starts at the entry, the relation is appended and exactly that entry leaves the queue; otherwise nothing changes |
| CreateMascm.ForwardCloserUnmatched | mascm/create_mascm.py:106-110 | a forward closer with no pending entry waiting for its name changes nothing |
| CreateMascm.BackwardOpenerStored | mascm/create_mascm.py:134-135 | a backward opener overwrites what the pair had stored, and nothing else changes |
| CreateMascm.BackwardCloserRelates | mascm/create_mascm.py:136-147 | a backward closer with a stored opener is related to it with no resource test exactly when they are of one thread (when asked) and no backward relation starts at the opener, and then the key is deleted; otherwise nothing changes |
| CreateMascm.BackwardCloserUnmatched | mascm/create_mascm.py:134-136 | a closer with nothing stored for the pair, or an operation naming neither function, changes nothing |
| CreateMascm.SymmetricCloserRelates | mascm/create_mascm.py:162-180 | after the opener test, a symmetric closer is related to the first entry answering both names exactly when they share a resource or an argument, are of one thread (when asked) and no symmetric relation starts there; that entry leaves the queue |
| CreateMascm.SymmetricCloserUnmatched | mascm/create_mascm.py:162-171 | a symmetric call that closes nothing keeps only the opener test's effect |
| CreateMascm.SymmetricClosesAndQueues | mascm/create_mascm.py:162-180 | an operation naming both functions of a pair relates the first earlier entry answering it and is itself left pending at the end of the queue |
| CreateMascm.ForwardOnlyPair | mascm/create_mascm.py:98-119 | when only one forward pair names the operation, the forward matcher is that pair's step |
| CreateMascm.BackwardOnlyPair | mascm/create_mascm.py:129-147 | the same for the backward matcher |
| CreateMascm.SymmetricOnlyPair | mascm/create_mascm.py:157-180 | the same for the symmetric matcher |
| CreateMascm.BackwardLocal | mascm/create_mascm.py:122-147 | the backward matcher reads only the backward handler and relations |
| CreateMascm.SymmetricLocal | mascm/create_mascm.py:150-180 | the symmetric matcher reads only the symmetric handler and relations |
| Collections.FirstWhereIs | mascm/create_mascm.py:108 | the first element satisfying the test is the one next(...) finds |
| CreateMascm.ForwardRelationScenario | mascm/create_mascm.py:90-119 | malloc then free of one shared variable gives the one forward relation, in either order of the forward pairs |
| CreateMascm.BackwardRelationScenario | mascm/create_mascm.py:122-147 | fopen then strerror gives the backward relation although they share nothing |
| CreateMascm.FopenStrerrorShareNothing | mascm/create_mascm.py:52-69 | those two operations share no resource and no argument |
| CreateMascm.SymmetricRelationScenario | mascm/create_mascm.py:150-180 | va_start, va_arg, va_end give the two symmetric relations, in either pair order |
| CreateMascm.NoCloserBackward | mascm/create_mascm.py:134-147 | an operation that closes no pair adds no backward relation |
| CreateMascm.MascmBuilder.constructor | mascm/create_mascm.py:43-45 | the handlers, relations and operations start empty |
| CreateMascm.MascmBuilder.OperationIsInForwardRelation | mascm/create_mascm.py:90-119 | the loop over pairs computes the forward matcher's new state; resources unchanged |
| CreateMascm.MascmBuilder.OperationIsInBackwardRelation | mascm/create_mascm.py:122-147 | the loop computes the backward matcher's new state |
| CreateMascm.MascmBuilder.OperationIsInSymmetricRelation | mascm/create_mascm.py:150-180 | the loop computes the symmetric matcher's new state |
| CreateMascm.MascmBuilder.AddOperationToMascm | mascm/create_mascm.py:202-215 | the three matchers with thread checks, then the append, return the operation |
| CreateMascm.MascmBuilder.FindMultithreadedRelations | mascm/create_mascm.py:72-87 | the triple loop computes find_multithreaded_relations without thread checks |
| MascmHelper.NameThroughExpr | helpers/mascm_helper.py:19-22 | through an `expr`: AttributeError or a name of the subtree |
| MascmHelper.ExtractResourceName | helpers/mascm_helper.py:10-32 | every failure is AttributeError, and a non-empty name is an identifier of the node |
| MascmHelper.WrappedKeepsName | helpers/mascm_helper.py:19-20 | any chain of unary operators around a variable gives its name |
| MascmHelper.WrappedArrayKeepsName | helpers/mascm_helper.py:15-20 | the same around an array element gives the array's name |
| MascmHelper.MemberAssignment | helpers/mascm_helper.py:17-18 | `s.count = 1` gives "s" |
| MascmHelper.CallIsRejected | helpers/mascm_helper.py:27-29 | a function call node raises AttributeError |
| MascmHelper.TypeBase | helpers/mascm_helper.py:52-67 | following `type` and `to_type` ends at a node that is no declarator, cast or type name |
| MascmHelper.ExtractResourceType | helpers/mascm_helper.py:35-81 | the type text, and the struct flag set exactly when it is "struct" |
| MascmHelper.TypeOfBase | helpers/mascm_helper.py:40-70 | a node has the type of the node its declarators and casts lead to |
| MascmHelper.IsStructIff | helpers/mascm_helper.py:35-81 | flagged as struct exactly when that node is a member access or a plain type spelled "struct" |
| MascmHelper.DeclarationTypes | helpers/mascm_helper.py:40-70 | `struct point p` is "struct<point>" and not flagged; `unsigned int n` is "unsigned int" |
| Common.Split | helpers/common.py:42 | at least one piece, none containing a comma |
| Common.JoinSplit | helpers/common.py:42 | joining the pieces with commas gives the text back |
| Common.SplitJoin | helpers/common.py:42 | splitting comma-free pieces joined with commas gives the pieces back |
| Common.SafeReplace | helpers/common.py:33-46 | a piece is a key of safe_replaces exactly when it is one of the four operator words; those become "++" or "--", anything else is kept |
| Common.FunctionsPair | helpers/common.py:31-46 | nothing for a falsy argument, else one name per piece, in order, operator words replaced |
| Common.FunctionsPairOf | helpers/common.py:31-46 | one name per comma-separated piece |
| Common.PassThrough | helpers/common.py:42-46 | without operator words the names are the pieces and join back to the argument |
| Common.ReplacedOnce | helpers/common.py:43-46 | no returned name is an operator word |
| Common.TwoNames | helpers/common.py:31-46 | "a,b" gives (replace(a), replace(b)) |
| Resources.Resource.constructor | mascm/resource.py:11-14 | node and number as given, names exactly the given arguments |
| Resources.Resource.AddName | mascm/resource.py:16-20 | the name is added and nothing else; adding a known name changes nothing |
| Resources.Resource.Repr | mascm/resource.py:36-37 | "r" followed by the number |
| Resources.Resource.Value | mascm/resource.py:11-40 | the resource as the detectors see it: its number and names |
| Resources.ReprIffSameNumber | mascm/resource.py:36-37 | two resources print alike exactly when their numbers are equal |
| Resources.EqualsIsSameResource | mascm/resource.py:33-34 | `__eq__` is the detectors' equality on names |
| Text.DecimalString | mascm/resource.py:37 | a non-empty string of digits |
| Text.ParseDecimalString | mascm/resource.py:37 | reading the numeral back gives the number |
| Text.DecimalInjective | mascm/resource.py:37 | two numbers print alike exactly when they are equal |
| Threads.Thread.constructor | mascm/thread.py:15-25 | the name is "t0" without arguments, else the first argument's variable; no operations yet |
| Threads.Thread.AddOperation | mascm/thread.py:27-31 | the operation is appended at the end |
| Threads.Thread.NumOfOperations | mascm/thread.py:33-37 | the number of operations added |
| Threads.Thread.SetTimeUnit | mascm/thread.py:46-48 | the time unit is replaced, the operations kept |
| Threads.Operation.constructor | mascm/operation.py:11-21 | the operation registers itself with its thread and takes the thread's new count as its number; a call names its function; a return is the last action; a numbered thread stays numbered |
| Threads.LessIsPosition | mascm/operation.py:44-45 | in a numbered thread, `<` is the order in which operations were added |
| Threads.ReprIsUnique | mascm/operation.py:41-42 | in a numbered thread, distinct operations print differently |

## Left out

- I/O, logging and the `c.DEBUG` prints are not modelled; they do not change results.
- `forward_relation_violated` and `backward_relation_violated` only print a "not implemented"
  message and yield `None`, so they are not modelled (rdao/atomicity_violation.py:86-95).
- `resource_usage` (helpers/common.py:13-28) only measures time and memory and is not modelled.
- Edge identity is not modelled. Each matcher tests whether the new `Edge` object is already in
  the relations list. `Edge` defines no equality and the object is new, so that test always
  holds and the model leaves it out.
- The shown `mascm/operation.py` and `mascm/thread.py` are older than the builder that uses
  them. The builder calls `Operation(node, thread, function)` and reads `op.args`,
  `op.thread.index` and `op.use_the_resource`, none of which the shown classes have. The classes
  are modelled as shown. The matchers instead work on the value `MatchOp`, whose label, arguments
  and used resources and names are given.
- The relation tables are Python sets, iterated in an order the model cannot know. The model
  takes them as sequences in any order. The scenario lemmas hold for either order of the
  built-in pairs. Configured relations (`c.relations`) arrive in the same input tables.
- The shared resources are an input of the matchers. Collecting them while walking the syntax
  tree is not modelled.
- The syntax-tree walk that builds the model (`parse_*`, `create_edges`, `create_time_units`,
  `create_mascm`) is not modelled; the detectors take the model as a value.
- MascmHelper.Describe: pycparser's printed form of a node inside "unknown type <...>" is not
  reproduced; only its being non-empty is stated.
- MascmHelper.ExtractResourceName: the final `else` reads `node.lvalue`, which is reached only
  for nodes without an `lvalue`, so the model always raises AttributeError there.
- Resources.Resource.HasName also stands for `__contains__` (mascm/resource.py:39-40), which is
  the same test.
- Threads.Thread.constructor requires the first argument's `expr` to be an identifier. Other
  nodes that carry a `name` attribute are not modelled as thread arguments.
- Threads.Operation.constructor requires a called function to be named by an identifier; calls
  through pointers are not modelled.
- Threads.Thread.SetTimeUnit: the thread's `TimeUnit` object is modelled by its number.
- AtomicityViolation.ViolationSpec: detect_violation never compares section numbers. The split
  entries are all recorded entries whose operation is exactly one of the two, so two operations
  in one section are reported too (AtomicityViolation.SameSectionIsReported).
- Deadlock.IsCorrectNumbersOfLocksAndUnlocks returns `bool(sum(...))`. It is true exactly when
  the numbers do not cancel out, which is the opposite of what its name says. It is never called.
- Deadlock.MissingUnlockSpec: `missing_unlock` takes edge i of its input for entry i. The two
  line up only on a lock/unlock collection, which is all the detector passes it, so the lemma
  requires one.
- RaceCondition.DetectRaceConditionSpec: the `order` list is built for every thread and never
  read, so it is not modelled.
- The detectors recognise a thread's edges by the substring `o<n>` of the printed edge, which
  also matches thread numbers that begin with n. The model matches the operation's thread exactly.
- Operations are labelled by thread and index. Resources compare by number where the source
  compares their printed form, and by names where it uses `__eq__`.
- CreateMascm.ForwardSpec: states soundness, the frame and the invariant. What one pair does is
  stated by CreateMascm.ForwardOpenerQueued, ForwardCloserRelates and ForwardCloserUnmatched, and
  ForwardOnlyPair lifts them to the table when one pair names the operation. When several pairs
  of the table name it (free closes both malloc and calloc), their combined effect is stated
  only by the fold over the pairs.
- CreateMascm.BackwardSpec: the same; the per-pair facts are BackwardOpenerStored,
  BackwardCloserRelates and BackwardCloserUnmatched, lifted by BackwardOnlyPair.
- CreateMascm.SymmetricSpec: the same; the per-pair facts are SymmetricCloserRelates,
  SymmetricCloserUnmatched and SymmetricClosesAndQueues, lifted by SymmetricOnlyPair.
- CreateMascm.MatchAllSpec: reduces the three matchers to each one alone on the prior state; it
  inherits the gap above for operations named by several pairs of one table.
- CreateMascm.AddOperationSpec: the same gap as CreateMascm.MatchAllSpec.
- RaceCondition.DetectRaceCondition: the generator yields the lone usages of earlier threads
  before it raises ValueError for a thread with no edges (rdao/race_condition.py:22-29). The model
  returns only the error and drops what was already yielded.
- RaceCondition.DetectRaceConditionSpec: the same prefix is not stated on the error path.
- AtomicityViolation.FindSymmetricViolations: symmetric_relation_violated yields the results of
  earlier relations before detect_violation raises (rdao/atomicity_violation.py:100-108). The
  model returns only the error.
- AtomicityViolation.SymmetricRelationViolatedSpec: the same prefix is not stated on the error path.
- AtomicityViolation.DetectAtomicityViolation: the findings of earlier thread pairs yielded before
  such an error (rdao/atomicity_violation.py:142-144) are dropped; only the error is returned. The
  ValueError for a thread with no edges (line 125) comes before any yield and is exact.
- AtomicityViolation.DetectAtomicityViolationSpec: the same prefix is not stated on the error path.
- AtomicityViolation.DetectViolation: detect_violation is an ordinary function
  (rdao/atomicity_violation.py:50-83), so its error is exact; the dropped prefix belongs to the
  callers above.
- OrderViolation.EdgeFindingsSpec: the source tests `o<thread>,<index>` as a substring of the
  printed edge (rdao/order_violation.py:18-22), so `o1,1` also matches the edges of `o1,10`,
  `o1,11` and so on. The model matches the operation exactly and leaves out these clashes.
- OrderViolation.ScanMember: the same substring clash is left out.
