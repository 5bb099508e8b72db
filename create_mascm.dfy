/**
 * The relation matcher of the model builder: three small state machines that pair an
 * "opening" library call with a later "closing" one (malloc ... free, fopen ... strerror,
 * va_start ... va_arg ... va_end) and record the pair as a forward, backward or
 * symmetric relation of the model.
 *
 * The module-level handlers and the model fields the matchers update are the fields of
 * MascmBuilder; each matcher is a method whose loop over the name pairs is proved equal
 * to a fold of a pure step function, and the properties are lemmas about those folds.
 */
module CreateMascm {
  import opened Mascm
  import opened Collections

  /** An (opener, closer) pair of function names. */
  type NamePair = (string, string)

  /**
   * An operation as the matchers see it: its label, the name of the function it calls
   * ("" when it is no call), its argument names, and what it uses, both as shared
   * resources and as local names (Operation.use_the_resource accepts either).
   */
  datatype MatchOp = MatchOp(id: Op, name: string, args: seq<string>, resources: set<Res>, locals: set<string>)

  /** A pending entry {'pair': pair, 1: operation} of a handler list. */
  datatype Pending = Pending(pair: NamePair, op: MatchOp)

  /** The three relation tables, each standing for the set the matchers iterate in some order. */
  datatype RelationTables = RelationTables(forward: seq<NamePair>, backward: seq<NamePair>, symmetric: seq<NamePair>)

  /** The built-in relations (mascm/create_mascm.py:25-40). */
  const DefaultTables: RelationTables := RelationTables(
    [("calloc", "free"), ("malloc", "free")],
    [("fopen", "strerror"), ("fgetpos", "strerror"), ("fsetpos", "strerror"), ("fell", "strerror"),
     ("atof", "strerror"), ("strtod", "strerror"), ("strtol", "strerror"), ("strtoul", "strerror"),
     ("calloc", "realloc"), ("malloc", "realloc"), ("srand", "rand")],
    [("va_start", "va_arg"), ("va_arg", "va_end")])

  /** Names under which the preprocessor may have expanded a library call. */
  const MacroPrefix: string := "__builtin_"

  /** `name in (f, "__builtin_" + f)`. */
  predicate NameIs(name: string, f: string)
  {
    name == f || name == MacroPrefix + f
  }

  /** Everything the matchers read and write: the three handlers, the relations and mascm.o. */
  datatype MatchState = MatchState(
    forwardHandler: seq<Pending>,
    backwardHandler: map<NamePair, MatchOp>,
    symmetricHandler: seq<Pending>,
    relations: Relations,
    operations: seq<MatchOp>)

  const Empty: MatchState := MatchState([], map[], [], Relations([], [], []), [])

  // ---------------------------------------------------------------------------
  // is_resource_shared

  /** The loop over the shared resources. */
  function SharesListed(resources: seq<Res>, op1: MatchOp, op2: MatchOp): (b: bool)
    ensures b <==> exists i :: 0 <= i < |resources| && resources[i] in op1.resources && resources[i] in op2.resources
  {
    if resources == [] then false
    else if resources[0] in op1.resources && resources[0] in op2.resources then true
    else
      assert forall i :: 1 <= i < |resources| ==> resources[i] == resources[1..][i - 1];
      SharesListed(resources[1..], op1, op2)
  }

  /** The loop over op1's arguments. */
  function SharesArgument(args: seq<string>, op2: MatchOp): (b: bool)
    ensures b <==> exists i :: 0 <= i < |args| && args[i] in op2.locals
  {
    if args == [] then false
    else if args[0] in op2.locals then true
    else
      assert forall i :: 1 <= i < |args| ==> args[i] == args[1..][i - 1];
      SharesArgument(args[1..], op2)
  }

  /** is_resource_shared: both operations use a listed resource, or (localResource) op2 uses an argument of op1. */
  function IsResourceShared(op1: MatchOp, op2: MatchOp, resources: seq<Res>, localResource: bool): (b: bool)
    ensures b <==>
      (exists i :: 0 <= i < |resources| && resources[i] in op1.resources && resources[i] in op2.resources) ||
      (localResource && exists i :: 0 <= i < |op1.args| && op1.args[i] in op2.locals)
  {
    SharesListed(resources, op1, op2) || (localResource && SharesArgument(op1.args, op2))
  }

  // ---------------------------------------------------------------------------
  // The three matchers, one name pair at a time

  /** Some relation of the list already starts at operation a. */
  predicate HasFirst(rels: seq<Relation>, a: Op)
  {
    exists k :: 0 <= k < |rels| && rels[k].0 == a
  }

  /** The sequence without its element at position k. */
  function RemoveAt<T>(s: seq<T>, k: nat): seq<T>
    requires k < |s|
  {
    s[..k] + s[k + 1..]
  }

  /**
   * One pair of the forward matcher. An opener is queued unless an identical entry is
   * pending; a closer takes the first pending entry whose closer name matches and relates
   * it to the operation when they share a listed resource, are of one thread (checkThread)
   * and no forward relation starts at the entry's operation yet. (The source's further
   * test that the new Edge object is not in the list compares by identity and always holds.)
   */
  function ForwardPair(st: MatchState, pair: NamePair, op: MatchOp, resources: seq<Res>, checkThread: bool): MatchState
  {
    var h := st.forwardHandler;
    if NameIs(op.name, pair.0) && Pending(pair, op) !in h then
      st.(forwardHandler := h + [Pending(pair, op)])
    else if NameIs(op.name, pair.1) then
      var k := FirstWhere(h, (d: Pending) => NameIs(d.pair.1, pair.1));
      if k == |h| then st
      else
        var data := h[k];
        if IsResourceShared(data.op, op, resources, false) &&
           !(checkThread && data.op.id.thread != op.id.thread) &&
           !HasFirst(st.relations.forward, data.op.id)
        then st.(relations := st.relations.(forward := st.relations.forward + [(data.op.id, op.id)]),
                 forwardHandler := RemoveAt(h, k))
        else st
    else st
  }

  /**
   * One pair of the backward matcher. An opener overwrites the operation stored for the
   * pair; a closer with a stored opener relates the two, with no resource test, when they
   * are of one thread (checkThread) and no backward relation starts at the opener yet,
   * and only then forgets the opener.
   */
  function BackwardPair(st: MatchState, pair: NamePair, op: MatchOp, checkThread: bool): MatchState
  {
    var h := st.backwardHandler;
    if NameIs(op.name, pair.0) then
      st.(backwardHandler := h[pair := op])
    else if NameIs(op.name, pair.1) && pair in h then
      var first := h[pair];
      if !(checkThread && first.id.thread != op.id.thread) && !HasFirst(st.relations.backward, first.id)
      then st.(relations := st.relations.(backward := st.relations.backward + [(first.id, op.id)]),
               backwardHandler := h - {pair})
      else st
    else st
  }

  /** The opener test of the symmetric matcher: the operation is queued, duplicates included. */
  function SymmetricOpen(st: MatchState, pair: NamePair, op: MatchOp): MatchState
  {
    if NameIs(op.name, pair.0) then st.(symmetricHandler := st.symmetricHandler + [Pending(pair, op)]) else st
  }

  /** A pending symmetric entry answers the pair when both of its names match. */
  predicate Answers(d: Pending, pair: NamePair)
  {
    NameIs(d.pair.0, pair.0) && NameIs(d.pair.1, pair.1)
  }

  /**
   * One pair of the symmetric matcher. The opener and closer tests are independent: the
   * operation is first queued if it opens the pair, and then, if it closes the pair, the
   * first pending entry for the pair is related to it when they share a listed resource or
   * an argument, are of one thread (checkThread) and no symmetric relation starts there yet.
   */
  function SymmetricPair(st: MatchState, pair: NamePair, op: MatchOp, resources: seq<Res>, checkThread: bool): MatchState
  {
    var st1 := SymmetricOpen(st, pair, op);
    if !NameIs(op.name, pair.1) then st1
    else
      var h := st1.symmetricHandler;
      var k := FirstWhere(h, (d: Pending) => Answers(d, pair));
      if k == |h| then st1
      else
        var data := h[k];
        if IsResourceShared(data.op, op, resources, true) &&
           !(checkThread && data.op.id.thread != op.id.thread) &&
           !HasFirst(st1.relations.symmetric, data.op.id)
        then st1.(relations := st1.relations.(symmetric := st1.relations.symmetric + [(data.op.id, op.id)]),
                  symmetricHandler := RemoveAt(h, k))
        else st1
  }

  // The matchers over all pairs of their table, in the table's order.

  function Forward(st: MatchState, pairs: seq<NamePair>, op: MatchOp, resources: seq<Res>, checkThread: bool): MatchState
    decreases |pairs|
  {
    if pairs == [] then st else Forward(ForwardPair(st, pairs[0], op, resources, checkThread), pairs[1..], op, resources, checkThread)
  }

  function Backward(st: MatchState, pairs: seq<NamePair>, op: MatchOp, checkThread: bool): MatchState
    decreases |pairs|
  {
    if pairs == [] then st else Backward(BackwardPair(st, pairs[0], op, checkThread), pairs[1..], op, checkThread)
  }

  function Symmetric(st: MatchState, pairs: seq<NamePair>, op: MatchOp, resources: seq<Res>, checkThread: bool): MatchState
    decreases |pairs|
  {
    if pairs == [] then st else Symmetric(SymmetricPair(st, pairs[0], op, resources, checkThread), pairs[1..], op, resources, checkThread)
  }

  /** The three matchers in the order the builder runs them. */
  function MatchAll(st: MatchState, op: MatchOp, tables: RelationTables, resources: seq<Res>, checkThread: bool): MatchState
  {
    Symmetric(Backward(Forward(st, tables.forward, op, resources, checkThread), tables.backward, op, checkThread),
              tables.symmetric, op, resources, checkThread)
  }

  /** add_operation_to_mascm: match within the operation's thread, then append it to mascm.o. */
  function AddOperation(st: MatchState, op: MatchOp, tables: RelationTables, resources: seq<Res>): MatchState
  {
    var s := MatchAll(st, op, tables, resources, true);
    s.(operations := s.operations + [op])
  }

  /** The inner loop of find_multithreaded_relations: every operation, across threads. */
  function MatchOps(st: MatchState, ops: seq<MatchOp>, tables: RelationTables, resources: seq<Res>): MatchState
    decreases |ops|
  {
    if ops == [] then st else MatchOps(MatchAll(st, ops[0], tables, resources, false), ops[1..], tables, resources)
  }

  /** One time unit: the operations of the two threads of each combination, first thread first. */
  function MatchPairs(st: MatchState, combos: seq<(seq<MatchOp>, seq<MatchOp>)>, tables: RelationTables, resources: seq<Res>): MatchState
    decreases |combos|
  {
    if combos == [] then st
    else MatchPairs(MatchOps(st, combos[0].0 + combos[0].1, tables, resources), combos[1..], tables, resources)
  }

  /** A time unit lists its threads, each given by its operations. */
  type ThreadUnit = seq<seq<MatchOp>>

  function MatchUnits(st: MatchState, units: seq<ThreadUnit>, tables: RelationTables, resources: seq<Res>): MatchState
    decreases |units|
  {
    if units == [] then st
    else MatchUnits(MatchPairs(st, Combinations2(units[0]), tables, resources), units[1..], tables, resources)
  }

  /** The time units with more than one thread. */
  function MultiThreaded(units: seq<ThreadUnit>): seq<ThreadUnit>
  {
    Filter(units, (u: ThreadUnit) => |u| > 1)
  }

  /** find_multithreaded_relations. */
  function FindMultithreaded(st: MatchState, units: seq<ThreadUnit>, tables: RelationTables, resources: seq<Res>): MatchState
  {
    MatchUnits(st, MultiThreaded(units), tables, resources)
  }

  // ---------------------------------------------------------------------------
  // Invariants of the matcher state

  /** No two relations of the list start at the same operation. */
  predicate DistinctFirsts(rels: seq<Relation>)
  {
    forall i, j :: 0 <= i < j < |rels| ==> rels[i].0 != rels[j].0
  }

  predicate NoRepeats<T(==)>(s: seq<T>)
  {
    forall i, j :: 0 <= i < j < |s| ==> s[i] != s[j]
  }

  /**
   * What the matchers keep: each operation opens at most one relation of each kind, and
   * the forward handler never holds the same entry twice (the symmetric one may).
   */
  predicate Inv(st: MatchState)
  {
    DistinctFirsts(st.relations.forward) && DistinctFirsts(st.relations.backward) &&
    DistinctFirsts(st.relations.symmetric) && NoRepeats(st.forwardHandler)
  }

  lemma DistinctFirstsSnoc(rels: seq<Relation>, a: Op, b: Op)
    requires DistinctFirsts(rels) && !HasFirst(rels, a)
    ensures DistinctFirsts(rels + [(a, b)])
  {
  }

  lemma RemoveAtFacts<T>(s: seq<T>, k: nat)
    requires k < |s|
    ensures NoRepeats(s) ==> NoRepeats(RemoveAt(s, k))
    ensures forall x :: x in RemoveAt(s, k) ==> x in s
  {
    var r := RemoveAt(s, k);
    assert forall i :: 0 <= i < |r| ==> r[i] == s[if i < k then i else i + 1];
  }

  /** The relations after are those before followed by new ones. */
  ghost predicate Extends(before: seq<Relation>, after: seq<Relation>)
  {
    |before| <= |after| && after[..|before|] == before
  }

  /** Operation o may open a relation (a, op): it is a, shares what it must with op, and is of op's thread if asked. */
  predicate Eligible(o: MatchOp, op: MatchOp, a: Op, resources: seq<Res>, localResource: bool, checkThread: bool)
  {
    o.id == a && IsResourceShared(o, op, resources, localResource) && (checkThread ==> o.id.thread == op.id.thread)
  }

  /** a is the operation of an eligible entry of h, or of op itself (queued by the same call). */
  ghost predicate OpenedFrom(h: seq<Pending>, op: MatchOp, a: Op, resources: seq<Res>, localResource: bool, checkThread: bool)
  {
    Eligible(op, op, a, resources, localResource, checkThread) ||
    exists d :: d in h && Eligible(d.op, op, a, resources, localResource, checkThread)
  }

  /** Every relation added ends at op and starts at an operation pending in h (or op). */
  ghost predicate AddedFrom(before: seq<Relation>, after: seq<Relation>, h: seq<Pending>, op: MatchOp,
                            resources: seq<Res>, localResource: bool, checkThread: bool)
  {
    Extends(before, after) &&
    forall k :: |before| <= k < |after| ==>
      after[k].1 == op.id && OpenedFrom(h, op, after[k].0, resources, localResource, checkThread)
  }

  /** The backward counterpart: no resource condition, the opener is a stored operation or op. */
  ghost predicate BackwardAddedFrom(before: seq<Relation>, after: seq<Relation>, h: map<NamePair, MatchOp>,
                                    op: MatchOp, checkThread: bool)
  {
    Extends(before, after) &&
    forall k :: |before| <= k < |after| ==>
      after[k].1 == op.id &&
      ((after[k].0 == op.id) ||
       exists p :: p in h && h[p].id == after[k].0 && (checkThread ==> h[p].id.thread == op.id.thread))
  }

  // ---------------------------------------------------------------------------
  // The forward matcher

  lemma ForwardPairFacts(st0: MatchState, st: MatchState, pair: NamePair, op: MatchOp, resources: seq<Res>, checkThread: bool)
    requires AddedFrom(st0.relations.forward, st.relations.forward, st0.forwardHandler, op, resources, false, checkThread)
    requires forall d :: d in st.forwardHandler ==> d in st0.forwardHandler || d.op == op
    ensures var r := ForwardPair(st, pair, op, resources, checkThread);
      AddedFrom(st0.relations.forward, r.relations.forward, st0.forwardHandler, op, resources, false, checkThread) &&
      (forall d :: d in r.forwardHandler ==> d in st0.forwardHandler || d.op == op) &&
      r.(forwardHandler := st.forwardHandler, relations := r.relations.(forward := st.relations.forward)) == st &&
      (Inv(st) ==> Inv(r))
  {
    var h := st.forwardHandler;
    if NameIs(op.name, pair.0) && Pending(pair, op) !in h {
    } else if NameIs(op.name, pair.1) {
      var k := FirstWhere(h, (d: Pending) => NameIs(d.pair.1, pair.1));
      if k < |h| {
        var data := h[k];
        if IsResourceShared(data.op, op, resources, false) &&
           !(checkThread && data.op.id.thread != op.id.thread) &&
           !HasFirst(st.relations.forward, data.op.id) {
          ForwardCloseFacts(st0, st, op, k, resources, checkThread);
        }
      }
    }
  }

  /** Relating the k-th pending entry to op keeps what the forward matcher promises. */
  lemma ForwardCloseFacts(st0: MatchState, st: MatchState, op: MatchOp, k: nat, resources: seq<Res>, checkThread: bool)
    requires k < |st.forwardHandler|
    requires AddedFrom(st0.relations.forward, st.relations.forward, st0.forwardHandler, op, resources, false, checkThread)
    requires forall d :: d in st.forwardHandler ==> d in st0.forwardHandler || d.op == op
    requires var data := st.forwardHandler[k];
             IsResourceShared(data.op, op, resources, false) &&
             !(checkThread && data.op.id.thread != op.id.thread) &&
             !HasFirst(st.relations.forward, data.op.id)
    ensures var data := st.forwardHandler[k];
      var r := st.(relations := st.relations.(forward := st.relations.forward + [(data.op.id, op.id)]),
                   forwardHandler := RemoveAt(st.forwardHandler, k));
      AddedFrom(st0.relations.forward, r.relations.forward, st0.forwardHandler, op, resources, false, checkThread) &&
      (forall d :: d in r.forwardHandler ==> d in st0.forwardHandler || d.op == op) &&
      (Inv(st) ==> Inv(r))
  {
    var h := st.forwardHandler;
    var data := h[k];
    RemoveAtFacts(h, k);
    var before := st0.relations.forward;
    var after := st.relations.forward + [(data.op.id, op.id)];
    assert after[..|before|] == st.relations.forward[..|before|];
    assert OpenedFrom(st0.forwardHandler, op, data.op.id, resources, false, checkThread) by {
      if data.op != op {
        assert data in st0.forwardHandler;
      }
    }
    if DistinctFirsts(st.relations.forward) {
      DistinctFirstsSnoc(st.relations.forward, data.op.id, op.id);
    }
  }

  lemma {:induction false} ForwardFacts(st0: MatchState, st: MatchState, pairs: seq<NamePair>, op: MatchOp, resources: seq<Res>, checkThread: bool)
    requires AddedFrom(st0.relations.forward, st.relations.forward, st0.forwardHandler, op, resources, false, checkThread)
    requires forall d :: d in st.forwardHandler ==> d in st0.forwardHandler || d.op == op
    ensures var r := Forward(st, pairs, op, resources, checkThread);
      AddedFrom(st0.relations.forward, r.relations.forward, st0.forwardHandler, op, resources, false, checkThread) &&
      r.(forwardHandler := st.forwardHandler, relations := r.relations.(forward := st.relations.forward)) == st &&
      (Inv(st) ==> Inv(r))
    decreases |pairs|
  {
    if pairs != [] {
      ForwardPairFacts(st0, st, pairs[0], op, resources, checkThread);
      ForwardFacts(st0, ForwardPair(st, pairs[0], op, resources, checkThread), pairs[1..], op, resources, checkThread);
    }
  }

  lemma AddedFromNothing(rels: seq<Relation>, h: seq<Pending>, op: MatchOp, resources: seq<Res>, localResource: bool, checkThread: bool)
    ensures AddedFrom(rels, rels, h, op, resources, localResource, checkThread)
  {
    assert rels[..|rels|] == rels;
  }

  /**
   * The forward matcher changes only the forward handler and the forward relations, keeps
   * the invariant, and every relation it adds ends at the operation and starts at an
   * operation that was pending (or is the operation itself) and shares a listed resource
   * with it, in its thread when checkThread is set.
   */
  lemma ForwardSpec(st: MatchState, pairs: seq<NamePair>, op: MatchOp, resources: seq<Res>, checkThread: bool)
    ensures var r := Forward(st, pairs, op, resources, checkThread);
      AddedFrom(st.relations.forward, r.relations.forward, st.forwardHandler, op, resources, false, checkThread) &&
      r.backwardHandler == st.backwardHandler && r.symmetricHandler == st.symmetricHandler &&
      r.relations.backward == st.relations.backward && r.relations.symmetric == st.relations.symmetric &&
      r.operations == st.operations &&
      (Inv(st) ==> Inv(r))
  {
    AddedFromNothing(st.relations.forward, st.forwardHandler, op, resources, false, checkThread);
    ForwardFacts(st, st, pairs, op, resources, checkThread);
  }

  // ---------------------------------------------------------------------------
  // The backward matcher

  lemma BackwardPairFacts(st0: MatchState, st: MatchState, pair: NamePair, op: MatchOp, checkThread: bool)
    requires BackwardAddedFrom(st0.relations.backward, st.relations.backward, st0.backwardHandler, op, checkThread)
    requires forall p :: p in st.backwardHandler ==> st.backwardHandler[p] == op || (p in st0.backwardHandler && st0.backwardHandler[p] == st.backwardHandler[p])
    ensures var r := BackwardPair(st, pair, op, checkThread);
      BackwardAddedFrom(st0.relations.backward, r.relations.backward, st0.backwardHandler, op, checkThread) &&
      (forall p :: p in r.backwardHandler ==> r.backwardHandler[p] == op || (p in st0.backwardHandler && st0.backwardHandler[p] == r.backwardHandler[p])) &&
      r.(backwardHandler := st.backwardHandler, relations := r.relations.(backward := st.relations.backward)) == st &&
      (Inv(st) ==> Inv(r))
  {
    var h := st.backwardHandler;
    if NameIs(op.name, pair.0) {
    } else if NameIs(op.name, pair.1) && pair in h {
      var first := h[pair];
      if !(checkThread && first.id.thread != op.id.thread) && !HasFirst(st.relations.backward, first.id) {
        BackwardCloseFacts(st0, st, pair, op, checkThread);
      }
    }
  }

  /** Relating the stored opener of the pair to op keeps what the backward matcher promises. */
  lemma BackwardCloseFacts(st0: MatchState, st: MatchState, pair: NamePair, op: MatchOp, checkThread: bool)
    requires pair in st.backwardHandler
    requires BackwardAddedFrom(st0.relations.backward, st.relations.backward, st0.backwardHandler, op, checkThread)
    requires forall p :: p in st.backwardHandler ==> st.backwardHandler[p] == op || (p in st0.backwardHandler && st0.backwardHandler[p] == st.backwardHandler[p])
    requires var first := st.backwardHandler[pair];
             !(checkThread && first.id.thread != op.id.thread) && !HasFirst(st.relations.backward, first.id)
    ensures var first := st.backwardHandler[pair];
      var r := st.(relations := st.relations.(backward := st.relations.backward + [(first.id, op.id)]),
                   backwardHandler := st.backwardHandler - {pair});
      BackwardAddedFrom(st0.relations.backward, r.relations.backward, st0.backwardHandler, op, checkThread) &&
      (forall p :: p in r.backwardHandler ==> r.backwardHandler[p] == op || (p in st0.backwardHandler && st0.backwardHandler[p] == r.backwardHandler[p])) &&
      (Inv(st) ==> Inv(r))
  {
    var first := st.backwardHandler[pair];
    var before := st0.relations.backward;
    var after := st.relations.backward + [(first.id, op.id)];
    assert after[..|before|] == st.relations.backward[..|before|];
    if first != op {
      assert pair in st0.backwardHandler && st0.backwardHandler[pair].id == first.id;
    }
    if DistinctFirsts(st.relations.backward) {
      DistinctFirstsSnoc(st.relations.backward, first.id, op.id);
    }
  }

  lemma {:induction false} BackwardFacts(st0: MatchState, st: MatchState, pairs: seq<NamePair>, op: MatchOp, checkThread: bool)
    requires BackwardAddedFrom(st0.relations.backward, st.relations.backward, st0.backwardHandler, op, checkThread)
    requires forall p :: p in st.backwardHandler ==> st.backwardHandler[p] == op || (p in st0.backwardHandler && st0.backwardHandler[p] == st.backwardHandler[p])
    ensures var r := Backward(st, pairs, op, checkThread);
      BackwardAddedFrom(st0.relations.backward, r.relations.backward, st0.backwardHandler, op, checkThread) &&
      r.(backwardHandler := st.backwardHandler, relations := r.relations.(backward := st.relations.backward)) == st &&
      (Inv(st) ==> Inv(r))
    decreases |pairs|
  {
    if pairs != [] {
      BackwardPairFacts(st0, st, pairs[0], op, checkThread);
      BackwardFacts(st0, BackwardPair(st, pairs[0], op, checkThread), pairs[1..], op, checkThread);
    }
  }

  /**
   * The backward matcher changes only the backward handler and relations, keeps the
   * invariant, and every relation it adds ends at the operation and starts at a stored
   * opener (or the operation itself), in its thread when checkThread is set; unlike the
   * other two it asks for no shared resource.
   */
  lemma BackwardSpec(st: MatchState, pairs: seq<NamePair>, op: MatchOp, checkThread: bool)
    ensures var r := Backward(st, pairs, op, checkThread);
      BackwardAddedFrom(st.relations.backward, r.relations.backward, st.backwardHandler, op, checkThread) &&
      r.forwardHandler == st.forwardHandler && r.symmetricHandler == st.symmetricHandler &&
      r.relations.forward == st.relations.forward && r.relations.symmetric == st.relations.symmetric &&
      r.operations == st.operations &&
      (Inv(st) ==> Inv(r))
  {
    assert st.relations.backward[..|st.relations.backward|] == st.relations.backward;
    BackwardFacts(st, st, pairs, op, checkThread);
  }

  // ---------------------------------------------------------------------------
  // The symmetric matcher

  lemma SymmetricPairFacts(st0: MatchState, st: MatchState, pair: NamePair, op: MatchOp, resources: seq<Res>, checkThread: bool)
    requires AddedFrom(st0.relations.symmetric, st.relations.symmetric, st0.symmetricHandler, op, resources, true, checkThread)
    requires forall d :: d in st.symmetricHandler ==> d in st0.symmetricHandler || d.op == op
    ensures var r := SymmetricPair(st, pair, op, resources, checkThread);
      AddedFrom(st0.relations.symmetric, r.relations.symmetric, st0.symmetricHandler, op, resources, true, checkThread) &&
      (forall d :: d in r.symmetricHandler ==> d in st0.symmetricHandler || d.op == op) &&
      r.(symmetricHandler := st.symmetricHandler, relations := r.relations.(symmetric := st.relations.symmetric)) == st &&
      (Inv(st) ==> Inv(r))
  {
    var st1 := SymmetricOpen(st, pair, op);
    SymmetricOpenFacts(st0, st, pair, op);
    if NameIs(op.name, pair.1) {
      var h := st1.symmetricHandler;
      var k := FirstWhere(h, (d: Pending) => Answers(d, pair));
      if k < |h| {
        var data := h[k];
        if IsResourceShared(data.op, op, resources, true) &&
           !(checkThread && data.op.id.thread != op.id.thread) &&
           !HasFirst(st1.relations.symmetric, data.op.id) {
          SymmetricCloseFacts(st0, st1, op, k, resources, checkThread);
        }
      }
    }
  }

  /** Queuing an opener adds only entries of op and leaves everything but the handler alone. */
  lemma SymmetricOpenFacts(st0: MatchState, st: MatchState, pair: NamePair, op: MatchOp)
    requires forall d :: d in st.symmetricHandler ==> d in st0.symmetricHandler || d.op == op
    ensures var st1 := SymmetricOpen(st, pair, op);
      st1.(symmetricHandler := st.symmetricHandler) == st &&
      (forall d :: d in st1.symmetricHandler ==> d in st0.symmetricHandler || d.op == op)
  {
  }

  /** Relating the k-th pending entry to op keeps what the symmetric matcher promises. */
  lemma SymmetricCloseFacts(st0: MatchState, st1: MatchState, op: MatchOp, k: nat, resources: seq<Res>, checkThread: bool)
    requires k < |st1.symmetricHandler|
    requires AddedFrom(st0.relations.symmetric, st1.relations.symmetric, st0.symmetricHandler, op, resources, true, checkThread)
    requires forall d :: d in st1.symmetricHandler ==> d in st0.symmetricHandler || d.op == op
    requires var data := st1.symmetricHandler[k];
             IsResourceShared(data.op, op, resources, true) &&
             !(checkThread && data.op.id.thread != op.id.thread) &&
             !HasFirst(st1.relations.symmetric, data.op.id)
    ensures var data := st1.symmetricHandler[k];
      var r := st1.(relations := st1.relations.(symmetric := st1.relations.symmetric + [(data.op.id, op.id)]),
                    symmetricHandler := RemoveAt(st1.symmetricHandler, k));
      AddedFrom(st0.relations.symmetric, r.relations.symmetric, st0.symmetricHandler, op, resources, true, checkThread) &&
      (forall d :: d in r.symmetricHandler ==> d in st0.symmetricHandler || d.op == op) &&
      (Inv(st1) ==> Inv(r))
  {
    var h := st1.symmetricHandler;
    var data := h[k];
    RemoveAtFacts(h, k);
    var before := st0.relations.symmetric;
    assert (st1.relations.symmetric + [(data.op.id, op.id)])[..|before|] == st1.relations.symmetric[..|before|];
    assert OpenedFrom(st0.symmetricHandler, op, data.op.id, resources, true, checkThread) by {
      if data.op != op {
        assert data in st0.symmetricHandler;
      }
    }
    if DistinctFirsts(st1.relations.symmetric) {
      DistinctFirstsSnoc(st1.relations.symmetric, data.op.id, op.id);
    }
  }

  lemma {:induction false} SymmetricFacts(st0: MatchState, st: MatchState, pairs: seq<NamePair>, op: MatchOp, resources: seq<Res>, checkThread: bool)
    requires AddedFrom(st0.relations.symmetric, st.relations.symmetric, st0.symmetricHandler, op, resources, true, checkThread)
    requires forall d :: d in st.symmetricHandler ==> d in st0.symmetricHandler || d.op == op
    ensures var r := Symmetric(st, pairs, op, resources, checkThread);
      AddedFrom(st0.relations.symmetric, r.relations.symmetric, st0.symmetricHandler, op, resources, true, checkThread) &&
      r.(symmetricHandler := st.symmetricHandler, relations := r.relations.(symmetric := st.relations.symmetric)) == st &&
      (Inv(st) ==> Inv(r))
    decreases |pairs|
  {
    if pairs != [] {
      SymmetricPairFacts(st0, st, pairs[0], op, resources, checkThread);
      SymmetricFacts(st0, SymmetricPair(st, pairs[0], op, resources, checkThread), pairs[1..], op, resources, checkThread);
    }
  }

  /**
   * The symmetric matcher changes only the symmetric handler and relations, keeps the
   * invariant, and every relation it adds ends at the operation and starts at a pending
   * operation (or the operation itself) that shares a listed resource or an argument
   * with it, in its thread when checkThread is set.
   */
  lemma SymmetricSpec(st: MatchState, pairs: seq<NamePair>, op: MatchOp, resources: seq<Res>, checkThread: bool)
    ensures var r := Symmetric(st, pairs, op, resources, checkThread);
      AddedFrom(st.relations.symmetric, r.relations.symmetric, st.symmetricHandler, op, resources, true, checkThread) &&
      r.forwardHandler == st.forwardHandler && r.backwardHandler == st.backwardHandler &&
      r.relations.forward == st.relations.forward && r.relations.backward == st.relations.backward &&
      r.operations == st.operations &&
      (Inv(st) ==> Inv(r))
  {
    AddedFromNothing(st.relations.symmetric, st.symmetricHandler, op, resources, true, checkThread);
    SymmetricFacts(st, st, pairs, op, resources, checkThread);
  }

  // ---------------------------------------------------------------------------
  // Adding operations and matching across threads

  /**
   * All three matchers: each relation list grows only by sound relations ending at op,
   * and running the matchers one after the other is the same as running each alone on
   * the state before the operation: each handler and relation list ends up as its own
   * matcher leaves it.
   */
  lemma MatchAllSpec(st: MatchState, op: MatchOp, tables: RelationTables, resources: seq<Res>, checkThread: bool)
    ensures var r := MatchAll(st, op, tables, resources, checkThread);
      AddedFrom(st.relations.forward, r.relations.forward, st.forwardHandler, op, resources, false, checkThread) &&
      BackwardAddedFrom(st.relations.backward, r.relations.backward, st.backwardHandler, op, checkThread) &&
      AddedFrom(st.relations.symmetric, r.relations.symmetric, st.symmetricHandler, op, resources, true, checkThread) &&
      r.operations == st.operations &&
      (Inv(st) ==> Inv(r))
    ensures var r := MatchAll(st, op, tables, resources, checkThread);
      var f := Forward(st, tables.forward, op, resources, checkThread);
      var b := Backward(st, tables.backward, op, checkThread);
      var s := Symmetric(st, tables.symmetric, op, resources, checkThread);
      r.forwardHandler == f.forwardHandler && r.relations.forward == f.relations.forward &&
      r.backwardHandler == b.backwardHandler && r.relations.backward == b.relations.backward &&
      r.symmetricHandler == s.symmetricHandler && r.relations.symmetric == s.relations.symmetric
  {
    var s1 := Forward(st, tables.forward, op, resources, checkThread);
    var s2 := Backward(s1, tables.backward, op, checkThread);
    ForwardSpec(st, tables.forward, op, resources, checkThread);
    BackwardSpec(s1, tables.backward, op, checkThread);
    SymmetricSpec(s2, tables.symmetric, op, resources, checkThread);
    BackwardLocal(s1, st, tables.backward, op, checkThread);
    SymmetricLocal(s2, st, tables.symmetric, op, resources, checkThread);
  }

  /**
   * add_operation_to_mascm appends the operation to mascm.o after matching it within its
   * own thread, and keeps the invariant; each relation list is what its own matcher alone
   * makes of the state before the operation.
   */
  lemma AddOperationSpec(st: MatchState, op: MatchOp, tables: RelationTables, resources: seq<Res>)
    ensures var r := AddOperation(st, op, tables, resources);
      r.operations == st.operations + [op] &&
      AddedFrom(st.relations.forward, r.relations.forward, st.forwardHandler, op, resources, false, true) &&
      BackwardAddedFrom(st.relations.backward, r.relations.backward, st.backwardHandler, op, true) &&
      AddedFrom(st.relations.symmetric, r.relations.symmetric, st.symmetricHandler, op, resources, true, true) &&
      (Inv(st) ==> Inv(r))
    ensures var r := AddOperation(st, op, tables, resources);
      r.relations.forward == Forward(st, tables.forward, op, resources, true).relations.forward &&
      r.relations.backward == Backward(st, tables.backward, op, true).relations.backward &&
      r.relations.symmetric == Symmetric(st, tables.symmetric, op, resources, true).relations.symmetric
  {
    MatchAllSpec(st, op, tables, resources, true);
  }

  lemma {:induction false} MatchOpsInv(st: MatchState, ops: seq<MatchOp>, tables: RelationTables, resources: seq<Res>)
    requires Inv(st)
    ensures Inv(MatchOps(st, ops, tables, resources)) && MatchOps(st, ops, tables, resources).operations == st.operations
    decreases |ops|
  {
    if ops != [] {
      MatchAllSpec(st, ops[0], tables, resources, false);
      MatchOpsInv(MatchAll(st, ops[0], tables, resources, false), ops[1..], tables, resources);
    }
  }

  lemma {:induction false} MatchPairsInv(st: MatchState, combos: seq<(seq<MatchOp>, seq<MatchOp>)>, tables: RelationTables, resources: seq<Res>)
    requires Inv(st)
    ensures Inv(MatchPairs(st, combos, tables, resources)) && MatchPairs(st, combos, tables, resources).operations == st.operations
    decreases |combos|
  {
    if combos != [] {
      MatchOpsInv(st, combos[0].0 + combos[0].1, tables, resources);
      MatchPairsInv(MatchOps(st, combos[0].0 + combos[0].1, tables, resources), combos[1..], tables, resources);
    }
  }

  lemma {:induction false} MatchUnitsInv(st: MatchState, units: seq<ThreadUnit>, tables: RelationTables, resources: seq<Res>)
    requires Inv(st)
    ensures Inv(MatchUnits(st, units, tables, resources)) && MatchUnits(st, units, tables, resources).operations == st.operations
    decreases |units|
  {
    if units != [] {
      MatchPairsInv(st, Combinations2(units[0]), tables, resources);
      MatchUnitsInv(MatchPairs(st, Combinations2(units[0]), tables, resources), units[1..], tables, resources);
    }
  }

  /**
   * find_multithreaded_relations keeps the invariant and mascm.o, and changes nothing at
   * all when no time unit has more than one thread.
   */
  lemma FindMultithreadedSpec(st: MatchState, units: seq<ThreadUnit>, tables: RelationTables, resources: seq<Res>)
    ensures Inv(st) ==> Inv(FindMultithreaded(st, units, tables, resources))
    ensures FindMultithreaded(st, units, tables, resources).operations == st.operations
    ensures (forall i :: 0 <= i < |units| ==> |units[i]| <= 1) ==> FindMultithreaded(st, units, tables, resources) == st
  {
    if Inv(st) {
      MatchUnitsInv(st, MultiThreaded(units), tables, resources);
    }
    MatchUnitsOperations(st, MultiThreaded(units), tables, resources);
    if forall i :: 0 <= i < |units| ==> |units[i]| <= 1 {
      assert MultiThreaded(units) == [];
    }
  }

  lemma {:induction false} MatchUnitsOperations(st: MatchState, units: seq<ThreadUnit>, tables: RelationTables, resources: seq<Res>)
    ensures MatchUnits(st, units, tables, resources).operations == st.operations
    decreases |units|
  {
    if units != [] {
      MatchPairsOperations(st, Combinations2(units[0]), tables, resources);
      MatchUnitsOperations(MatchPairs(st, Combinations2(units[0]), tables, resources), units[1..], tables, resources);
    }
  }

  lemma {:induction false} MatchPairsOperations(st: MatchState, combos: seq<(seq<MatchOp>, seq<MatchOp>)>, tables: RelationTables, resources: seq<Res>)
    ensures MatchPairs(st, combos, tables, resources).operations == st.operations
    decreases |combos|
  {
    if combos != [] {
      MatchOpsOperations(st, combos[0].0 + combos[0].1, tables, resources);
      MatchPairsOperations(MatchOps(st, combos[0].0 + combos[0].1, tables, resources), combos[1..], tables, resources);
    }
  }

  lemma {:induction false} MatchOpsOperations(st: MatchState, ops: seq<MatchOp>, tables: RelationTables, resources: seq<Res>)
    ensures MatchOps(st, ops, tables, resources).operations == st.operations
    decreases |ops|
  {
    if ops != [] {
      MatchAllSpec(st, ops[0], tables, resources, false);
      MatchOpsOperations(MatchAll(st, ops[0], tables, resources, false), ops[1..], tables, resources);
    }
  }

  // ---------------------------------------------------------------------------
  // Only operations that name a function of a table touch its matcher

  /** The operation's name is neither opener nor closer of any pair. */
  predicate Unnamed(op: MatchOp, pairs: seq<NamePair>)
  {
    forall i :: 0 <= i < |pairs| ==> !NameIs(op.name, pairs[i].0) && !NameIs(op.name, pairs[i].1)
  }

  lemma {:induction false} UnnamedForward(st: MatchState, pairs: seq<NamePair>, op: MatchOp, resources: seq<Res>, checkThread: bool)
    requires Unnamed(op, pairs)
    ensures Forward(st, pairs, op, resources, checkThread) == st
    decreases |pairs|
  {
    if pairs != [] {
      assert !NameIs(op.name, pairs[0].0) && !NameIs(op.name, pairs[0].1);
      UnnamedForward(st, pairs[1..], op, resources, checkThread);
    }
  }

  lemma {:induction false} UnnamedBackward(st: MatchState, pairs: seq<NamePair>, op: MatchOp, checkThread: bool)
    requires Unnamed(op, pairs)
    ensures Backward(st, pairs, op, checkThread) == st
    decreases |pairs|
  {
    if pairs != [] {
      assert !NameIs(op.name, pairs[0].0) && !NameIs(op.name, pairs[0].1);
      UnnamedBackward(st, pairs[1..], op, checkThread);
    }
  }

  lemma {:induction false} UnnamedSymmetric(st: MatchState, pairs: seq<NamePair>, op: MatchOp, resources: seq<Res>, checkThread: bool)
    requires Unnamed(op, pairs)
    ensures Symmetric(st, pairs, op, resources, checkThread) == st
    decreases |pairs|
  {
    if pairs != [] {
      assert !NameIs(op.name, pairs[0].0) && !NameIs(op.name, pairs[0].1);
      UnnamedSymmetric(st, pairs[1..], op, resources, checkThread);
    }
  }

  /** An operation that names no function of any table leaves every handler and relation as it was. */
  lemma UnnamedMatchesNothing(st: MatchState, op: MatchOp, tables: RelationTables, resources: seq<Res>, checkThread: bool)
    requires Unnamed(op, tables.forward) && Unnamed(op, tables.backward) && Unnamed(op, tables.symmetric)
    ensures MatchAll(st, op, tables, resources, checkThread) == st
  {
    UnnamedForward(st, tables.forward, op, resources, checkThread);
    UnnamedBackward(st, tables.backward, op, checkThread);
    UnnamedSymmetric(st, tables.symmetric, op, resources, checkThread);
  }

  // ---------------------------------------------------------------------------
  // What each pair does, case by case, stated without the matchers' own searches

  /** A pending entry waits for the pair's closer (the forward matcher's test). */
  predicate AwaitsCloser(d: Pending, pair: NamePair)
  {
    NameIs(d.pair.1, pair.1)
  }

  /** Entry k is the first pending entry waiting for the pair's closer. */
  predicate FirstAwaiting(h: seq<Pending>, pair: NamePair, k: nat)
  {
    k < |h| && AwaitsCloser(h[k], pair) && forall j :: 0 <= j < k ==> !AwaitsCloser(h[j], pair)
  }

  /** Entry k is the first pending entry answering the pair (the symmetric matcher's test). */
  predicate FirstAnswering(h: seq<Pending>, pair: NamePair, k: nat)
  {
    k < |h| && Answers(h[k], pair) && forall j :: 0 <= j < k ==> !Answers(h[j], pair)
  }

  /** The three conditions under which a found opener is related to the operation. */
  predicate MayRelate(opener: MatchOp, op: MatchOp, resources: seq<Res>, localResource: bool, checkThread: bool, rels: seq<Relation>)
  {
    IsResourceShared(opener, op, resources, localResource) &&
    !(checkThread && opener.id.thread != op.id.thread) &&
    !HasFirst(rels, opener.id)
  }

  /** A forward opener with no identical pending entry is queued at the end, and nothing else changes. */
  lemma ForwardOpenerQueued(st: MatchState, pair: NamePair, op: MatchOp, resources: seq<Res>, checkThread: bool)
    requires NameIs(op.name, pair.0) && Pending(pair, op) !in st.forwardHandler
    ensures ForwardPair(st, pair, op, resources, checkThread) ==
            st.(forwardHandler := st.forwardHandler + [Pending(pair, op)])
  {
  }

  /**
   * A forward closer (that is not queued as an opener) is related to the first pending
   * entry waiting for its name exactly when the three conditions hold; the relation is
   * appended and that entry, and only that one, leaves the queue. Otherwise nothing changes.
   */
  lemma ForwardCloserRelates(st: MatchState, pair: NamePair, op: MatchOp, resources: seq<Res>, checkThread: bool, k: nat)
    requires !(NameIs(op.name, pair.0) && Pending(pair, op) !in st.forwardHandler) && NameIs(op.name, pair.1)
    requires FirstAwaiting(st.forwardHandler, pair, k)
    ensures var h := st.forwardHandler;
            var r := ForwardPair(st, pair, op, resources, checkThread);
            if MayRelate(h[k].op, op, resources, false, checkThread, st.relations.forward)
            then r == st.(relations := st.relations.(forward := st.relations.forward + [(h[k].op.id, op.id)]),
                          forwardHandler := h[..k] + h[k + 1..])
            else r == st
  {
    FirstWhereIs(st.forwardHandler, (d: Pending) => NameIs(d.pair.1, pair.1), k);
  }

  /** A forward closer with no pending entry waiting for its name changes nothing. */
  lemma ForwardCloserUnmatched(st: MatchState, pair: NamePair, op: MatchOp, resources: seq<Res>, checkThread: bool)
    requires !(NameIs(op.name, pair.0) && Pending(pair, op) !in st.forwardHandler)
    requires forall j :: 0 <= j < |st.forwardHandler| ==> !AwaitsCloser(st.forwardHandler[j], pair)
    ensures ForwardPair(st, pair, op, resources, checkThread) == st
  {
    var k := FirstWhere(st.forwardHandler, (d: Pending) => NameIs(d.pair.1, pair.1));
    assert k == |st.forwardHandler|;
  }

  /** A backward opener overwrites whatever the pair had stored, and nothing else changes. */
  lemma BackwardOpenerStored(st: MatchState, pair: NamePair, op: MatchOp, checkThread: bool)
    requires NameIs(op.name, pair.0)
    ensures BackwardPair(st, pair, op, checkThread) == st.(backwardHandler := st.backwardHandler[pair := op])
  {
  }

  /**
   * A backward closer with a stored opener is related to it, with no resource test,
   * exactly when they are of one thread (checkThread) and no backward relation starts at
   * the opener; then the pair's key is deleted. Otherwise nothing changes.
   */
  lemma BackwardCloserRelates(st: MatchState, pair: NamePair, op: MatchOp, checkThread: bool)
    requires !NameIs(op.name, pair.0) && NameIs(op.name, pair.1) && pair in st.backwardHandler
    ensures var first := st.backwardHandler[pair];
            var r := BackwardPair(st, pair, op, checkThread);
            if !(checkThread && first.id.thread != op.id.thread) && !HasFirst(st.relations.backward, first.id)
            then r == st.(relations := st.relations.(backward := st.relations.backward + [(first.id, op.id)]),
                          backwardHandler := st.backwardHandler - {pair})
            else r == st
  {
  }

  /** A backward closer with nothing stored for its pair, or an operation naming neither function, changes nothing. */
  lemma BackwardCloserUnmatched(st: MatchState, pair: NamePair, op: MatchOp, checkThread: bool)
    requires !NameIs(op.name, pair.0) && (!NameIs(op.name, pair.1) || pair !in st.backwardHandler)
    ensures BackwardPair(st, pair, op, checkThread) == st
  {
  }

  /** The symmetric queue after the opener test: the operation is appended when it opens the pair. */
  function QueuedSymmetric(st: MatchState, pair: NamePair, op: MatchOp): seq<Pending>
  {
    st.symmetricHandler + if NameIs(op.name, pair.0) then [Pending(pair, op)] else []
  }

  /**
   * A symmetric closer is related to the first entry answering the pair in the queue
   * after the opener test, exactly when the three conditions hold (an argument of the
   * opener used by the closer counts as shared); that entry leaves the queue.
   */
  lemma SymmetricCloserRelates(st: MatchState, pair: NamePair, op: MatchOp, resources: seq<Res>, checkThread: bool, k: nat)
    requires NameIs(op.name, pair.1) && FirstAnswering(QueuedSymmetric(st, pair, op), pair, k)
    ensures var h := QueuedSymmetric(st, pair, op);
            var r := SymmetricPair(st, pair, op, resources, checkThread);
            if MayRelate(h[k].op, op, resources, true, checkThread, st.relations.symmetric)
            then r == st.(relations := st.relations.(symmetric := st.relations.symmetric + [(h[k].op.id, op.id)]),
                          symmetricHandler := h[..k] + h[k + 1..])
            else r == st.(symmetricHandler := h)
  {
    assert SymmetricOpen(st, pair, op) == st.(symmetricHandler := QueuedSymmetric(st, pair, op));
    FirstWhereIs(QueuedSymmetric(st, pair, op), (d: Pending) => Answers(d, pair), k);
  }

  /** A symmetric call that closes nothing keeps only the opener test's effect. */
  lemma SymmetricCloserUnmatched(st: MatchState, pair: NamePair, op: MatchOp, resources: seq<Res>, checkThread: bool)
    requires var h := QueuedSymmetric(st, pair, op);
             !NameIs(op.name, pair.1) || forall j :: 0 <= j < |h| ==> !Answers(h[j], pair)
    ensures SymmetricPair(st, pair, op, resources, checkThread) == st.(symmetricHandler := QueuedSymmetric(st, pair, op))
  {
    assert SymmetricOpen(st, pair, op) == st.(symmetricHandler := QueuedSymmetric(st, pair, op));
    if NameIs(op.name, pair.1) {
      var h := QueuedSymmetric(st, pair, op);
      var k := FirstWhere(h, (d: Pending) => Answers(d, pair));
      assert k == |h|;
    }
  }

  /**
   * One symmetric call can close one pending pair and queue a new one: an operation
   * naming both functions of the pair relates the first earlier entry answering it and
   * is itself left pending at the end of the queue.
   */
  lemma SymmetricClosesAndQueues(st: MatchState, pair: NamePair, op: MatchOp, resources: seq<Res>, checkThread: bool, k: nat)
    requires NameIs(op.name, pair.0) && NameIs(op.name, pair.1)
    requires FirstAnswering(st.symmetricHandler, pair, k)
    requires MayRelate(st.symmetricHandler[k].op, op, resources, true, checkThread, st.relations.symmetric)
    ensures var r := SymmetricPair(st, pair, op, resources, checkThread);
            var h := st.symmetricHandler;
            r.symmetricHandler == h[..k] + h[k + 1..] + [Pending(pair, op)] &&
            r.relations.symmetric == st.relations.symmetric + [(h[k].op.id, op.id)]
  {
    var h := st.symmetricHandler;
    var h1 := QueuedSymmetric(st, pair, op);
    assert h1 == h + [Pending(pair, op)];
    assert FirstAnswering(h1, pair, k) by {
      assert forall j :: 0 <= j <= k ==> h1[j] == h[j];
    }
    SymmetricCloserRelates(st, pair, op, resources, checkThread, k);
    assert h1[..k] + h1[k + 1..] == h[..k] + h[k + 1..] + [Pending(pair, op)];
  }

  // The tables: when only one pair names the operation, the matcher is that pair's step.

  lemma {:induction false} ForwardOnlyPair(st: MatchState, pairs: seq<NamePair>, i: nat, op: MatchOp, resources: seq<Res>, checkThread: bool)
    requires i < |pairs| && Unnamed(op, pairs[..i]) && Unnamed(op, pairs[i + 1..])
    ensures Forward(st, pairs, op, resources, checkThread) == ForwardPair(st, pairs[i], op, resources, checkThread)
    decreases i
  {
    if i == 0 {
      UnnamedForward(ForwardPair(st, pairs[0], op, resources, checkThread), pairs[1..], op, resources, checkThread);
    } else {
      assert pairs[..i][0] == pairs[0];
      assert pairs[1..][..i - 1] == pairs[1..i] && pairs[1..][i - 1 + 1..] == pairs[i + 1..];
      forall j | 0 <= j < i - 1
        ensures !NameIs(op.name, pairs[1..i][j].0) && !NameIs(op.name, pairs[1..i][j].1)
      {
        assert pairs[1..i][j] == pairs[..i][j + 1];
      }
      assert ForwardPair(st, pairs[0], op, resources, checkThread) == st;
      ForwardOnlyPair(st, pairs[1..], i - 1, op, resources, checkThread);
    }
  }

  lemma {:induction false} BackwardOnlyPair(st: MatchState, pairs: seq<NamePair>, i: nat, op: MatchOp, checkThread: bool)
    requires i < |pairs| && Unnamed(op, pairs[..i]) && Unnamed(op, pairs[i + 1..])
    ensures Backward(st, pairs, op, checkThread) == BackwardPair(st, pairs[i], op, checkThread)
    decreases i
  {
    if i == 0 {
      UnnamedBackward(BackwardPair(st, pairs[0], op, checkThread), pairs[1..], op, checkThread);
    } else {
      assert pairs[..i][0] == pairs[0];
      assert pairs[1..][..i - 1] == pairs[1..i] && pairs[1..][i - 1 + 1..] == pairs[i + 1..];
      forall j | 0 <= j < i - 1
        ensures !NameIs(op.name, pairs[1..i][j].0) && !NameIs(op.name, pairs[1..i][j].1)
      {
        assert pairs[1..i][j] == pairs[..i][j + 1];
      }
      assert BackwardPair(st, pairs[0], op, checkThread) == st;
      BackwardOnlyPair(st, pairs[1..], i - 1, op, checkThread);
    }
  }

  lemma {:induction false} SymmetricOnlyPair(st: MatchState, pairs: seq<NamePair>, i: nat, op: MatchOp, resources: seq<Res>, checkThread: bool)
    requires i < |pairs| && Unnamed(op, pairs[..i]) && Unnamed(op, pairs[i + 1..])
    ensures Symmetric(st, pairs, op, resources, checkThread) == SymmetricPair(st, pairs[i], op, resources, checkThread)
    decreases i
  {
    if i == 0 {
      UnnamedSymmetric(SymmetricPair(st, pairs[0], op, resources, checkThread), pairs[1..], op, resources, checkThread);
    } else {
      assert pairs[..i][0] == pairs[0];
      assert pairs[1..][..i - 1] == pairs[1..i] && pairs[1..][i - 1 + 1..] == pairs[i + 1..];
      forall j | 0 <= j < i - 1
        ensures !NameIs(op.name, pairs[1..i][j].0) && !NameIs(op.name, pairs[1..i][j].1)
      {
        assert pairs[1..i][j] == pairs[..i][j + 1];
      }
      assert SymmetricPair(st, pairs[0], op, resources, checkThread) == st;
      SymmetricOnlyPair(st, pairs[1..], i - 1, op, resources, checkThread);
    }
  }

  // Each matcher reads only its own handler and relation list.

  lemma {:induction false} BackwardLocal(s: MatchState, t: MatchState, pairs: seq<NamePair>, op: MatchOp, checkThread: bool)
    requires s.backwardHandler == t.backwardHandler && s.relations.backward == t.relations.backward
    ensures Backward(s, pairs, op, checkThread).backwardHandler == Backward(t, pairs, op, checkThread).backwardHandler
    ensures Backward(s, pairs, op, checkThread).relations.backward == Backward(t, pairs, op, checkThread).relations.backward
    decreases |pairs|
  {
    if pairs != [] {
      BackwardLocal(BackwardPair(s, pairs[0], op, checkThread), BackwardPair(t, pairs[0], op, checkThread), pairs[1..], op, checkThread);
    }
  }

  lemma {:induction false} SymmetricLocal(s: MatchState, t: MatchState, pairs: seq<NamePair>, op: MatchOp, resources: seq<Res>, checkThread: bool)
    requires s.symmetricHandler == t.symmetricHandler && s.relations.symmetric == t.relations.symmetric
    ensures Symmetric(s, pairs, op, resources, checkThread).symmetricHandler == Symmetric(t, pairs, op, resources, checkThread).symmetricHandler
    ensures Symmetric(s, pairs, op, resources, checkThread).relations.symmetric == Symmetric(t, pairs, op, resources, checkThread).relations.symmetric
    decreases |pairs|
  {
    if pairs != [] {
      SymmetricLocal(SymmetricPair(s, pairs[0], op, resources, checkThread), SymmetricPair(t, pairs[0], op, resources, checkThread),
                     pairs[1..], op, resources, checkThread);
    }
  }

  // ---------------------------------------------------------------------------
  // The relation tests of the model builder, in its own terms

  // forward_relation.c: malloc assigns the shared variable (operation 1,4) and free
  // releases it (operation 1,10).
  const SharedVariable: Res := Res(1, {"shared_variable"})
  const MallocOp: MatchOp := MatchOp(Op(1, 4), "malloc", ["size"], {SharedVariable}, {"size"})
  const FreeOp: MatchOp := MatchOp(Op(1, 10), "free", ["shared_variable"], {SharedVariable}, {"shared_variable"})

  /** The forward pairs in either order of the set they come from. */
  predicate EitherForwardOrder(tables: RelationTables)
  {
    (tables.forward == [("calloc", "free"), ("malloc", "free")] || tables.forward == [("malloc", "free"), ("calloc", "free")]) &&
    tables.backward == DefaultTables.backward && tables.symmetric == DefaultTables.symmetric
  }

  lemma MallocNames()
    ensures forall i :: 0 <= i < |DefaultTables.backward| ==> !NameIs(MallocOp.name, DefaultTables.backward[i].1)
    ensures Unnamed(MallocOp, DefaultTables.symmetric)
  {
  }

  lemma FreeNames()
    ensures Unnamed(FreeOp, DefaultTables.backward) && Unnamed(FreeOp, DefaultTables.symmetric)
  {
  }

  lemma MallocQueued(fwd: seq<NamePair>)
    requires fwd == [("calloc", "free"), ("malloc", "free")] || fwd == [("malloc", "free"), ("calloc", "free")]
    ensures Forward(Empty, fwd, MallocOp, [SharedVariable], true) == Empty.(forwardHandler := [Pending(("malloc", "free"), MallocOp)])
  {
    var r := [SharedVariable];
    var a := ForwardPair(Empty, fwd[0], MallocOp, r, true);
    var b := ForwardPair(a, fwd[1], MallocOp, r, true);
    assert fwd[1..][0] == fwd[1] && fwd[1..][1..] == [];
    assert Forward(Empty, fwd, MallocOp, r, true) == Forward(b, [], MallocOp, r, true);
    if fwd[0] == ("calloc", "free") {
      assert a == Empty;
    } else {
      assert a == Empty.(forwardHandler := [Pending(("malloc", "free"), MallocOp)]);
    }
  }

  lemma FreeMatched(st: MatchState, fwd: seq<NamePair>)
    requires fwd == [("calloc", "free"), ("malloc", "free")] || fwd == [("malloc", "free"), ("calloc", "free")]
    requires st.forwardHandler == [Pending(("malloc", "free"), MallocOp)] && st.relations.forward == []
    ensures Forward(st, fwd, FreeOp, [SharedVariable], true).relations.forward == [(Op(1, 4), Op(1, 10))]
  {
    assert fwd[1..][1..] == [];
    assert IsResourceShared(MallocOp, FreeOp, [SharedVariable], false) by {
      assert [SharedVariable][0] in MallocOp.resources && [SharedVariable][0] in FreeOp.resources;
    }
    var a := ForwardPair(st, fwd[0], FreeOp, [SharedVariable], true);
    assert a.relations.forward == [(Op(1, 4), Op(1, 10))] && a.forwardHandler == [];
    assert ForwardPair(a, fwd[1], FreeOp, [SharedVariable], true) == a;
    assert fwd[1..][0] == fwd[1];
    assert Forward(st, fwd, FreeOp, [SharedVariable], true) == Forward(a, [], FreeOp, [SharedVariable], true);
  }

  /**
   * A malloc followed by a free of the same shared variable in one thread makes the single
   * forward relation (o1,4, o1,10), whichever order the forward pairs come in: the free
   * answers the pending malloc under ("calloc", "free") too, as only closer names are compared.
   */
  lemma ForwardRelationScenario(tables: RelationTables)
    requires EitherForwardOrder(tables)
    ensures AddOperation(AddOperation(Empty, MallocOp, tables, [SharedVariable]), FreeOp, tables, [SharedVariable]).relations
            == Relations([(Op(1, 4), Op(1, 10))], [], [])
  {
    var r := [SharedVariable];
    MallocQueued(tables.forward);
    var s1 := Forward(Empty, tables.forward, MallocOp, r, true);
    MallocNames();
    BackwardSpec(s1, tables.backward, MallocOp, true);
    NoCloserBackward(s1, tables.backward, MallocOp, true);
    var s2 := Backward(s1, tables.backward, MallocOp, true);
    UnnamedSymmetric(s2, tables.symmetric, MallocOp, r, true);
    var s3 := AddOperation(Empty, MallocOp, tables, r);
    assert s3.forwardHandler == [Pending(("malloc", "free"), MallocOp)] && s3.relations == Relations([], [], []);
    FreeMatched(s3, tables.forward);
    var t1 := Forward(s3, tables.forward, FreeOp, r, true);
    ForwardSpec(s3, tables.forward, FreeOp, r, true);
    FreeNames();
    UnnamedBackward(t1, tables.backward, FreeOp, true);
    UnnamedSymmetric(t1, tables.symmetric, FreeOp, r, true);
  }

  // backward_relation.c: fopen assigns the shared file pointer (operation 1,2) and, when
  // it failed, strerror formats errno (operation 1,5); the two share nothing.
  const FilePointer: Res := Res(1, {"f"})
  const FopenOp: MatchOp := MatchOp(Op(1, 2), "fopen", ["logs.txt", "r"], {FilePointer}, {})
  const StrerrorOp: MatchOp := MatchOp(Op(1, 5), "strerror", ["errno"], {}, {"errno"})

  lemma FopenNames()
    ensures Unnamed(FopenOp, DefaultTables.forward) && Unnamed(FopenOp, DefaultTables.backward[1..])
    ensures Unnamed(FopenOp, DefaultTables.symmetric)
  {
  }

  lemma StrerrorNames()
    ensures Unnamed(StrerrorOp, DefaultTables.forward) && Unnamed(StrerrorOp, DefaultTables.symmetric)
    ensures forall i :: 0 <= i < |DefaultTables.backward| ==> !NameIs(StrerrorOp.name, DefaultTables.backward[i].0)
  {
  }

  /** A backward closer with nothing stored for its pairs changes nothing. */
  lemma {:induction false} NothingStoredBackward(st: MatchState, pairs: seq<NamePair>, op: MatchOp, checkThread: bool)
    requires forall i :: 0 <= i < |pairs| ==> !NameIs(op.name, pairs[i].0) && pairs[i] !in st.backwardHandler
    ensures Backward(st, pairs, op, checkThread) == st
    decreases |pairs|
  {
    if pairs != [] {
      assert !NameIs(op.name, pairs[0].0) && pairs[0] !in st.backwardHandler;
      NothingStoredBackward(st, pairs[1..], op, checkThread);
    }
  }

  lemma FopenStored(st: MatchState)
    ensures Backward(st, DefaultTables.backward, FopenOp, true) == st.(backwardHandler := st.backwardHandler[("fopen", "strerror") := FopenOp])
  {
    var pairs := DefaultTables.backward;
    FopenNames();
    var a := BackwardPair(st, pairs[0], FopenOp, true);
    UnnamedBackward(a, pairs[1..], FopenOp, true);
  }

  lemma StrerrorAnswers(st: MatchState)
    requires st.backwardHandler == map[("fopen", "strerror") := FopenOp] && st.relations.backward == []
    ensures Backward(st, DefaultTables.backward, StrerrorOp, true) ==
            st.(backwardHandler := map[], relations := st.relations.(backward := [(Op(1, 2), Op(1, 5))]))
  {
    var pairs := DefaultTables.backward;
    StrerrorNames();
    var a := BackwardPair(st, pairs[0], StrerrorOp, true);
    assert a == st.(backwardHandler := map[], relations := st.relations.(backward := [(Op(1, 2), Op(1, 5))]));
    assert forall i :: 0 <= i < |pairs[1..]| ==> pairs[1..][i] == pairs[i + 1];
    NothingStoredBackward(a, pairs[1..], StrerrorOp, true);
  }

  lemma FopenAdded()
    ensures AddOperation(Empty, FopenOp, DefaultTables, [FilePointer]) ==
            Empty.(backwardHandler := map[("fopen", "strerror") := FopenOp], operations := [FopenOp])
  {
    var t := DefaultTables;
    FopenNames();
    UnnamedForward(Empty, t.forward, FopenOp, [FilePointer], true);
    FopenStored(Empty);
    UnnamedSymmetric(Backward(Empty, t.backward, FopenOp, true), t.symmetric, FopenOp, [FilePointer], true);
  }

  lemma StrerrorAdded(st: MatchState)
    requires st.backwardHandler == map[("fopen", "strerror") := FopenOp] && st.relations == Relations([], [], [])
    ensures AddOperation(st, StrerrorOp, DefaultTables, [FilePointer]).relations == Relations([], [(Op(1, 2), Op(1, 5))], [])
  {
    var t := DefaultTables;
    StrerrorNames();
    UnnamedForward(st, t.forward, StrerrorOp, [FilePointer], true);
    StrerrorAnswers(st);
    UnnamedSymmetric(Backward(st, t.backward, StrerrorOp, true), t.symmetric, StrerrorOp, [FilePointer], true);
  }

  /**
   * fopen followed by strerror in one thread makes the backward relation (o1,2, o1,5)
   * although the two operations share no resource: backward pairs are not tested for one.
   */
  lemma BackwardRelationScenario()
    ensures AddOperation(AddOperation(Empty, FopenOp, DefaultTables, [FilePointer]), StrerrorOp, DefaultTables, [FilePointer]).relations
            == Relations([], [(Op(1, 2), Op(1, 5))], [])
  {
    FopenAdded();
    var s1 := AddOperation(Empty, FopenOp, DefaultTables, [FilePointer]);
    assert s1.backwardHandler == map[("fopen", "strerror") := FopenOp] && s1.relations == Relations([], [], []);
    StrerrorAdded(s1);
  }

  /** The two operations of the backward scenario share no resource and no argument. */
  lemma FopenStrerrorShareNothing()
    ensures !IsResourceShared(FopenOp, StrerrorOp, [FilePointer], true)
  {
    assert FilePointer !in StrerrorOp.resources;
    assert "logs.txt" !in StrerrorOp.locals && "r" !in StrerrorOp.locals;
  }

  // symmetric_relation.c: va_start (operation 1,3), va_arg (1,5) and va_end (1,7) on the
  // local argument list `list`; the program has no shared resources.
  const VaStartOp: MatchOp := MatchOp(Op(1, 3), "va_start", ["list", "n"], {}, {"list", "n"})
  const VaArgOp: MatchOp := MatchOp(Op(1, 5), "va_arg", ["list"], {}, {"list"})
  const VaEndOp: MatchOp := MatchOp(Op(1, 7), "va_end", ["list"], {}, {"list"})
  const VaStartArg: NamePair := ("va_start", "va_arg")
  const VaArgEnd: NamePair := ("va_arg", "va_end")

  /** The symmetric pairs in either order of the set they come from. */
  predicate EitherSymmetricOrder(tables: RelationTables)
  {
    tables.forward == DefaultTables.forward && tables.backward == DefaultTables.backward &&
    (tables.symmetric == [VaStartArg, VaArgEnd] || tables.symmetric == [VaArgEnd, VaStartArg])
  }

  /** No name of the pairs starts with the letter c. */
  predicate NoneStartsWith(pairs: seq<NamePair>, c: char)
  {
    forall i :: 0 <= i < |pairs| ==>
      |pairs[i].0| > 0 && pairs[i].0[0] != c && |pairs[i].1| > 0 && pairs[i].1[0] != c
  }

  lemma UnnamedByInitial(op: MatchOp, pairs: seq<NamePair>)
    requires |op.name| > 0 && op.name[0] == 'v' && NoneStartsWith(pairs, 'v')
    ensures Unnamed(op, pairs)
  {
    forall i | 0 <= i < |pairs|
      ensures !NameIs(op.name, pairs[i].0) && !NameIs(op.name, pairs[i].1)
    {
      assert (MacroPrefix + pairs[i].0)[0] == '_';
      assert (MacroPrefix + pairs[i].1)[0] == '_';
    }
  }

  lemma VaNames()
    ensures Unnamed(VaStartOp, DefaultTables.forward) && Unnamed(VaStartOp, DefaultTables.backward)
    ensures Unnamed(VaArgOp, DefaultTables.forward) && Unnamed(VaArgOp, DefaultTables.backward)
    ensures Unnamed(VaEndOp, DefaultTables.forward) && Unnamed(VaEndOp, DefaultTables.backward)
  {
    assert NoneStartsWith(DefaultTables.forward, 'v');
    assert NoneStartsWith(DefaultTables.backward, 'v');
    UnnamedByInitial(VaStartOp, DefaultTables.forward);
    UnnamedByInitial(VaStartOp, DefaultTables.backward);
    UnnamedByInitial(VaArgOp, DefaultTables.forward);
    UnnamedByInitial(VaArgOp, DefaultTables.backward);
    UnnamedByInitial(VaEndOp, DefaultTables.forward);
    UnnamedByInitial(VaEndOp, DefaultTables.backward);
  }

  lemma VaStartQueued(sym: seq<NamePair>)
    requires sym == [VaStartArg, VaArgEnd] || sym == [VaArgEnd, VaStartArg]
    ensures Symmetric(Empty, sym, VaStartOp, [], true) == Empty.(symmetricHandler := [Pending(VaStartArg, VaStartOp)])
  {
    var a := SymmetricPair(Empty, sym[0], VaStartOp, [], true);
    var b := SymmetricPair(a, sym[1], VaStartOp, [], true);
    assert sym[1..][0] == sym[1] && sym[1..][1..] == [];
    assert Symmetric(Empty, sym, VaStartOp, [], true) == Symmetric(b, [], VaStartOp, [], true);
  }

  lemma VaStartShared()
    ensures IsResourceShared(VaStartOp, VaArgOp, [], true)
  {
    assert VaStartOp.args[0] in VaArgOp.locals;
  }

  lemma VaArgOpensSecond(st: MatchState)
    ensures SymmetricPair(st, VaArgEnd, VaArgOp, [], true) ==
            st.(symmetricHandler := st.symmetricHandler + [Pending(VaArgEnd, VaArgOp)])
  {
  }

  lemma VaArgClosesFirst(st: MatchState, rest: seq<Pending>)
    requires st.symmetricHandler == [Pending(VaStartArg, VaStartOp)] + rest && st.relations.symmetric == []
    ensures SymmetricPair(st, VaStartArg, VaArgOp, [], true) ==
            st.(symmetricHandler := rest, relations := st.relations.(symmetric := [(Op(1, 3), Op(1, 5))]))
  {
    VaStartShared();
    var st1 := SymmetricOpen(st, VaStartArg, VaArgOp);
    assert st1 == st;
    var k := FirstWhere(st.symmetricHandler, (d: Pending) => Answers(d, VaStartArg));
    assert k == 0;
    assert RemoveAt(st.symmetricHandler, 0) == rest;
  }

  lemma VaArgAnswers(st: MatchState, sym: seq<NamePair>)
    requires sym == [VaStartArg, VaArgEnd] || sym == [VaArgEnd, VaStartArg]
    requires st.symmetricHandler == [Pending(VaStartArg, VaStartOp)] && st.relations.symmetric == []
    ensures Symmetric(st, sym, VaArgOp, [], true) ==
            st.(symmetricHandler := [Pending(VaArgEnd, VaArgOp)], relations := st.relations.(symmetric := [(Op(1, 3), Op(1, 5))]))
  {
    var a := SymmetricPair(st, sym[0], VaArgOp, [], true);
    var b := SymmetricPair(a, sym[1], VaArgOp, [], true);
    assert sym[1..][0] == sym[1] && sym[1..][1..] == [];
    assert Symmetric(st, sym, VaArgOp, [], true) == Symmetric(b, [], VaArgOp, [], true);
    if sym[0] == VaStartArg {
      VaArgClosesFirst(st, []);
      VaArgOpensSecond(a);
    } else {
      VaArgOpensSecond(st);
      VaArgClosesFirst(a, [Pending(VaArgEnd, VaArgOp)]);
    }
  }

  lemma VaEndAnswers(st: MatchState, sym: seq<NamePair>)
    requires sym == [VaStartArg, VaArgEnd] || sym == [VaArgEnd, VaStartArg]
    requires st.symmetricHandler == [Pending(VaArgEnd, VaArgOp)] && st.relations.symmetric == [(Op(1, 3), Op(1, 5))]
    ensures Symmetric(st, sym, VaEndOp, [], true).relations.symmetric == [(Op(1, 3), Op(1, 5)), (Op(1, 5), Op(1, 7))]
  {
    var a := SymmetricPair(st, sym[0], VaEndOp, [], true);
    var b := SymmetricPair(a, sym[1], VaEndOp, [], true);
    assert sym[1..][0] == sym[1] && sym[1..][1..] == [];
    assert Symmetric(st, sym, VaEndOp, [], true) == Symmetric(b, [], VaEndOp, [], true);
    VaEndSkipsStart(st);
    VaEndCloses(st);
    if sym[0] == VaStartArg {
      VaEndSkipsStart(a);
    }
  }

  lemma VaEndSkipsStart(st: MatchState)
    ensures SymmetricPair(st, VaStartArg, VaEndOp, [], true) == st
  {
  }

  lemma VaEndCloses(st: MatchState)
    requires st.symmetricHandler == [Pending(VaArgEnd, VaArgOp)] && st.relations.symmetric == [(Op(1, 3), Op(1, 5))]
    ensures SymmetricPair(st, VaArgEnd, VaEndOp, [], true).relations.symmetric == [(Op(1, 3), Op(1, 5)), (Op(1, 5), Op(1, 7))]
  {
    assert IsResourceShared(VaArgOp, VaEndOp, [], true) by {
      assert VaArgOp.args[0] in VaEndOp.locals;
    }
    var k := FirstWhere(st.symmetricHandler, (d: Pending) => Answers(d, VaArgEnd));
    assert k == 0;
  }

  lemma VaStartAdded(tables: RelationTables)
    requires EitherSymmetricOrder(tables)
    ensures var s := AddOperation(Empty, VaStartOp, tables, []);
            s.symmetricHandler == [Pending(VaStartArg, VaStartOp)] && s.relations == Relations([], [], [])
  {
    VaNames();
    UnnamedForward(Empty, tables.forward, VaStartOp, [], true);
    UnnamedBackward(Empty, tables.backward, VaStartOp, true);
    VaStartQueued(tables.symmetric);
  }

  lemma VaArgAdded(st: MatchState, tables: RelationTables)
    requires EitherSymmetricOrder(tables)
    requires st.symmetricHandler == [Pending(VaStartArg, VaStartOp)] && st.relations == Relations([], [], [])
    ensures var s := AddOperation(st, VaArgOp, tables, []);
            s.symmetricHandler == [Pending(VaArgEnd, VaArgOp)] && s.relations == Relations([], [], [(Op(1, 3), Op(1, 5))])
  {
    VaNames();
    UnnamedForward(st, tables.forward, VaArgOp, [], true);
    UnnamedBackward(st, tables.backward, VaArgOp, true);
    VaArgAnswers(st, tables.symmetric);
  }

  lemma VaEndAdded(st: MatchState, tables: RelationTables)
    requires EitherSymmetricOrder(tables)
    requires st.symmetricHandler == [Pending(VaArgEnd, VaArgOp)] && st.relations == Relations([], [], [(Op(1, 3), Op(1, 5))])
    ensures AddOperation(st, VaEndOp, tables, []).relations == Relations([], [], [(Op(1, 3), Op(1, 5)), (Op(1, 5), Op(1, 7))])
  {
    VaNames();
    UnnamedForward(st, tables.forward, VaEndOp, [], true);
    UnnamedBackward(st, tables.backward, VaEndOp, true);
    VaEndAnswers(st, tables.symmetric);
    SymmetricSpec(st, tables.symmetric, VaEndOp, [], true);
  }

  /**
   * va_start, va_arg and va_end on one argument list make the symmetric relations
   * (o1,3, o1,5) and (o1,5, o1,7), whichever order the pairs come in: va_arg closes the
   * first pair and opens the second in the same call.
   */
  lemma SymmetricRelationScenario(tables: RelationTables)
    requires EitherSymmetricOrder(tables)
    ensures var s1 := AddOperation(Empty, VaStartOp, tables, []);
            var s2 := AddOperation(s1, VaArgOp, tables, []);
            AddOperation(s2, VaEndOp, tables, []).relations == Relations([], [], [(Op(1, 3), Op(1, 5)), (Op(1, 5), Op(1, 7))])
  {
    VaStartAdded(tables);
    var s1 := AddOperation(Empty, VaStartOp, tables, []);
    VaArgAdded(s1, tables);
    var s2 := AddOperation(s1, VaArgOp, tables, []);
    VaEndAdded(s2, tables);
  }

  /** Operations that close no pair of the table add no relation. */
  lemma {:induction false} NoCloserBackward(st: MatchState, pairs: seq<NamePair>, op: MatchOp, checkThread: bool)
    requires forall i :: 0 <= i < |pairs| ==> !NameIs(op.name, pairs[i].1)
    ensures Backward(st, pairs, op, checkThread).relations == st.relations
    decreases |pairs|
  {
    if pairs != [] {
      assert !NameIs(op.name, pairs[0].1);
      NoCloserBackward(BackwardPair(st, pairs[0], op, checkThread), pairs[1..], op, checkThread);
    }
  }

  // ---------------------------------------------------------------------------
  // The builder

  /** The matchers' module-level handlers together with the model fields they update. */
  class MascmBuilder {
    var forwardHandler: seq<Pending>
    var backwardHandler: map<NamePair, MatchOp>
    var symmetricHandler: seq<Pending>
    var relations: Relations
    var operations: seq<MatchOp>
    var resources: seq<Res>

    function State(): MatchState
      reads this
    {
      MatchState(forwardHandler, backwardHandler, symmetricHandler, relations, operations)
    }

    constructor(resources: seq<Res>)
      ensures State() == Empty && this.resources == resources
    {
      forwardHandler := [];
      backwardHandler := map[];
      symmetricHandler := [];
      relations := Relations([], [], []);
      operations := [];
      this.resources := resources;
    }

    /** operation_is_in_forward_relation. */
    method OperationIsInForwardRelation(operation: MatchOp, pairs: seq<NamePair>, checkThread: bool)
      modifies this
      ensures State() == Forward(old(State()), pairs, operation, resources, checkThread)
      ensures resources == old(resources)
    {
      var i := 0;
      while i < |pairs|
        invariant 0 <= i <= |pairs|
        invariant resources == old(resources)
        invariant Forward(State(), pairs[i..], operation, resources, checkThread) ==
                  Forward(old(State()), pairs, operation, resources, checkThread)
      {
        assert pairs[i..][1..] == pairs[i + 1..];
        ghost var before := State();
        var pair := pairs[i];
        var entry := Pending(pair, operation);
        if NameIs(operation.name, pair.0) && entry !in forwardHandler {
          forwardHandler := forwardHandler + [entry];
        } else if NameIs(operation.name, pair.1) {
          var k := FirstWhere(forwardHandler, (d: Pending) => NameIs(d.pair.1, pair.1));
          if k < |forwardHandler| {
            var data := forwardHandler[k];
            if IsResourceShared(data.op, operation, resources, false) &&
               !(checkThread && data.op.id.thread != operation.id.thread) &&
               !HasFirst(relations.forward, data.op.id) {
              relations := relations.(forward := relations.forward + [(data.op.id, operation.id)]);
              forwardHandler := RemoveAt(forwardHandler, k);
            }
          }
        }
        assert State() == ForwardPair(before, pair, operation, resources, checkThread);
        i := i + 1;
      }
    }

    /** operation_is_in_backward_relation. */
    method OperationIsInBackwardRelation(operation: MatchOp, pairs: seq<NamePair>, checkThread: bool)
      modifies this
      ensures State() == Backward(old(State()), pairs, operation, checkThread)
      ensures resources == old(resources)
    {
      var i := 0;
      while i < |pairs|
        invariant 0 <= i <= |pairs|
        invariant resources == old(resources)
        invariant Backward(State(), pairs[i..], operation, checkThread) == Backward(old(State()), pairs, operation, checkThread)
      {
        assert pairs[i..][1..] == pairs[i + 1..];
        ghost var before := State();
        var pair := pairs[i];
        if NameIs(operation.name, pair.0) {
          backwardHandler := backwardHandler[pair := operation];
        } else if NameIs(operation.name, pair.1) && pair in backwardHandler {
          var first := backwardHandler[pair];
          if !(checkThread && first.id.thread != operation.id.thread) && !HasFirst(relations.backward, first.id) {
            relations := relations.(backward := relations.backward + [(first.id, operation.id)]);
            backwardHandler := backwardHandler - {pair};
          }
        }
        assert State() == BackwardPair(before, pair, operation, checkThread);
        i := i + 1;
      }
    }

    /** operation_is_in_symmetric_relation. */
    method OperationIsInSymmetricRelation(operation: MatchOp, pairs: seq<NamePair>, checkThread: bool)
      modifies this
      ensures State() == Symmetric(old(State()), pairs, operation, resources, checkThread)
      ensures resources == old(resources)
    {
      var i := 0;
      while i < |pairs|
        invariant 0 <= i <= |pairs|
        invariant resources == old(resources)
        invariant Symmetric(State(), pairs[i..], operation, resources, checkThread) ==
                  Symmetric(old(State()), pairs, operation, resources, checkThread)
      {
        assert pairs[i..][1..] == pairs[i + 1..];
        ghost var before := State();
        var pair := pairs[i];
        if NameIs(operation.name, pair.0) {
          symmetricHandler := symmetricHandler + [Pending(pair, operation)];
        }
        assert State() == SymmetricOpen(before, pair, operation);
        if NameIs(operation.name, pair.1) {
          var k := FirstWhere(symmetricHandler, (d: Pending) => Answers(d, pair));
          if k < |symmetricHandler| {
            var data := symmetricHandler[k];
            if IsResourceShared(data.op, operation, resources, true) &&
               !(checkThread && data.op.id.thread != operation.id.thread) &&
               !HasFirst(relations.symmetric, data.op.id) {
              relations := relations.(symmetric := relations.symmetric + [(data.op.id, operation.id)]);
              symmetricHandler := RemoveAt(symmetricHandler, k);
            }
          }
        }
        assert State() == SymmetricPair(before, pair, operation, resources, checkThread);
        i := i + 1;
      }
    }

    /** add_operation_to_mascm, with the operation already built from its node. */
    method AddOperationToMascm(operation: MatchOp, tables: RelationTables) returns (op: MatchOp)
      modifies this
      ensures op == operation
      ensures State() == AddOperation(old(State()), operation, tables, resources)
      ensures resources == old(resources)
    {
      OperationIsInForwardRelation(operation, tables.forward, true);
      OperationIsInBackwardRelation(operation, tables.backward, true);
      OperationIsInSymmetricRelation(operation, tables.symmetric, true);
      operations := operations + [operation];
      op := operation;
    }

    /** The innermost loop of find_multithreaded_relations: the operations of one thread pair. */
    method MatchThreadPair(ops: seq<MatchOp>, tables: RelationTables)
      modifies this
      ensures State() == MatchOps(old(State()), ops, tables, resources)
      ensures resources == old(resources)
    {
      var k := 0;
      while k < |ops|
        invariant 0 <= k <= |ops|
        invariant resources == old(resources)
        invariant MatchOps(State(), ops[k..], tables, resources) == MatchOps(old(State()), ops, tables, resources)
      {
        assert ops[k..][1..] == ops[k + 1..];
        OperationIsInForwardRelation(ops[k], tables.forward, false);
        OperationIsInBackwardRelation(ops[k], tables.backward, false);
        OperationIsInSymmetricRelation(ops[k], tables.symmetric, false);
        k := k + 1;
      }
    }

    /** The loop over the thread pairs of one time unit, first thread's operations first. */
    method MatchTimeUnit(unit: ThreadUnit, tables: RelationTables)
      modifies this
      ensures State() == MatchPairs(old(State()), Combinations2(unit), tables, resources)
      ensures resources == old(resources)
    {
      var combos := Combinations2(unit);
      var j := 0;
      while j < |combos|
        invariant 0 <= j <= |combos|
        invariant resources == old(resources)
        invariant MatchPairs(State(), combos[j..], tables, resources) == MatchPairs(old(State()), combos, tables, resources)
      {
        assert combos[j..][1..] == combos[j + 1..];
        MatchThreadPair(combos[j].0 + combos[j].1, tables);
        j := j + 1;
      }
    }

    /** find_multithreaded_relations over the model's time units. */
    method FindMultithreadedRelations(units: seq<ThreadUnit>, tables: RelationTables)
      modifies this
      ensures State() == FindMultithreaded(old(State()), units, tables, resources)
      ensures resources == old(resources)
    {
      var multi := MultiThreaded(units);
      if multi == [] {
        return;
      }
      var i := 0;
      while i < |multi|
        invariant 0 <= i <= |multi|
        invariant resources == old(resources)
        invariant MatchUnits(State(), multi[i..], tables, resources) == MatchUnits(old(State()), multi, tables, resources)
      {
        assert multi[i..][1..] == multi[i + 1..];
        MatchTimeUnit(multi[i], tables);
        i := i + 1;
      }
    }
  }
}
