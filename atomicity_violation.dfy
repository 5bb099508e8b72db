/**
 * The atomicity-violation detector: usage and dependency edges are grouped into
 * critical sections by a stack of held mutexes, and a symmetric relation whose two
 * operations fall into separate sections is reported together with the other
 * thread's accesses to the same resource.
 */
module AtomicityViolation {
  import opened Exceptions
  import opened Mascm
  import opened Collections
  import opened TimeUnitHelper

  /**
   * One entry of critical_sections_operations, tagged with the number of its section:
   * the operation, the resource, a snapshot of the held mutexes and the edge.
   */
  datatype SectionOp = SectionOp(section: nat, op: Op, res: Res, held: seq<Mutex>, edge: Edge)

  /** The loop state: the held-mutex stack, the section counter and the entries so far. */
  datatype GroupState = GroupState(stack: seq<Mutex>, counter: nat, ops: seq<SectionOp>)

  const Initial := GroupState([], 0, [])

  /** The position of the first occurrence of x in s, or |s| when there is none. */
  function FirstIndex(s: seq<Mutex>, x: Mutex): (r: nat)
    ensures r <= |s|
    ensures r < |s| ==> s[r] == x
    ensures forall k :: 0 <= k < r ==> s[k] != x
  {
    if s == [] then 0
    else if s[0] == x then 0
    else 1 + FirstIndex(s[1..], x)
  }

  /** list.remove: the first occurrence dropped, ValueError when there is none. */
  function Remove(s: seq<Mutex>, x: Mutex): (r: Result<seq<Mutex>>)
    ensures r.Err? <==> x !in s
    ensures r.Err? ==> r.error == ValueError
    ensures r.Ok? ==> |r.value| == |s| - 1 && multiset(r.value) == multiset(s) - multiset{x}
  {
    var i := FirstIndex(s, x);
    if i == |s| then Err(ValueError)
    else
      assert s == s[..i] + [s[i]] + s[i + 1..];
      Ok(s[..i] + s[i + 1..])
  }

  /** One iteration of the grouping loop. */
  function Step(st: GroupState, e: Edge): Result<GroupState>
  {
    match e
    case Locking(q, _) =>
      Ok(GroupState(st.stack + [q], if st.stack == [] then st.counter + 1 else st.counter, st.ops))
    case Unlocking(_, q) =>
      var rest :- Remove(st.stack, q);
      Ok(st.(stack := rest))
    case Usage(o, r) =>
      Ok(if st.stack == [] then st else st.(ops := st.ops + [SectionOp(st.counter, o, r, st.stack, e)]))
    case Dependency(r, o) =>
      Ok(if st.stack == [] then st else st.(ops := st.ops + [SectionOp(st.counter, o, r, st.stack, e)]))
    case Transition(_, _) => Ok(st)
  }

  function GroupFrom(st: GroupState, graph: seq<Edge>): Result<GroupState>
    decreases graph
  {
    if graph == [] then Ok(st)
    else
      var next :- Step(st, graph[0]);
      GroupFrom(next, graph[1..])
  }

  /**
   * group_operations_by_critical_section. The dictionary is represented by its entries
   * in iteration order, each tagged with its key; GroupSound shows that the keys never
   * decrease along the entries, so this is also the order of the dictionary's keys.
   */
  function Group(graph: seq<Edge>): Result<seq<SectionOp>>
  {
    var st :- GroupFrom(Initial, graph);
    Ok(st.ops)
  }

  /** A recorded entry: taken inside a section, with its operation first. */
  predicate Recorded(r: SectionOp)
  {
    r.held != [] && r.section >= 1 &&
    (r.edge == Usage(r.op, r.res) || r.edge == Dependency(r.res, r.op))
  }

  /** What the loop keeps true of its state. */
  predicate StateInv(st: GroupState)
  {
    (st.stack != [] ==> st.counter >= 1) &&
    (forall i :: 0 <= i < |st.ops| ==> Recorded(st.ops[i]) && st.ops[i].section <= st.counter) &&
    (forall i, j :: 0 <= i < j < |st.ops| ==> st.ops[i].section <= st.ops[j].section)
  }

  lemma StepInv(st: GroupState, e: Edge)
    requires StateInv(st)
    ensures Step(st, e).Ok? ==>
              var next := Step(st, e).value;
              StateInv(next) && st.counter <= next.counter &&
              |st.ops| <= |next.ops| && next.ops[..|st.ops|] == st.ops &&
              forall i :: |st.ops| <= i < |next.ops| ==> next.ops[i].edge == e
  {
    match e
    case Locking(q, _) =>
      assert Step(st, e).value.ops == st.ops;
    case Unlocking(_, q) =>
      if Step(st, e).Ok? {
        assert Step(st, e).value.ops == st.ops;
      }
    case Usage(o, r) =>
      if st.stack != [] {
        RecordKeepsInv(st, SectionOp(st.counter, o, r, st.stack, e));
      }
    case Dependency(r, o) =>
      if st.stack != [] {
        RecordKeepsInv(st, SectionOp(st.counter, o, r, st.stack, e));
      }
    case Transition(_, _) =>
  }

  /** Recording an entry of the current section keeps the invariant and the earlier entries. */
  lemma RecordKeepsInv(st: GroupState, x: SectionOp)
    requires StateInv(st) && Recorded(x) && x.section == st.counter
    ensures var next := st.(ops := st.ops + [x]);
            StateInv(next) && next.ops[..|st.ops|] == st.ops && next.ops[|st.ops|] == x
  {
    var next := st.(ops := st.ops + [x]);
    assert next.ops[..|st.ops|] == st.ops;
    assert forall i :: 0 <= i < |st.ops| ==> next.ops[i] == st.ops[i];
  }

  /**
   * Grouping keeps its invariant, keeps what it had recorded and records only edges
   * of the graph.
   */
  lemma {:induction false} GroupFromInv(st: GroupState, graph: seq<Edge>)
    requires StateInv(st)
    ensures GroupFrom(st, graph).Ok? ==>
              var fin := GroupFrom(st, graph).value;
              StateInv(fin) && |st.ops| <= |fin.ops| && fin.ops[..|st.ops|] == st.ops &&
              forall i :: |st.ops| <= i < |fin.ops| ==> fin.ops[i].edge in graph
    decreases graph
  {
    if graph != [] && GroupFrom(st, graph).Ok? {
      StepInv(st, graph[0]);
      var next := Step(st, graph[0]).value;
      GroupFromInv(next, graph[1..]);
      var fin := GroupFrom(st, graph).value;
      forall i | |st.ops| <= i < |fin.ops|
        ensures fin.ops[i].edge in graph
      {
        if i < |next.ops| {
          assert fin.ops[i] == fin.ops[..|next.ops|][i];
          assert fin.ops[i].edge == graph[0];
        } else {
          assert fin.ops[i].edge in graph[1..];
        }
      }
    }
  }

  /**
   * Every entry comes from a usage or dependency edge of the graph met while some
   * mutex was held, with its operation first; lock and unlock edges are never
   * entries; section numbers start at 1 and never decrease along the entries.
   */
  lemma GroupSound(graph: seq<Edge>)
    ensures Group(graph).Ok? ==>
              var ops := Group(graph).value;
              (forall i :: 0 <= i < |ops| ==> Recorded(ops[i]) && ops[i].edge in graph && IsResourceEdge(ops[i].edge)) &&
              (forall i, j :: 0 <= i < j < |ops| ==> ops[i].section <= ops[j].section)
  {
    GroupFromInv(Initial, graph);
  }

  /**
   * Grouping fails exactly when some unlock edge names a mutex that is not on the stack
   * built from the edges before it; the failure is list.remove's ValueError.
   */
  lemma {:induction false} GroupFromErr(st: GroupState, graph: seq<Edge>)
    ensures GroupFrom(st, graph).Err? <==> exists k: nat :: FailsAt(st, graph, k)
    ensures GroupFrom(st, graph).Err? ==> GroupFrom(st, graph).error == ValueError
    decreases graph
  {
    if graph != [] {
      FailsAtFirst(st, graph);
      var s := Step(st, graph[0]);
      if s.Ok? {
        GroupFromErr(s.value, graph[1..]);
        if GroupFrom(st, graph).Err? {
          var k: nat :| FailsAt(s.value, graph[1..], k);
          FailsAtShift(st, graph, k);
        }
        if exists k: nat :: FailsAt(st, graph, k) {
          var k: nat :| FailsAt(st, graph, k);
          if k > 0 {
            FailsAtShift(st, graph, k - 1);
          }
        }
      }
    }
  }

  /** Edge k is an unlock of a mutex missing from the stack built by the edges before it. */
  ghost predicate FailsAt(st: GroupState, graph: seq<Edge>, k: nat)
  {
    k < |graph| && graph[k].Unlocking? && GroupFrom(st, graph[..k]).Ok? &&
    graph[k].q !in GroupFrom(st, graph[..k]).value.stack
  }

  lemma FailsAtFirst(st: GroupState, graph: seq<Edge>)
    requires graph != []
    ensures FailsAt(st, graph, 0) <==> Step(st, graph[0]).Err?
    ensures Step(st, graph[0]).Err? ==> Step(st, graph[0]).error == ValueError
  {
    assert graph[..0] == [];
  }

  lemma FailsAtShift(st: GroupState, graph: seq<Edge>, k: nat)
    requires graph != [] && Step(st, graph[0]).Ok?
    ensures FailsAt(st, graph, k + 1) <==> FailsAt(Step(st, graph[0]).value, graph[1..], k)
  {
    if k + 1 < |graph| {
      assert graph[..k + 1][0] == graph[0] && graph[..k + 1][1..] == graph[1..][..k];
      assert graph[k + 1] == graph[1..][k];
    }
  }

  /*
   * An independent, positional account of the grouping: the stack, the section
   * number and the entries as functions of how many edges have been read.
   */

  /** The held-mutex stack after the first i edges; an unlock of a mutex not held is skipped. */
  function StackAt(graph: seq<Edge>, i: nat): seq<Mutex>
    requires i <= |graph|
  {
    if i == 0 then []
    else
      var s := StackAt(graph, i - 1);
      match graph[i - 1]
      case Locking(q, _) => s + [q]
      case Unlocking(_, q) => if q in s then Remove(s, q).value else s
      case _ => s
  }

  /** The number of locks among the first i edges that were taken with an empty stack. */
  function SectionAt(graph: seq<Edge>, i: nat): nat
    requires i <= |graph|
  {
    if i == 0 then 0
    else SectionAt(graph, i - 1) + if graph[i - 1].Locking? && StackAt(graph, i - 1) == [] then 1 else 0
  }

  /** The entry edge i gives: its section, its operation and resource, the stack snapshot. */
  function EntryAt(graph: seq<Edge>, i: nat): SectionOp
    requires i < |graph| && IsResourceEdge(graph[i])
  {
    SectionOp(SectionAt(graph, i), graph[i].op, graph[i].res, StackAt(graph, i), graph[i])
  }

  /** The usage and dependency edges among the first n that met a non-empty stack, as entries. */
  function RecordsUpTo(graph: seq<Edge>, n: nat): seq<SectionOp>
    requires n <= |graph|
  {
    if n == 0 then []
    else
      RecordsUpTo(graph, n - 1) +
      if IsResourceEdge(graph[n - 1]) && StackAt(graph, n - 1) != [] then [EntryAt(graph, n - 1)] else []
  }

  /** Reading one more edge is one more Step on the state read so far. */
  lemma {:induction false} GroupFromSnoc(st: GroupState, a: seq<Edge>, e: Edge)
    ensures GroupFrom(st, a + [e]).Ok? <==> GroupFrom(st, a).Ok? && Step(GroupFrom(st, a).value, e).Ok?
    ensures GroupFrom(st, a + [e]).Ok? ==> GroupFrom(st, a + [e]).value == Step(GroupFrom(st, a).value, e).value
    decreases a
  {
    if a == [] {
      assert [] + [e] == [e];
      assert [e][1..] == [];
    } else {
      assert (a + [e])[0] == a[0] && (a + [e])[1..] == a[1..] + [e];
      var s := Step(st, a[0]);
      if s.Ok? {
        GroupFromSnoc(s.value, a[1..], e);
      }
    }
  }

  /** The positional account of the loop state after the first n edges. */
  function AccountAt(graph: seq<Edge>, n: nat): GroupState
    requires n <= |graph|
  {
    GroupState(StackAt(graph, n), SectionAt(graph, n), RecordsUpTo(graph, n))
  }

  /** No unlock among the first n edges names a mutex that is not held. */
  ghost predicate UnlocksHeld(graph: seq<Edge>, n: nat)
    requires n <= |graph|
  {
    forall k :: 0 <= k < n && graph[k].Unlocking? ==> graph[k].q in StackAt(graph, k)
  }

  /** The state after an error-free prefix is the positional account of that prefix. */
  lemma {:induction false} GroupPrefix(graph: seq<Edge>, n: nat)
    requires n <= |graph|
    ensures GroupFrom(Initial, graph[..n]).Ok? <==> UnlocksHeld(graph, n)
    ensures GroupFrom(Initial, graph[..n]).Ok? ==> GroupFrom(Initial, graph[..n]).value == AccountAt(graph, n)
  {
    if n == 0 {
      assert graph[..0] == [];
    } else {
      GroupPrefix(graph, n - 1);
      assert graph[..n] == graph[..n - 1] + [graph[n - 1]];
      GroupFromSnoc(Initial, graph[..n - 1], graph[n - 1]);
      UnlocksHeldSnoc(graph, n - 1);
      if GroupFrom(Initial, graph[..n - 1]).Ok? {
        GroupPrefixStep(graph, n - 1);
      }
    }
  }

  lemma UnlocksHeldSnoc(graph: seq<Edge>, i: nat)
    requires i < |graph|
    ensures UnlocksHeld(graph, i + 1) <==> UnlocksHeld(graph, i) && !(graph[i].Unlocking? && graph[i].q !in StackAt(graph, i))
  {
  }

  lemma GroupPrefixStep(graph: seq<Edge>, i: nat)
    requires i < |graph|
    ensures var st := AccountAt(graph, i);
            (Step(st, graph[i]).Ok? <==> !(graph[i].Unlocking? && graph[i].q !in StackAt(graph, i))) &&
            (Step(st, graph[i]).Ok? ==> Step(st, graph[i]).value == AccountAt(graph, i + 1))
  {
  }

  /**
   * Grouping is complete: its entries are exactly the usage and dependency edges read
   * with a non-empty stack, in graph order, each with the stack at that point and the
   * number of sections opened so far; it fails exactly when an unlock names a mutex
   * that is not held.
   */
  lemma GroupComplete(graph: seq<Edge>)
    ensures Group(graph).Ok? ==> Group(graph).value == RecordsUpTo(graph, |graph|)
    ensures Group(graph).Err? <==>
              exists k :: 0 <= k < |graph| && graph[k].Unlocking? && graph[k].q !in StackAt(graph, k)
  {
    GroupPrefix(graph, |graph|);
    assert graph[..|graph|] == graph;
    assert Group(graph).Err? <==> !UnlocksHeld(graph, |graph|);
  }

  /**
   * A lock taken while a mutex is held opens no new section: as long as the stack
   * stays non-empty, every edge read belongs to the section that was open at the start.
   */
  lemma {:induction false} NestedLocksShareSection(graph: seq<Edge>, i: nat, j: nat)
    requires i <= j <= |graph|
    requires forall k :: i <= k < j ==> StackAt(graph, k) != []
    ensures SectionAt(graph, j) == SectionAt(graph, i)
    decreases j
  {
    if j > i {
      NestedLocksShareSection(graph, i, j - 1);
      var held := StackAt(graph, j - 1);
      assert held != [];
      assert SectionAt(graph, j) == SectionAt(graph, j - 1) + if graph[j - 1].Locking? && held == [] then 1 else 0;
    }
  }

  /** A lock taken with an empty stack opens the next section. */
  lemma OuterLockOpensSection(graph: seq<Edge>, i: nat)
    requires i < |graph| && graph[i].Locking? && StackAt(graph, i) == []
    ensures SectionAt(graph, i + 1) == SectionAt(graph, i) + 1
    ensures StackAt(graph, i + 1) == [graph[i].q]
  {
  }

  /** The grouping loop: push on lock, list.remove on unlock, record inside sections. */
  method GroupOperationsByCriticalSection(graph: seq<Edge>) returns (r: Result<seq<SectionOp>>)
    ensures r == Group(graph)
  {
    var stack: seq<Mutex> := [];
    var number := 0;
    var ops: seq<SectionOp> := [];
    var i := 0;
    while i < |graph|
      invariant 0 <= i <= |graph|
      invariant GroupFrom(GroupState(stack, number, ops), graph[i..]) == GroupFrom(Initial, graph)
    {
      var edge := graph[i];
      assert graph[i..][1..] == graph[i + 1..];
      match edge {
        case Locking(q, _) =>
          if stack == [] {
            number := number + 1;
          }
          stack := stack + [q];
        case Unlocking(_, q) =>
          var k := FirstIndex(stack, q);
          if k == |stack| {
            return Err(ValueError);
          }
          stack := stack[..k] + stack[k + 1..];
        case Usage(o, res) =>
          if stack != [] {
            ops := ops + [SectionOp(number, o, res, stack, edge)];
          }
        case Dependency(res, o) =>
          if stack != [] {
            ops := ops + [SectionOp(number, o, res, stack, edge)];
          }
        case Transition(_, _) =>
      }
      i := i + 1;
    }
    return Ok(ops);
  }

  /** is_in_the_section for both operations: the entry's operation is exactly one of them. */
  predicate IsSplit(r: SectionOp, relation: Relation)
  {
    (r.op == relation.0) != (r.op == relation.1)
  }

  /** The edges of `second` that use or depend on a resource equal to `shared`. */
  function SharedAccesses(second: seq<Edge>, shared: Res): seq<Edge>
  {
    if second == [] then []
    else (if AccessesResource(second[0], shared) then [second[0]] else []) + SharedAccesses(second[1..], shared)
  }

  predicate AccessesResource(e: Edge, shared: Res)
  {
    (e.Usage? && SameResource(e.res, shared)) || (e.Dependency? && SameResource(e.res, shared))
  }

  lemma {:induction false} SharedAccessesMember(second: seq<Edge>, shared: Res, e: Edge)
    ensures e in SharedAccesses(second, shared) <==> e in second && AccessesResource(e, shared)
  {
    if second != [] {
      SharedAccessesMember(second[1..], shared, e);
      assert second == [second[0]] + second[1..];
    }
  }

  /** The entries holding exactly one of the relation's operations, in order. */
  function SplitSections(records: seq<SectionOp>, relation: Relation): seq<SectionOp>
  {
    if records == [] then []
    else (if IsSplit(records[0], relation) then [records[0]] else []) + SplitSections(records[1..], relation)
  }

  lemma {:induction false} SplitSectionsElements(records: seq<SectionOp>, relation: Relation)
    ensures forall i :: 0 <= i < |SplitSections(records, relation)| ==>
              SplitSections(records, relation)[i] in records && IsSplit(SplitSections(records, relation)[i], relation)
  {
    if records != [] {
      SplitSectionsElements(records[1..], relation);
    }
  }

  /** detect_violation. */
  function Violation(first: seq<Edge>, second: seq<Edge>, relation: Relation): Result<seq<Edge>>
  {
    var records :- Group(first);
    var split := SplitSections(records, relation);
    if |split| > 2 then Err(RDAOException)
    else if |split| < 2 then Ok([])
    else Ok([split[0].edge, split[1].edge] + SharedAccesses(second, split[0].res))
  }

  /**
   * detect_violation fails when grouping fails (ValueError) or when more than two
   * entries are split (RDAOException); it finds nothing with fewer than two; with
   * exactly two it returns their edges, both usage or dependency edges of `first`
   * taken inside critical sections and each holding exactly one of the two
   * operations, followed by exactly the edges of `second` that access the first
   * entry's resource.
   */
  lemma ViolationSpec(first: seq<Edge>, second: seq<Edge>, relation: Relation)
    ensures Group(first).Err? ==> Violation(first, second, relation) == Err(ValueError)
    ensures Group(first).Ok? ==>
              var split := SplitSections(Group(first).value, relation);
              var v := Violation(first, second, relation);
              (|split| > 2 <==> v == Err(RDAOException)) &&
              (|split| < 2 ==> v == Ok([])) &&
              (|split| == 2 ==>
                v.Ok? && |v.value| >= 2 &&
                v.value[0] == split[0].edge && v.value[1] == split[1].edge &&
                (forall k :: 0 <= k < 2 ==>
                   v.value[k] in first && IsResourceEdge(v.value[k]) && split[k].held != [] &&
                   (Mentions(v.value[k], relation.0) != Mentions(v.value[k], relation.1))) &&
                (forall e :: e in v.value[2..] <==> e in second && AccessesResource(e, split[0].res)))
  {
    if Group(first).Err? {
      GroupFromErr(Initial, first);
    } else if |SplitSections(Group(first).value, relation)| == 2 {
      ViolationOfTwo(first, second, relation);
    }
  }

  /** The case of exactly two split entries. */
  lemma ViolationOfTwo(first: seq<Edge>, second: seq<Edge>, relation: Relation)
    requires Group(first).Ok? && |SplitSections(Group(first).value, relation)| == 2
    ensures var split := SplitSections(Group(first).value, relation);
            var v := Violation(first, second, relation);
            v.Ok? && |v.value| >= 2 &&
            v.value[0] == split[0].edge && v.value[1] == split[1].edge &&
            (forall k :: 0 <= k < 2 ==>
               v.value[k] in first && IsResourceEdge(v.value[k]) && split[k].held != [] &&
               (Mentions(v.value[k], relation.0) != Mentions(v.value[k], relation.1))) &&
            (forall e :: e in v.value[2..] <==> e in second && AccessesResource(e, split[0].res))
  {
    GroupSound(first);
    SplitSectionsElements(Group(first).value, relation);
    var split := SplitSections(Group(first).value, relation);
    var v := Violation(first, second, relation);
    assert v.value[2..] == SharedAccesses(second, split[0].res);
    forall e
      ensures e in v.value[2..] <==> e in second && AccessesResource(e, split[0].res)
    {
      SharedAccessesMember(second, split[0].res, e);
    }
  }

  /** The loops of detect_violation: collect the split entries, then the other thread's accesses. */
  method DetectViolation(first: seq<Edge>, second: seq<Edge>, relation: Relation) returns (r: Result<seq<Edge>>)
    ensures r == Violation(first, second, relation)
  {
    var grouped := GroupOperationsByCriticalSection(first);
    if grouped.Err? {
      return Err(grouped.error);
    }
    var records := grouped.value;
    var split, violated := CollectSplitSections(records, relation);
    if |split| > 2 {
      return Err(RDAOException);
    }
    if |split| < 2 {
      return Ok([]);
    }
    assert violated == [split[0].edge, split[1].edge];
    var accesses := CollectSharedAccesses(second, split[0].res);
    return Ok(violated + accesses);
  }

  /** The first loop of detect_violation: split_sections and their edges. */
  method CollectSplitSections(records: seq<SectionOp>, relation: Relation)
    returns (split: seq<SectionOp>, violated: seq<Edge>)
    ensures split == SplitSections(records, relation)
    ensures violated == EdgesOf(split)
  {
    split := [];
    violated := [];
    var i := 0;
    while i < |records|
      invariant 0 <= i <= |records|
      invariant split + SplitSections(records[i..], relation) == SplitSections(records, relation)
      invariant violated == EdgesOf(split)
    {
      SplitSectionsStep(records, i, relation);
      ghost var tail := SplitSections(records[i + 1..], relation);
      if IsSplit(records[i], relation) {
        EdgesOfSnoc(split, records[i]);
        assert (split + [records[i]]) + tail == split + ([records[i]] + tail);
        split := split + [records[i]];
        violated := violated + [records[i].edge];
      } else {
        assert [] + tail == tail;
      }
      i := i + 1;
    }
    assert split + [] == split;
  }

  lemma SplitSectionsStep(records: seq<SectionOp>, i: nat, relation: Relation)
    requires i < |records|
    ensures SplitSections(records[i..], relation) ==
            (if IsSplit(records[i], relation) then [records[i]] else []) + SplitSections(records[i + 1..], relation)
  {
    assert records[i..][0] == records[i] && records[i..][1..] == records[i + 1..];
  }

  lemma EdgesOfSnoc(records: seq<SectionOp>, r: SectionOp)
    ensures EdgesOf(records + [r]) == EdgesOf(records) + [r.edge]
  {
    assert forall i :: 0 <= i < |records| ==> (records + [r])[i] == records[i];
  }

  /** The last loop of detect_violation. */
  method CollectSharedAccesses(second: seq<Edge>, shared: Res) returns (accesses: seq<Edge>)
    ensures accesses == SharedAccesses(second, shared)
  {
    accesses := [];
    var j := 0;
    while j < |second|
      invariant 0 <= j <= |second|
      invariant accesses + SharedAccesses(second[j..], shared) == SharedAccesses(second, shared)
    {
      assert second[j..][1..] == second[j + 1..];
      if AccessesResource(second[j], shared) {
        accesses := accesses + [second[j]];
      }
      j := j + 1;
    }
  }

  function EdgesOf(records: seq<SectionOp>): (r: seq<Edge>)
    ensures |r| == |records| && forall i :: 0 <= i < |r| ==> r[i] == records[i].edge
  {
    if records == [] then [] else [records[0].edge] + EdgesOf(records[1..])
  }

  /** The non-empty results for first against second and then second against first. */
  function RelationResults(first: seq<Edge>, second: seq<Edge>, relation: Relation): Result<seq<seq<Edge>>>
  {
    var r1 :- Violation(first, second, relation);
    var r2 :- Violation(second, first, relation);
    Ok((if r1 != [] then [r1] else []) + (if r2 != [] then [r2] else []))
  }

  /** symmetric_relation_violated: one results list per relation. */
  function SymmetricRelationViolated(first: seq<Edge>, second: seq<Edge>, relations: seq<Relation>): Result<seq<seq<seq<Edge>>>>
  {
    if relations == [] then Ok([])
    else
      var results :- RelationResults(first, second, relations[0]);
      var rest :- SymmetricRelationViolated(first, second, relations[1..]);
      Ok([results] + rest)
  }

  lemma MulSucc(a: nat, b: nat)
    ensures (a + 1) * b == b + a * b
  {
  }

  lemma {:induction false} SymmetricRelationViolatedCount(first: seq<Edge>, second: seq<Edge>, relations: seq<Relation>)
    ensures SymmetricRelationViolated(first, second, relations).Ok? ==>
              |SymmetricRelationViolated(first, second, relations).value| == |relations|
  {
    if relations != [] {
      SymmetricRelationViolatedCount(first, second, relations[1..]);
    }
  }

  /** Each results list holds at most two findings and no empty one. */
  lemma RelationResultsShape(first: seq<Edge>, second: seq<Edge>, relation: Relation)
    ensures var r := RelationResults(first, second, relation);
            r.Ok? ==> |r.value| <= 2 && forall k :: 0 <= k < |r.value| ==> r.value[k] != []
  {
  }

  /**
   * Exactly one results list per relation, in relation order, each holding at most
   * two findings and no empty one.
   */
  lemma {:induction false} SymmetricRelationViolatedSpec(first: seq<Edge>, second: seq<Edge>, relations: seq<Relation>)
    ensures var r := SymmetricRelationViolated(first, second, relations);
            r.Ok? ==>
              |r.value| == |relations| &&
              forall i :: 0 <= i < |relations| ==>
                RelationResults(first, second, relations[i]).Ok? &&
                r.value[i] == RelationResults(first, second, relations[i]).value &&
                |r.value[i]| <= 2 && (forall k :: 0 <= k < |r.value[i]| ==> r.value[i][k] != [])
  {
    SymmetricRelationViolatedCount(first, second, relations);
    var r := SymmetricRelationViolated(first, second, relations);
    if relations != [] && r.Ok? {
      SymmetricRelationViolatedSpec(first, second, relations[1..]);
      var head := RelationResults(first, second, relations[0]);
      var rest := SymmetricRelationViolated(first, second, relations[1..]);
      assert r.value == [head.value] + rest.value;
      forall i | 0 <= i < |relations|
        ensures RelationResults(first, second, relations[i]).Ok?
        ensures r.value[i] == RelationResults(first, second, relations[i]).value
        ensures |r.value[i]| <= 2 && (forall k :: 0 <= k < |r.value[i]| ==> r.value[i][k] != [])
      {
        RelationResultsShape(first, second, relations[i]);
        if i > 0 {
          assert relations[i] == relations[1..][i - 1];
          assert r.value[i] == rest.value[i - 1];
        }
      }
    }
  }

  /** The yields so far in front of what the rest of the loop produces. */
  function Prepend<T>(done: seq<T>, rest: Result<seq<T>>): Result<seq<T>>
  {
    if rest.Err? then rest else Ok(done + rest.value)
  }

  /** One relation's results, when both directions succeed, move from the rest to the yields done. */
  lemma SymmetricStep(first: seq<Edge>, second: seq<Edge>, relations: seq<Relation>, i: nat, found: seq<seq<seq<Edge>>>,
                      results: seq<seq<Edge>>)
    requires i < |relations| && RelationResults(first, second, relations[i]) == Ok(results)
    ensures Prepend(found, SymmetricRelationViolated(first, second, relations[i..])) ==
            Prepend(found + [results], SymmetricRelationViolated(first, second, relations[i + 1..]))
  {
    assert relations[i..][1..] == relations[i + 1..];
    var rest := SymmetricRelationViolated(first, second, relations[i + 1..]);
    if rest.Ok? {
      assert found + ([results] + rest.value) == (found + [results]) + rest.value;
    }
  }

  /** A failing direction ends the loop with its error. */
  lemma SymmetricStepErr(first: seq<Edge>, second: seq<Edge>, relations: seq<Relation>, i: nat, found: seq<seq<seq<Edge>>>)
    requires i < |relations| && RelationResults(first, second, relations[i]).Err?
    ensures Prepend(found, SymmetricRelationViolated(first, second, relations[i..])) ==
            Err(RelationResults(first, second, relations[i]).error)
  {
    assert relations[i..][0] == relations[i];
  }

  /** The loop over relations, each results list built by two calls of DetectViolation. */
  method FindSymmetricViolations(first: seq<Edge>, second: seq<Edge>, relations: seq<Relation>)
    returns (r: Result<seq<seq<seq<Edge>>>>)
    ensures r == SymmetricRelationViolated(first, second, relations)
  {
    var found: seq<seq<seq<Edge>>> := [];
    var i := 0;
    assert relations[0..] == relations;
    assert Prepend([], SymmetricRelationViolated(first, second, relations)) == SymmetricRelationViolated(first, second, relations) by {
      var r0 := SymmetricRelationViolated(first, second, relations);
      if r0.Ok? {
        assert [] + r0.value == r0.value;
      }
    }
    while i < |relations|
      invariant 0 <= i <= |relations|
      invariant SymmetricRelationViolated(first, second, relations) ==
                Prepend(found, SymmetricRelationViolated(first, second, relations[i..]))
    {
      var results: seq<seq<Edge>> := [];
      var forth := DetectViolation(first, second, relations[i]);
      if forth.Err? {
        SymmetricStepErr(first, second, relations, i, found);
        return Err(forth.error);
      }
      if forth.value != [] {
        results := results + [forth.value];
      }
      var back := DetectViolation(second, first, relations[i]);
      if back.Err? {
        SymmetricStepErr(first, second, relations, i, found);
        return Err(back.error);
      }
      if back.value != [] {
        results := results + [back.value];
      }
      assert results == (if forth.value != [] then [forth.value] else []) + (if back.value != [] then [back.value] else []);
      SymmetricStep(first, second, relations, i, found, results);
      found := found + [results];
      i := i + 1;
    }
    assert found + [] == found;
    return Ok(found);
  }

  /** The subgraph of one thread: its lock, unlock, dependency and usage edges. */
  function Subgraph(threadEdges: seq<Edge>): seq<Edge>
  {
    Filter(threadEdges, e => IsMutexEdge(e) || IsResourceEdge(e))
  }

  /** The non-empty subgraphs, in unit and thread order. */
  function Subgraphs(threadEdges: seq<seq<Edge>>): seq<seq<Edge>>
  {
    Filter(Map(threadEdges, Subgraph), (g: seq<Edge>) => g != [])
  }

  function ViolationsOver(pairs: seq<(seq<Edge>, seq<Edge>)>, relations: seq<Relation>): Result<seq<seq<seq<Edge>>>>
  {
    if pairs == [] then Ok([])
    else
      var mine :- SymmetricRelationViolated(pairs[0].0, pairs[0].1, relations);
      var rest :- ViolationsOver(pairs[1..], relations);
      Ok(mine + rest)
  }

  /**
   * detect_atomicity_violation: the symmetric results for every unordered pair of
   * non-empty subgraphs. The forward and backward checks only print and are not part
   * of the result.
   */
  function DetectAtomicityViolation(m: Model): Result<seq<seq<seq<Edge>>>>
  {
    var units := MultiThreadUnits(m.timeUnits);
    if units == [] then Ok([])
    else
      var graphs := TimeUnitsGraphs(units, m.edges);
      var threadEdges :- UnitThreadEdges(graphs, units);
      ViolationsOver(Combinations2(Subgraphs(threadEdges)), m.relations.symmetric)
  }

  lemma {:induction false} ViolationsOverCount(pairs: seq<(seq<Edge>, seq<Edge>)>, relations: seq<Relation>)
    ensures ViolationsOver(pairs, relations).Ok? ==> |ViolationsOver(pairs, relations).value| == |pairs| * |relations|
  {
    if pairs != [] && ViolationsOver(pairs, relations).Ok? {
      SymmetricRelationViolatedCount(pairs[0].0, pairs[0].1, relations);
      ViolationsOverCount(pairs[1..], relations);
      assert |pairs| * |relations| == |relations| + |pairs[1..]| * |relations| by {
        MulSucc(|pairs[1..]|, |relations|);
      }
    }
  }

  /** n subgraphs give n(n-1)/2 pairs, each with one yield per relation. */
  lemma PairsCount(subs: seq<seq<Edge>>, relations: seq<Relation>, r: Result<seq<seq<seq<Edge>>>>)
    requires r == ViolationsOver(Combinations2(subs), relations)
    ensures r.Ok? ==> 2 * |r.value| == |subs| * (|subs| - 1) * |relations|
  {
    if r.Ok? {
      Combinations2Count(subs);
      ViolationsOverCount(Combinations2(subs), relations);
      ScaleCount(|Combinations2(subs)|, |subs|, |relations|, |r.value|);
    }
  }

  lemma ScaleCount(c: int, n: int, k: int, r: int)
    requires 2 * c == n * (n - 1) && r == c * k
    ensures 2 * r == n * (n - 1) * k
  {
    calc {
      2 * r;
      2 * (c * k);
      (2 * c) * k;
      n * (n - 1) * k;
    }
  }

  /**
   * Nothing is yielded without a unit of two or more threads; a thread without edges
   * raises ValueError; otherwise, when nothing is raised, with n non-empty subgraphs
   * there are n(n-1)/2 pairs and one yield per pair and symmetric relation.
   */
  lemma DetectAtomicityViolationSpec(m: Model)
    ensures var units := MultiThreadUnits(m.timeUnits);
            var r := DetectAtomicityViolation(m);
            ((forall i :: 0 <= i < |m.timeUnits| ==> |m.timeUnits[i]| <= 1) ==> r == Ok([])) &&
            (units != [] && SomeThreadWithoutEdges(TimeUnitsGraphs(units, m.edges), units) ==> r == Err(ValueError)) &&
            (units != [] && r.Ok? ==>
               var n := |Subgraphs(UnitThreadEdges(TimeUnitsGraphs(units, m.edges), units).value)|;
               2 * |r.value| == n * (n - 1) * |m.relations.symmetric|)
  {
    var units := MultiThreadUnits(m.timeUnits);
    var r := DetectAtomicityViolation(m);
    if units == [] {
      assert r == Ok([]);
    } else {
      DetectErr(m, units);
      DetectCount(m, units);
    }
  }

  lemma DetectErr(m: Model, units: seq<TimeUnit>)
    requires units == MultiThreadUnits(m.timeUnits) && units != []
    ensures SomeThreadWithoutEdges(TimeUnitsGraphs(units, m.edges), units) ==> DetectAtomicityViolation(m) == Err(ValueError)
    ensures UnitThreadEdges(TimeUnitsGraphs(units, m.edges), units).Err? ==> DetectAtomicityViolation(m).Err?
  {
    UnitThreadEdgesErr(TimeUnitsGraphs(units, m.edges), units);
  }

  lemma DetectCount(m: Model, units: seq<TimeUnit>)
    requires units == MultiThreadUnits(m.timeUnits) && units != []
    ensures var r := DetectAtomicityViolation(m);
            r.Ok? ==>
              var n := |Subgraphs(UnitThreadEdges(TimeUnitsGraphs(units, m.edges), units).value)|;
              2 * |r.value| == n * (n - 1) * |m.relations.symmetric|
  {
    DetectErr(m, units);
    var te := UnitThreadEdges(TimeUnitsGraphs(units, m.edges), units);
    if te.Ok? {
      DetectCountOf(m, units, te.value);
    }
  }

  lemma DetectCountOf(m: Model, units: seq<TimeUnit>, threadEdges: seq<seq<Edge>>)
    requires units == MultiThreadUnits(m.timeUnits) && units != []
    requires UnitThreadEdges(TimeUnitsGraphs(units, m.edges), units) == Ok(threadEdges)
    ensures var r := DetectAtomicityViolation(m);
            var n := |Subgraphs(threadEdges)|;
            r.Ok? ==> 2 * |r.value| == n * (n - 1) * |m.relations.symmetric|
  {
    DetectUnfold(m, units, threadEdges);
    PairsCount(Subgraphs(threadEdges), m.relations.symmetric, DetectAtomicityViolation(m));
  }

  lemma DetectUnfold(m: Model, units: seq<TimeUnit>, threadEdges: seq<seq<Edge>>)
    requires units == MultiThreadUnits(m.timeUnits) && units != []
    requires UnitThreadEdges(TimeUnitsGraphs(units, m.edges), units) == Ok(threadEdges)
    ensures DetectAtomicityViolation(m) == ViolationsOver(Combinations2(Subgraphs(threadEdges)), m.relations.symmetric)
  {
  }

  // Two threads each incrementing a counter in one critical section and printing it in
  // a later one, with the relation pairing the two operations of each thread.
  const M: Mutex := Mutex(1)
  const Counter: Res := Res(1, {"account_balance"})
  const Thread1: seq<Edge> :=
    [Locking(M, Op(1, 1)), Usage(Op(1, 2), Counter), Unlocking(Op(1, 3), M),
     Locking(M, Op(1, 4)), Usage(Op(1, 5), Counter), Unlocking(Op(1, 6), M)]
  const Thread2: seq<Edge> :=
    [Locking(M, Op(2, 1)), Usage(Op(2, 2), Counter), Unlocking(Op(2, 3), M),
     Locking(M, Op(2, 4)), Usage(Op(2, 5), Counter), Unlocking(Op(2, 6), M)]

  lemma SplitSectionsOfTwo(a: SectionOp, b: SectionOp, relation: Relation)
    ensures SplitSections([a, b], relation) ==
            (if IsSplit(a, relation) then [a] else []) + (if IsSplit(b, relation) then [b] else [])
  {
    assert [a, b][1..] == [b];
    assert [b][1..] == [];
    var tail := if IsSplit(b, relation) then [b] else [];
    assert SplitSections([b], relation) == tail + SplitSections([], relation);
    assert tail + [] == tail;
  }

  lemma GroupFromStep(st: GroupState, graph: seq<Edge>)
    requires graph != [] && Step(st, graph[0]).Ok?
    ensures GroupFrom(st, graph) == GroupFrom(Step(st, graph[0]).value, graph[1..])
  {
  }

  /** The two increments land in sections 1 and 2, each holding the one mutex. */
  lemma {:induction false} TwoSectionsOfOneThread(t: ThreadId)
    ensures var g := [Locking(M, Op(t, 1)), Usage(Op(t, 2), Counter), Unlocking(Op(t, 3), M),
                      Locking(M, Op(t, 4)), Usage(Op(t, 5), Counter), Unlocking(Op(t, 6), M)];
            Group(g) == Ok([SectionOp(1, Op(t, 2), Counter, [M], g[1]), SectionOp(2, Op(t, 5), Counter, [M], g[4])])
  {
    var g := [Locking(M, Op(t, 1)), Usage(Op(t, 2), Counter), Unlocking(Op(t, 3), M),
              Locking(M, Op(t, 4)), Usage(Op(t, 5), Counter), Unlocking(Op(t, 6), M)];
    var r1 := SectionOp(1, Op(t, 2), Counter, [M], g[1]);
    var r2 := SectionOp(2, Op(t, 5), Counter, [M], g[4]);
    var s1 := GroupState([M], 1, []);
    var s2 := GroupState([M], 1, [r1]);
    var s3 := GroupState([], 1, [r1]);
    var s4 := GroupState([M], 2, [r1]);
    var s5 := GroupState([M], 2, [r1, r2]);
    var s6 := GroupState([], 2, [r1, r2]);
    assert Step(Initial, g[0]) == Ok(s1) by { assert Initial.stack + [M] == [M]; }
    assert Step(s1, g[1]) == Ok(s2) by { assert s1.ops + [r1] == [r1]; }
    assert Step(s2, g[2]) == Ok(s3) by { assert Remove([M], M) == Ok([]); }
    assert Step(s3, g[3]) == Ok(s4);
    assert Step(s4, g[4]) == Ok(s5) by { assert s4.ops + [r2] == [r1, r2]; }
    assert Step(s5, g[5]) == Ok(s6) by { assert Remove([M], M) == Ok([]); }
    GroupFromStep(Initial, g);
    GroupFromStep(s1, g[1..]);
    GroupFromStep(s2, g[2..]);
    GroupFromStep(s3, g[3..]);
    GroupFromStep(s4, g[4..]);
    GroupFromStep(s5, g[5..]);
    assert g[1..][1..] == g[2..] && g[2..][1..] == g[3..] && g[3..][1..] == g[4..];
    assert g[4..][1..] == g[5..] && g[5..][1..] == [];
  }

  /** The relation of one thread's two increments finds nothing in the other thread's graph. */
  lemma ForeignRelationFindsNothing()
    ensures Violation(Thread2, Thread1, (Op(1, 2), Op(1, 5))) == Ok([])
    ensures Violation(Thread1, Thread2, (Op(2, 2), Op(2, 5))) == Ok([])
  {
    TwoSectionsOfOneThread(1);
    TwoSectionsOfOneThread(2);
    var recs1 := [SectionOp(1, Op(1, 2), Counter, [M], Thread1[1]), SectionOp(2, Op(1, 5), Counter, [M], Thread1[4])];
    var recs2 := [SectionOp(1, Op(2, 2), Counter, [M], Thread2[1]), SectionOp(2, Op(2, 5), Counter, [M], Thread2[4])];
    assert Group(Thread1) == Ok(recs1);
    assert Group(Thread2) == Ok(recs2);
    assert recs1[1..][1..] == [] && recs2[1..][1..] == [];
    SplitSectionsOfTwo(recs2[0], recs2[1], (Op(1, 2), Op(1, 5)));
    SplitSectionsOfTwo(recs1[0], recs1[1], (Op(2, 2), Op(2, 5)));
  }

  lemma AccessesOfThread(t: ThreadId)
    ensures var g := [Locking(M, Op(t, 1)), Usage(Op(t, 2), Counter), Unlocking(Op(t, 3), M),
                      Locking(M, Op(t, 4)), Usage(Op(t, 5), Counter), Unlocking(Op(t, 6), M)];
            SharedAccesses(g, Counter) == [g[1], g[4]]
  {
    var g := [Locking(M, Op(t, 1)), Usage(Op(t, 2), Counter), Unlocking(Op(t, 3), M),
              Locking(M, Op(t, 4)), Usage(Op(t, 5), Counter), Unlocking(Op(t, 6), M)];
    assert g[5..][1..] == [];
    assert g[4..][1..] == g[5..] && g[3..][1..] == g[4..] && g[2..][1..] == g[3..];
    assert g[1..][1..] == g[2..];
    assert SharedAccesses(g[5..], Counter) == [];
    assert SharedAccesses(g[4..], Counter) == [g[4]];
    assert SharedAccesses(g[2..], Counter) == [g[4]];
    assert SharedAccesses(g[1..], Counter) == [g[1], g[4]];
  }

  /**
   * Each thread's relation is split across its two sections; the finding is its two
   * edges followed by the other thread's two accesses to the counter.
   */
  lemma OwnRelationIsSplit()
    ensures Violation(Thread1, Thread2, (Op(1, 2), Op(1, 5))) == Ok([Thread1[1], Thread1[4], Thread2[1], Thread2[4]])
    ensures Violation(Thread2, Thread1, (Op(2, 2), Op(2, 5))) == Ok([Thread2[1], Thread2[4], Thread1[1], Thread1[4]])
  {
    TwoSectionsOfOneThread(1);
    TwoSectionsOfOneThread(2);
    AccessesOfThread(1);
    AccessesOfThread(2);
    var recs1 := [SectionOp(1, Op(1, 2), Counter, [M], Thread1[1]), SectionOp(2, Op(1, 5), Counter, [M], Thread1[4])];
    var recs2 := [SectionOp(1, Op(2, 2), Counter, [M], Thread2[1]), SectionOp(2, Op(2, 5), Counter, [M], Thread2[4])];
    assert Group(Thread1) == Ok(recs1);
    assert Group(Thread2) == Ok(recs2);
    assert recs1[1..][1..] == [] && recs2[1..][1..] == [];
    SplitSectionsOfTwo(recs1[0], recs1[1], (Op(1, 2), Op(1, 5)));
    SplitSectionsOfTwo(recs2[0], recs2[1], (Op(2, 2), Op(2, 5)));
    assert [Thread1[1], Thread1[4]] + [Thread2[1], Thread2[4]] == [Thread1[1], Thread1[4], Thread2[1], Thread2[4]];
    assert [Thread2[1], Thread2[4]] + [Thread1[1], Thread1[4]] == [Thread2[1], Thread2[4], Thread1[1], Thread1[4]];
  }

  /**
   * The shape of atomicity_violation1.c: two yields, one per relation, each holding one
   * mirrored finding of four edges.
   */
  lemma MirroredFindings()
    ensures SymmetricRelationViolated(Thread1, Thread2, [(Op(1, 2), Op(1, 5)), (Op(2, 2), Op(2, 5))]) ==
            Ok([[[Thread1[1], Thread1[4], Thread2[1], Thread2[4]]], [[Thread2[1], Thread2[4], Thread1[1], Thread1[4]]]])
  {
    ForeignRelationFindsNothing();
    OwnRelationIsSplit();
    var rels := [(Op(1, 2), Op(1, 5)), (Op(2, 2), Op(2, 5))];
    assert rels[1..][1..] == [];
    var f1 := [Thread1[1], Thread1[4], Thread2[1], Thread2[4]];
    var f2 := [Thread2[1], Thread2[4], Thread1[1], Thread1[4]];
    assert rels[0] == (Op(1, 2), Op(1, 5)) && rels[1] == (Op(2, 2), Op(2, 5));
    assert RelationResults(Thread1, Thread2, rels[0]) == Ok([f1]) by { assert [f1] + [] == [f1]; }
    assert RelationResults(Thread1, Thread2, rels[1]) == Ok([f2]) by { assert [] + [f2] == [f2]; }
    assert SymmetricRelationViolated(Thread1, Thread2, rels[1..][1..]) == Ok([]);
    assert SymmetricRelationViolated(Thread1, Thread2, rels[1..]) == Ok([[f2]]) by {
      assert rels[1..][0] == rels[1];
      assert [[f2]] + [] == [[f2]];
    }
    assert [[f1]] + [[f2]] == [[f1], [f2]];
  }

  // One critical section holding both operations of the relation.
  const OneSection: seq<Edge> :=
    [Locking(M, Op(1, 1)), Usage(Op(1, 2), Counter), Usage(Op(1, 3), Counter), Unlocking(Op(1, 4), M)]

  lemma OneSectionGroup()
    ensures Group(OneSection) ==
            Ok([SectionOp(1, Op(1, 2), Counter, [M], OneSection[1]), SectionOp(1, Op(1, 3), Counter, [M], OneSection[2])])
  {
    var g := OneSection;
    var r1 := SectionOp(1, Op(1, 2), Counter, [M], g[1]);
    var r2 := SectionOp(1, Op(1, 3), Counter, [M], g[2]);
    var s1 := GroupState([M], 1, []);
    var s2 := GroupState([M], 1, [r1]);
    var s3 := GroupState([M], 1, [r1, r2]);
    var s4 := GroupState([], 1, [r1, r2]);
    assert Step(Initial, g[0]) == Ok(s1) by { assert Initial.stack + [M] == [M]; }
    assert Step(s1, g[1]) == Ok(s2) by { assert s1.ops + [r1] == [r1]; }
    assert Step(s2, g[2]) == Ok(s3) by { assert s2.ops + [r2] == [r1, r2]; }
    assert Step(s3, g[3]) == Ok(s4) by { assert Remove([M], M) == Ok([]); }
    GroupFromStep(Initial, g);
    GroupFromStep(s1, g[1..]);
    GroupFromStep(s2, g[2..]);
    GroupFromStep(s3, g[3..]);
    assert g[1..][1..] == g[2..] && g[2..][1..] == g[3..] && g[3..][1..] == [];
  }

  /**
   * Section numbers play no part: the relation's two operations inside one critical
   * section are split entries too, and are reported.
   */
  lemma SameSectionIsReported()
    ensures Violation(OneSection, [], (Op(1, 2), Op(1, 3))) == Ok([OneSection[1], OneSection[2]])
  {
    OneSectionGroup();
    var r1 := SectionOp(1, Op(1, 2), Counter, [M], OneSection[1]);
    var r2 := SectionOp(1, Op(1, 3), Counter, [M], OneSection[2]);
    SplitSectionsOfTwo(r1, r2, (Op(1, 2), Op(1, 3)));
    assert [OneSection[1], OneSection[2]] + [] == [OneSection[1], OneSection[2]];
  }
}
