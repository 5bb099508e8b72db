/**
 * The deadlock detector: lock orders taken in opposite directions by two threads
 * ("double lock") and lock edges that are never unlocked ("missing unlock").
 */
module Deadlock {
  import opened Exceptions
  import opened Mascm
  import opened Collections
  import opened TimeUnitHelper

  /** A lock edge carries +mutex number, an unlock edge -mutex number. */
  type MutexEntry = (int, Edge)

  /** collect_mutexes_indexes as a function of the edges. */
  function MutexIndexes(edges: seq<Edge>): (r: seq<MutexEntry>)
    ensures |r| <= |edges|
  {
    if edges == [] then []
    else
      var rest := MutexIndexes(edges[1..]);
      match edges[0]
      case Locking(q, _) => [(q.num as int, edges[0])] + rest
      case Unlocking(_, q) => [(-(q.num as int), edges[0])] + rest
      case _ => rest
  }

  /** The signed mutex number of a lock or unlock edge. */
  function SignedIndex(e: Edge): int
    requires IsMutexEdge(e)
  {
    if e.Locking? then e.q.num as int else -(e.q.num as int)
  }

  /** The mutex edges in model order, everything else dropped. */
  function MutexEdges(edges: seq<Edge>): (r: seq<Edge>)
    ensures |r| <= |edges|
    ensures forall i :: 0 <= i < |r| ==> IsMutexEdge(r[i]) && r[i] in edges
  {
    if edges == [] then []
    else (if IsMutexEdge(edges[0]) then [edges[0]] else []) + MutexEdges(edges[1..])
  }

  /** idx pairs each edge of es, in order, with its signed mutex number. */
  predicate EntriesOf(idx: seq<MutexEntry>, es: seq<Edge>)
  {
    |idx| == |es| && forall i :: 0 <= i < |idx| ==> IsMutexEdge(es[i]) && idx[i] == (SignedIndex(es[i]), es[i])
  }

  lemma EntriesCons(e: Edge, idx: seq<MutexEntry>, es: seq<Edge>)
    requires IsMutexEdge(e) && EntriesOf(idx, es)
    ensures EntriesOf([(SignedIndex(e), e)] + idx, [e] + es)
  {
  }

  lemma {:induction false} MutexIndexesEntries(edges: seq<Edge>)
    ensures EntriesOf(MutexIndexes(edges), MutexEdges(edges))
  {
    if edges != [] {
      MutexIndexesEntries(edges[1..]);
      if IsMutexEdge(edges[0]) {
        assert MutexIndexes(edges) == [(SignedIndex(edges[0]), edges[0])] + MutexIndexes(edges[1..]);
        assert MutexEdges(edges) == [edges[0]] + MutexEdges(edges[1..]);
        EntriesCons(edges[0], MutexIndexes(edges[1..]), MutexEdges(edges[1..]));
      } else {
        assert MutexIndexes(edges) == MutexIndexes(edges[1..]);
        assert MutexEdges(edges) == MutexEdges(edges[1..]);
      }
    }
  }

  /**
   * Entry i is the i-th mutex edge of the input with its signed number: the sign is
   * positive exactly for lock edges.
   */
  lemma MutexIndexesSpec(edges: seq<Edge>)
    ensures |MutexIndexes(edges)| == |MutexEdges(edges)|
    ensures forall i :: 0 <= i < |MutexIndexes(edges)| ==>
              MutexIndexes(edges)[i].1 == MutexEdges(edges)[i] &&
              MutexIndexes(edges)[i].0 == SignedIndex(MutexEdges(edges)[i]) &&
              (MutexIndexes(edges)[i].0 > 0 <==> MutexIndexes(edges)[i].1.Locking?)
  {
    MutexIndexesEntries(edges);
  }

  /** On a collection of mutex edges only, entry i belongs to edge i. */
  lemma MutexIndexesOfMutexEdges(edges: seq<Edge>)
    requires forall i :: 0 <= i < |edges| ==> IsMutexEdge(edges[i])
    ensures |MutexIndexes(edges)| == |edges|
    ensures forall i :: 0 <= i < |edges| ==>
              MutexIndexes(edges)[i] == (SignedIndex(edges[i]), edges[i])
  {
    MutexIndexesSpec(edges);
    FilterAll(edges);
  }

  lemma {:induction false} FilterAll(edges: seq<Edge>)
    requires forall i :: 0 <= i < |edges| ==> IsMutexEdge(edges[i])
    ensures MutexEdges(edges) == edges
  {
    if edges != [] {
      FilterAll(edges[1..]);
    }
  }

  /** collect_mutexes_indexes: one loop over the edges appending signed entries. */
  method CollectMutexesIndexes(edges: seq<Edge>) returns (collection: seq<MutexEntry>)
    ensures collection == MutexIndexes(edges)
  {
    collection := [];
    var i := 0;
    while i < |edges|
      invariant 0 <= i <= |edges|
      invariant collection + MutexIndexes(edges[i..]) == MutexIndexes(edges)
    {
      var edge := edges[i];
      if edge.Locking? {
        collection := collection + [(edge.q.num as int, edge)];
      } else if edge.Unlocking? {
        collection := collection + [(-(edge.q.num as int), edge)];
      }
      assert edges[i..][1..] == edges[i + 1..];
      i := i + 1;
    }
  }

  /** The distinct positive numbers of a collection. */
  function PositiveNumbers(collection: seq<MutexEntry>): set<int>
  {
    set i | 0 <= i < |collection| && collection[i].0 > 0 :: collection[i].0
  }

  /** is_used_single_mutex. */
  predicate IsUsedSingleMutex(collection: seq<MutexEntry>)
  {
    |PositiveNumbers(collection)| == 1
  }

  /** Some entry is positive and every positive entry carries its number. */
  lemma SingleMutexIff(collection: seq<MutexEntry>)
    ensures IsUsedSingleMutex(collection) <==>
            exists i :: 0 <= i < |collection| && collection[i].0 > 0 &&
                        forall j :: 0 <= j < |collection| && collection[j].0 > 0 ==> collection[j].0 == collection[i].0
  {
    if IsUsedSingleMutex(collection) {
      SingleMutexHasOwner(collection);
    }
    if exists i :: 0 <= i < |collection| && collection[i].0 > 0 &&
                   forall j :: 0 <= j < |collection| && collection[j].0 > 0 ==> collection[j].0 == collection[i].0 {
      var i :| 0 <= i < |collection| && collection[i].0 > 0 &&
               forall j :: 0 <= j < |collection| && collection[j].0 > 0 ==> collection[j].0 == collection[i].0;
      OwnerIsSingle(collection, i);
    }
  }

  lemma SingleMutexHasOwner(collection: seq<MutexEntry>)
    requires IsUsedSingleMutex(collection)
    ensures exists i :: 0 <= i < |collection| && collection[i].0 > 0 &&
                        forall j :: 0 <= j < |collection| && collection[j].0 > 0 ==> collection[j].0 == collection[i].0
  {
    var s := PositiveNumbers(collection);
    var m :| m in s;
    var i :| 0 <= i < |collection| && collection[i].0 > 0 && collection[i].0 == m;
    forall j | 0 <= j < |collection| && collection[j].0 > 0
      ensures collection[j].0 == collection[i].0
    {
      var x := collection[j].0;
      assert x in s;
      if x != m {
        assert {m, x} <= s;
        assert |{m, x}| == 2;
        SubsetCard({m, x}, s);
      }
    }
  }

  lemma OwnerIsSingle(collection: seq<MutexEntry>, i: nat)
    requires i < |collection| && collection[i].0 > 0
    requires forall j :: 0 <= j < |collection| && collection[j].0 > 0 ==> collection[j].0 == collection[i].0
    ensures IsUsedSingleMutex(collection)
  {
    assert collection[i].0 in PositiveNumbers(collection);
    assert PositiveNumbers(collection) == {collection[i].0};
  }

  lemma SubsetCard(a: set<int>, b: set<int>)
    requires a <= b
    ensures |a| <= |b|
  {
    assert b == a + (b - a);
  }

  function Sum(xs: seq<int>): int
  {
    if xs == [] then 0 else xs[0] + Sum(xs[1..])
  }

  /** is_correct_numbers_of_locks_and_unlocks: bool(sum(collection)). */
  predicate IsCorrectNumbersOfLocksAndUnlocks(collection: seq<int>)
  {
    Sum(collection) != 0
  }

  /** Each number followed by its negation: every lock immediately released. */
  function LockThenUnlock(ms: seq<MutexNum>): seq<int>
  {
    if ms == [] then [] else [ms[0] as int, -(ms[0] as int)] + LockThenUnlock(ms[1..])
  }

  /**
   * The check answers true only when the numbers do not cancel out: a run in which
   * every lock is released gives false, despite the function's name.
   */
  lemma {:induction false} BalancedLocksGiveFalse(ms: seq<MutexNum>)
    ensures !IsCorrectNumbersOfLocksAndUnlocks(LockThenUnlock(ms))
  {
    if ms != [] {
      BalancedLocksGiveFalse(ms[1..]);
      var xs := LockThenUnlock(ms);
      assert xs[1..] == [-(ms[0] as int)] + LockThenUnlock(ms[1..]);
      assert xs[1..][1..] == LockThenUnlock(ms[1..]);
      assert Sum(xs[1..]) == -(ms[0] as int) + Sum(LockThenUnlock(ms[1..]));
    }
  }

  /** A single unreleased lock makes it answer true. */
  lemma UnmatchedLockGivesTrue(m: MutexNum)
    ensures IsCorrectNumbersOfLocksAndUnlocks([m])
  {
    assert Sum([m]) == m + Sum([]);
  }

  /** get_all_pairs_indexes. */
  function AllPairsIndexes(collection: seq<int>): seq<(int, int)>
  {
    Combinations2(collection)
  }

  /** The positive numbers in order: the lock order, which ignores releases. */
  function LockOrder(collection: seq<MutexEntry>): seq<int>
  {
    if collection == [] then []
    else (if collection[0].0 > 0 then [collection[0].0] else []) + LockOrder(collection[1..])
  }

  lemma {:induction false} LockOrderPositive(collection: seq<MutexEntry>)
    ensures forall i :: 0 <= i < |LockOrder(collection)| ==> LockOrder(collection)[i] > 0
  {
    if collection != [] {
      LockOrderPositive(collection[1..]);
    }
  }

  /** The first thread's locking pairs whose reverse is a locking pair of the second. */
  function ConflictedPairs(f: seq<MutexEntry>, s: seq<MutexEntry>): seq<(int, int)>
  {
    ConflictsIn(AllPairsIndexes(LockOrder(f)), AllPairsIndexes(LockOrder(s)))
  }

  function ConflictsIn(firstPairs: seq<(int, int)>, secondPairs: seq<(int, int)>): seq<(int, int)>
  {
    if firstPairs == [] then []
    else
      var p := firstPairs[0];
      (if (p.1, p.0) in secondPairs then [p] else []) + ConflictsIn(firstPairs[1..], secondPairs)
  }

  lemma {:induction false} ConflictsInMember(firstPairs: seq<(int, int)>, secondPairs: seq<(int, int)>, p: (int, int))
    ensures p in ConflictsIn(firstPairs, secondPairs) <==> p in firstPairs && (p.1, p.0) in secondPairs
  {
    if firstPairs != [] {
      ConflictsInMember(firstPairs[1..], secondPairs, p);
      assert firstPairs == [firstPairs[0]] + firstPairs[1..];
    }
  }

  /** The conflicted_pairs loop. */
  method CollectConflictedPairs(firstPairs: seq<(int, int)>, secondPairs: seq<(int, int)>)
    returns (conflicted: seq<(int, int)>)
    ensures conflicted == ConflictsIn(firstPairs, secondPairs)
  {
    conflicted := [];
    var i := 0;
    while i < |firstPairs|
      invariant 0 <= i <= |firstPairs|
      invariant conflicted + ConflictsIn(firstPairs[i..], secondPairs) == ConflictsIn(firstPairs, secondPairs)
    {
      var pair := firstPairs[i];
      assert firstPairs[i..][1..] == firstPairs[i + 1..];
      if (pair.1, pair.0) in secondPairs {
        conflicted := conflicted + [pair];
      }
      i := i + 1;
    }
  }

  /** Locks a then b, in that order, among the lock entries of the collection. */
  ghost predicate LocksInOrder(collection: seq<MutexEntry>, a: int, b: int)
  {
    exists i, j :: 0 <= i < j < |LockOrder(collection)| && LockOrder(collection)[i] == a && LockOrder(collection)[j] == b
  }

  /**
   * (a, b) conflicts exactly when the first collection locks a before b and the second
   * locks b before a; unlock entries play no part.
   */
  lemma ConflictedPairsIff(f: seq<MutexEntry>, s: seq<MutexEntry>, a: int, b: int)
    ensures (a, b) in ConflictedPairs(f, s) <==> LocksInOrder(f, a, b) && LocksInOrder(s, b, a)
  {
    ConflictsInMember(AllPairsIndexes(LockOrder(f)), AllPairsIndexes(LockOrder(s)), (a, b));
    Combinations2Member(LockOrder(f), a, b);
    Combinations2Member(LockOrder(s), b, a);
  }

  /**
   * The evidence loop of mutually_exclusive_pairs_of_mutex: the first entry numbered a,
   * then the first entry numbered b at or after it.
   */
  function PairEvidence(collection: seq<MutexEntry>, a: int, b: int, isFirst: bool): seq<Edge>
  {
    if collection == [] then []
    else
      var (index, edge) := collection[0];
      var takeA := index == a && !isFirst;
      var started := isFirst || takeA;
      var head := if takeA then [edge] else [];
      if started && index == b then head + [edge]
      else head + PairEvidence(collection[1..], a, b, started)
  }

  /** The position of the first entry at or after `from` numbered `x`, if any. */
  function FirstAt(collection: seq<MutexEntry>, x: int, from: nat): (r: Option<nat>)
    requires from <= |collection|
    ensures r.Some? ==> from <= r.value < |collection| && collection[r.value].0 == x &&
                        forall k :: from <= k < r.value ==> collection[k].0 != x
    ensures r.None? ==> forall k :: from <= k < |collection| ==> collection[k].0 != x
    decreases |collection| - from
  {
    if from == |collection| then None
    else if collection[from].0 == x then Some(from)
    else FirstAt(collection, x, from + 1)
  }

  /** The evidence once a's entry has been taken: the next entry numbered b, if any. */
  lemma {:induction false} PairEvidenceStarted(collection: seq<MutexEntry>, a: int, b: int)
    ensures PairEvidence(collection, a, b, true) ==
            match FirstAt(collection, b, 0)
            case None => []
            case Some(j) => [collection[j].1]
  {
    if collection != [] {
      PairEvidenceStarted(collection[1..], a, b);
      FirstAtShift(collection, b, 0);
    }
  }

  lemma FirstAtShift(collection: seq<MutexEntry>, x: int, from: nat)
    requires from < |collection|
    ensures FirstAt(collection, x, from + 1) ==
            match FirstAt(collection[1..], x, from)
            case None => None
            case Some(j) => Some(j + 1)
    decreases |collection| - from
  {
    if from + 1 < |collection| {
      FirstAtShift(collection, x, from + 1);
    }
  }

  /**
   * p1_pair / p2_pair: the first lock entry of a, and then the first entry of b at or
   * after it; never more than two edges.
   */
  lemma {:induction false} PairEvidenceSpec(collection: seq<MutexEntry>, a: int, b: int)
    ensures var r := PairEvidence(collection, a, b, false);
            match FirstAt(collection, a, 0)
            case None => r == []
            case Some(i) =>
              match FirstAt(collection, b, i)
              case None => r == [collection[i].1]
              case Some(j) => r == [collection[i].1, collection[j].1]
  {
    if collection != [] {
      if collection[0].0 == a {
        PairEvidenceAtA(collection, a, b);
      } else {
        FirstAtShift(collection, a, 0);
        assert PairEvidence(collection, a, b, false) == PairEvidence(collection[1..], a, b, false);
        PairEvidenceSpec(collection[1..], a, b);
        var i := FirstAt(collection[1..], a, 0);
        if i.Some? {
          FirstAtShift(collection, b, i.value);
        }
      }
    }
  }

  /** The case where the very first entry is numbered a. */
  lemma PairEvidenceAtA(collection: seq<MutexEntry>, a: int, b: int)
    requires collection != [] && collection[0].0 == a
    ensures var r := PairEvidence(collection, a, b, false);
            FirstAt(collection, a, 0) == Some(0) &&
            match FirstAt(collection, b, 0)
            case None => r == [collection[0].1]
            case Some(j) => r == [collection[0].1, collection[j].1]
  {
    if a != b {
      FirstAtShift(collection, b, 0);
      PairEvidenceStarted(collection[1..], a, b);
      assert PairEvidence(collection, a, b, false) == [collection[0].1] + PairEvidence(collection[1..], a, b, true);
    }
  }

  lemma PairEvidenceLength(collection: seq<MutexEntry>, a: int, b: int)
    ensures |PairEvidence(collection, a, b, false)| <= 2
  {
    PairEvidenceSpec(collection, a, b);
  }

  /** The is_first / break loop that builds one side of a double-lock finding. */
  method CollectPairEvidence(collection: seq<MutexEntry>, a: int, b: int) returns (pair: seq<Edge>)
    ensures pair == PairEvidence(collection, a, b, false)
  {
    pair := [];
    var isFirst := false;
    var i := 0;
    while i < |collection|
      invariant 0 <= i <= |collection|
      invariant pair + PairEvidence(collection[i..], a, b, isFirst) == PairEvidence(collection, a, b, false)
    {
      var (index, edge) := collection[i];
      PairEvidenceStep(collection, i, a, b, isFirst);
      ghost var rest := collection[i + 1..];
      if index == a && !isFirst {
        isFirst := true;
        pair := pair + [edge];
        assert PairEvidence(collection[i..], a, b, false) ==
               [edge] + (if index == b then [edge] else PairEvidence(rest, a, b, true));
      }
      if isFirst && index == b {
        pair := pair + [edge];
        return;
      }
      i := i + 1;
    }
  }

  /** One iteration of the evidence loop, as PairEvidence unfolds at position i. */
  lemma PairEvidenceStep(collection: seq<MutexEntry>, i: nat, a: int, b: int, isFirst: bool)
    requires i < |collection|
    ensures collection[i].0 == a && !isFirst ==>
              PairEvidence(collection[i..], a, b, isFirst) ==
              [collection[i].1] + (if collection[i].0 == b then [collection[i].1] else PairEvidence(collection[i + 1..], a, b, true))
    ensures !(collection[i].0 == a && !isFirst) ==>
              PairEvidence(collection[i..], a, b, isFirst) ==
              (if isFirst && collection[i].0 == b then [collection[i].1] else PairEvidence(collection[i + 1..], a, b, isFirst))
  {
    assert collection[i..][0] == collection[i] && collection[i..][1..] == collection[i + 1..];
  }

  /** One double-lock finding: the first thread's evidence and the second thread's. */
  type DoubleLockPair = (seq<Edge>, seq<Edge>)

  /** mutually_exclusive_pairs_of_mutex: one evidence pair per conflicted pair, in order. */
  function MutuallyExclusivePairsOfMutex(first: seq<Edge>, second: seq<Edge>): seq<DoubleLockPair>
  {
    var f := MutexIndexes(first);
    var s := MutexIndexes(second);
    if IsUsedSingleMutex(f) || IsUsedSingleMutex(s) then []
    else EvidenceFor(ConflictedPairs(f, s), f, s)
  }

  function EvidenceFor(pairs: seq<(int, int)>, f: seq<MutexEntry>, s: seq<MutexEntry>): (r: seq<DoubleLockPair>)
    ensures |r| == |pairs|
    ensures forall k :: 0 <= k < |pairs| ==>
              r[k] == (PairEvidence(f, pairs[k].0, pairs[k].1, false), PairEvidence(s, pairs[k].1, pairs[k].0, false))
  {
    if pairs == [] then []
    else
      [(PairEvidence(f, pairs[0].0, pairs[0].1, false), PairEvidence(s, pairs[0].1, pairs[0].0, false))]
      + EvidenceFor(pairs[1..], f, s)
  }

  /** mutually_exclusive_pairs_of_mutex run to completion, loop by loop. */
  method FindMutuallyExclusivePairs(first: seq<Edge>, second: seq<Edge>) returns (found: seq<DoubleLockPair>)
    ensures found == MutuallyExclusivePairsOfMutex(first, second)
  {
    var f := CollectMutexesIndexes(first);
    var s := CollectMutexesIndexes(second);
    if IsUsedSingleMutex(f) || IsUsedSingleMutex(s) {
      return [];
    }
    var conflicted := CollectConflictedPairs(AllPairsIndexes(LockOrder(f)), AllPairsIndexes(LockOrder(s)));
    found := CollectEvidence(conflicted, f, s);
  }

  /** The loop over the conflicted pairs, each with the evidence of both sides. */
  method CollectEvidence(conflicted: seq<(int, int)>, f: seq<MutexEntry>, s: seq<MutexEntry>)
    returns (found: seq<DoubleLockPair>)
    ensures found == EvidenceFor(conflicted, f, s)
  {
    found := [];
    var k := 0;
    while k < |conflicted|
      invariant 0 <= k <= |conflicted|
      invariant found + EvidenceFor(conflicted[k..], f, s) == EvidenceFor(conflicted, f, s)
    {
      var pair := conflicted[k];
      var p1 := CollectPairEvidence(f, pair.0, pair.1);
      var p2 := CollectPairEvidence(s, pair.1, pair.0);
      EvidenceForStep(conflicted, k, f, s);
      ghost var rest := EvidenceFor(conflicted[k + 1..], f, s);
      assert found + ([(p1, p2)] + rest) == (found + [(p1, p2)]) + rest;
      found := found + [(p1, p2)];
      k := k + 1;
    }
  }

  lemma EvidenceForStep(pairs: seq<(int, int)>, k: nat, f: seq<MutexEntry>, s: seq<MutexEntry>)
    requires k < |pairs|
    ensures EvidenceFor(pairs[k..], f, s) ==
            [(PairEvidence(f, pairs[k].0, pairs[k].1, false), PairEvidence(s, pairs[k].1, pairs[k].0, false))]
            + EvidenceFor(pairs[k + 1..], f, s)
  {
    assert pairs[k..][0] == pairs[k] && pairs[k..][1..] == pairs[k + 1..];
  }

  /**
   * Nothing is reported when either side uses a single mutex; otherwise one finding per
   * pair the first side locks in one order and the second side in the other.
   */
  lemma MutuallyExclusiveSpec(first: seq<Edge>, second: seq<Edge>)
    ensures var f := MutexIndexes(first);
            var s := MutexIndexes(second);
            var r := MutuallyExclusivePairsOfMutex(first, second);
            (IsUsedSingleMutex(f) || IsUsedSingleMutex(s) ==> r == []) &&
            (!IsUsedSingleMutex(f) && !IsUsedSingleMutex(s) ==>
              |r| == |ConflictedPairs(f, s)| &&
              forall k :: 0 <= k < |r| ==>
                var (a, b) := ConflictedPairs(f, s)[k];
                LocksInOrder(f, a, b) && LocksInOrder(s, b, a) &&
                r[k] == (PairEvidence(f, a, b, false), PairEvidence(s, b, a, false)) &&
                |r[k].0| <= 2 && |r[k].1| <= 2)
  {
    var f := MutexIndexes(first);
    var s := MutexIndexes(second);
    if !IsUsedSingleMutex(f) && !IsUsedSingleMutex(s) {
      var cs := ConflictedPairs(f, s);
      forall k | 0 <= k < |cs|
        ensures LocksInOrder(f, cs[k].0, cs[k].1) && LocksInOrder(s, cs[k].1, cs[k].0)
        ensures |PairEvidence(f, cs[k].0, cs[k].1, false)| <= 2
        ensures |PairEvidence(s, cs[k].1, cs[k].0, false)| <= 2
      {
        ConflictedPairsIff(f, s, cs[k].0, cs[k].1);
        PairEvidenceLength(f, cs[k].0, cs[k].1);
        PairEvidenceLength(s, cs[k].1, cs[k].0);
      }
    }
  }

  /** missing_unlock: entry i's edge is taken, by position, from the collection it was given. */
  function MissingUnlock(collection: seq<Edge>): seq<Edge>
  {
    var indexes := MutexIndexes(collection);
    MissingFrom(collection, Numbers(indexes), 0)
  }

  function Numbers(entries: seq<MutexEntry>): (r: seq<int>)
    ensures |r| == |entries|
    ensures forall i :: 0 <= i < |entries| ==> r[i] == entries[i].0
  {
    if entries == [] then [] else [entries[0].0] + Numbers(entries[1..])
  }

  function MissingFrom(collection: seq<Edge>, only: seq<int>, i: nat): seq<Edge>
    requires |only| <= |collection|
    decreases |only| - i
  {
    if i >= |only| then []
    else (if only[i] > 0 && -only[i] !in only then [collection[i]] else []) + MissingFrom(collection, only, i + 1)
  }

  /** The collection holds an unlock of mutex q. */
  ghost predicate HasUnlock(collection: seq<Edge>, q: Mutex)
  {
    exists j :: 0 <= j < |collection| && collection[j].Unlocking? && collection[j].q == q
  }

  /** Entry k is a lock whose negation the numbers lack, and its edge is e. */
  predicate MissingAt(collection: seq<Edge>, only: seq<int>, k: nat, e: Edge)
    requires |only| <= |collection|
  {
    k < |only| && only[k] > 0 && -only[k] !in only && collection[k] == e
  }

  lemma {:induction false} MissingFromMember(collection: seq<Edge>, only: seq<int>, i: nat, e: Edge)
    requires |only| <= |collection|
    ensures e in MissingFrom(collection, only, i) <==> exists k :: i <= k && MissingAt(collection, only, k, e)
    decreases |only| - i
  {
    if i < |only| {
      MissingFromMember(collection, only, i + 1, e);
      var head := if only[i] > 0 && -only[i] !in only then [collection[i]] else [];
      assert MissingFrom(collection, only, i) == head + MissingFrom(collection, only, i + 1);
      if e in head {
        assert MissingAt(collection, only, i, e);
      }
      if exists k :: i <= k && MissingAt(collection, only, k, e) {
        var k :| i <= k && MissingAt(collection, only, k, e);
        if k == i {
          assert e in head;
        } else {
          assert i + 1 <= k;
        }
      }
    }
  }

  /**
   * On a lock/unlock collection, the findings are exactly the lock edges whose mutex
   * is never unlocked in that collection.
   */
  lemma MissingUnlockSpec(collection: seq<Edge>, e: Edge)
    requires forall i :: 0 <= i < |collection| ==> IsMutexEdge(collection[i])
    ensures e in MissingUnlock(collection) <==> e in collection && e.Locking? && !HasUnlock(collection, e.q)
  {
    MutexIndexesOfMutexEdges(collection);
    var only := Numbers(MutexIndexes(collection));
    MissingFromMember(collection, only, 0, e);
    if e in MissingUnlock(collection) {
      var k :| 0 <= k && MissingAt(collection, only, k, e);
      MissingAtSound(collection, only, k, e);
    }
    if e in collection && e.Locking? && !HasUnlock(collection, e.q) {
      var k :| 0 <= k < |collection| && collection[k] == e;
      MissingAtComplete(collection, only, k, e);
    }
  }

  /** A reported lock has no unlock of its mutex. */
  lemma MissingAtSound(collection: seq<Edge>, only: seq<int>, k: nat, e: Edge)
    requires forall i :: 0 <= i < |collection| ==> IsMutexEdge(collection[i])
    requires |only| == |collection|
    requires forall i :: 0 <= i < |collection| ==> only[i] == SignedIndex(collection[i])
    requires MissingAt(collection, only, k, e)
    ensures e in collection && e.Locking? && !HasUnlock(collection, e.q)
  {
    forall j | 0 <= j < |collection| && collection[j].Unlocking?
      ensures collection[j].q != e.q
    {
      assert only[j] == -(collection[j].q.num as int);
    }
  }

  /** A lock whose mutex is never unlocked is reported at its own position. */
  lemma MissingAtComplete(collection: seq<Edge>, only: seq<int>, k: nat, e: Edge)
    requires forall i :: 0 <= i < |collection| ==> IsMutexEdge(collection[i])
    requires |only| == |collection|
    requires forall i :: 0 <= i < |collection| ==> only[i] == SignedIndex(collection[i])
    requires k < |collection| && collection[k] == e && e.Locking? && !HasUnlock(collection, e.q)
    ensures MissingAt(collection, only, k, e)
  {
    assert only[k] == e.q.num as int;
    forall j | 0 <= j < |only|
      ensures only[j] != -only[k]
    {
      assert only[j] == SignedIndex(collection[j]);
    }
  }

  /** A finding of detect_deadlock. */
  datatype DeadlockFinding =
    | DoubleLock(pair: DoubleLockPair)
    | MissingUnlockFinding(edge: Edge)

  function DoubleLocks(combos: seq<(seq<Edge>, seq<Edge>)>): seq<DeadlockFinding>
  {
    if combos == [] then []
    else Wrap(MutuallyExclusivePairsOfMutex(combos[0].0, combos[0].1)) + DoubleLocks(combos[1..])
  }

  function Wrap(pairs: seq<DoubleLockPair>): (r: seq<DeadlockFinding>)
    ensures |r| == |pairs| && forall i :: 0 <= i < |r| ==> r[i] == DoubleLock(pairs[i])
  {
    if pairs == [] then [] else [DoubleLock(pairs[0])] + Wrap(pairs[1..])
  }

  function MissingUnlocks(collections: seq<seq<Edge>>): seq<DeadlockFinding>
  {
    if collections == [] then []
    else WrapMissing(MissingUnlock(collections[0])) + MissingUnlocks(collections[1..])
  }

  function WrapMissing(edges: seq<Edge>): (r: seq<DeadlockFinding>)
    ensures |r| == |edges| && forall i :: 0 <= i < |r| ==> r[i] == MissingUnlockFinding(edges[i])
  {
    if edges == [] then [] else [MissingUnlockFinding(edges[0])] + WrapMissing(edges[1..])
  }

  /** detect_deadlock: double locks over unordered pairs of collections, then missing unlocks. */
  function DetectDeadlock(m: Model): Result<seq<DeadlockFinding>>
  {
    var units := MultiThreadUnits(m.timeUnits);
    if units == [] then Ok([])
    else
      var graphs := TimeUnitsGraphs(units, m.edges);
      var threadEdges :- UnitThreadEdges(graphs, units);
      var collections := Map(threadEdges, MutexEdges);
      Ok(DoubleLocks(Combinations2(collections)) + MissingUnlocks(collections))
  }

  lemma {:induction false} DoubleLocksKind(combos: seq<(seq<Edge>, seq<Edge>)>)
    ensures forall i :: 0 <= i < |DoubleLocks(combos)| ==> DoubleLocks(combos)[i].DoubleLock?
  {
    if combos != [] {
      DoubleLocksKind(combos[1..]);
    }
  }

  lemma {:induction false} MissingUnlocksKind(collections: seq<seq<Edge>>)
    ensures forall i :: 0 <= i < |MissingUnlocks(collections)| ==> MissingUnlocks(collections)[i].MissingUnlockFinding?
  {
    if collections != [] {
      MissingUnlocksKind(collections[1..]);
    }
  }

  /** No missing-unlock finding comes before a double-lock finding. */
  predicate DoubleLocksFirst(findings: seq<DeadlockFinding>)
  {
    forall i, j :: 0 <= i < j < |findings| && findings[j].DoubleLock? ==> findings[i].DoubleLock?
  }

  lemma DoubleLocksFirstConcat(d: seq<DeadlockFinding>, u: seq<DeadlockFinding>)
    requires forall i :: 0 <= i < |d| ==> d[i].DoubleLock?
    requires forall i :: 0 <= i < |u| ==> u[i].MissingUnlockFinding?
    ensures DoubleLocksFirst(d + u)
  {
    var fs := d + u;
    forall j | |d| <= j < |fs|
      ensures fs[j].MissingUnlockFinding?
    {
      assert fs[j] == u[j - |d|];
    }
    forall i | 0 <= i < |d|
      ensures fs[i].DoubleLock?
    {
      assert fs[i] == d[i];
    }
  }

  /**
   * detect_deadlock yields nothing without a unit of two or more threads, raises
   * ValueError exactly when an inspected thread has no edge in its unit's graph, and
   * otherwise yields every double lock before every missing unlock.
   */
  lemma DetectDeadlockSpec(m: Model)
    ensures var units := MultiThreadUnits(m.timeUnits);
            var r := DetectDeadlock(m);
            ((forall i :: 0 <= i < |m.timeUnits| ==> |m.timeUnits[i]| <= 1) ==> r == Ok([])) &&
            (units != [] ==>
              (r.Err? <==> SomeThreadWithoutEdges(TimeUnitsGraphs(units, m.edges), units)) &&
              (r.Err? ==> r.error == ValueError)) &&
            (r.Ok? ==> DoubleLocksFirst(r.value))
  {
    var units := MultiThreadUnits(m.timeUnits);
    if units != [] {
      var graphs := TimeUnitsGraphs(units, m.edges);
      UnitThreadEdgesErr(graphs, units);
      var te := UnitThreadEdges(graphs, units);
      if te.Ok? {
        var cs := Map(te.value, MutexEdges);
        DoubleLocksKind(Combinations2(cs));
        MissingUnlocksKind(cs);
        DoubleLocksFirstConcat(DoubleLocks(Combinations2(cs)), MissingUnlocks(cs));
      }
    }
  }

  /** Two distinct positive numbers rule out the single-mutex shortcut. */
  lemma TwoLocksNotSingle(c: seq<MutexEntry>, i: nat, j: nat)
    requires i < |c| && j < |c| && c[i].0 > 0 && c[j].0 > 0 && c[i].0 != c[j].0
    ensures !IsUsedSingleMutex(c)
  {
    assert {c[i].0, c[j].0} <= PositiveNumbers(c);
    SubsetCard({c[i].0, c[j].0}, PositiveNumbers(c));
  }

  // The scenario of deadlock1.c: thread 1 locks m1 then m2, thread 2 locks m2 then m1.
  const M1: Mutex := Mutex(1)
  const M2: Mutex := Mutex(2)
  const FirstThread: seq<Edge> :=
    [Locking(M1, Op(1, 1)), Locking(M2, Op(1, 2)), Unlocking(Op(1, 3), M2), Unlocking(Op(1, 4), M1)]
  const SecondThread: seq<Edge> :=
    [Locking(M2, Op(2, 1)), Locking(M1, Op(2, 2)), Unlocking(Op(2, 3), M1), Unlocking(Op(2, 4), M2)]
  // Thread 2 takes the locks in thread 1's order but releases them in the other order.
  const SameOrderThread: seq<Edge> :=
    [Locking(M1, Op(2, 1)), Locking(M2, Op(2, 2)), Unlocking(Op(2, 3), M1), Unlocking(Op(2, 4), M2)]

  lemma ScenarioIndexes()
    ensures MutexIndexes(FirstThread) == [(1, FirstThread[0]), (2, FirstThread[1]), (-2, FirstThread[2]), (-1, FirstThread[3])]
    ensures MutexIndexes(SecondThread) == [(2, SecondThread[0]), (1, SecondThread[1]), (-1, SecondThread[2]), (-2, SecondThread[3])]
    ensures MutexIndexes(SameOrderThread) == [(1, SameOrderThread[0]), (2, SameOrderThread[1]), (-1, SameOrderThread[2]), (-2, SameOrderThread[3])]
  {
    MutexIndexesOfMutexEdges(FirstThread);
    MutexIndexesOfMutexEdges(SecondThread);
    MutexIndexesOfMutexEdges(SameOrderThread);
  }

  lemma LockOrderOfTwo(c: seq<MutexEntry>)
    requires |c| == 4 && c[0].0 > 0 && c[1].0 > 0 && c[2].0 < 0 && c[3].0 < 0
    ensures LockOrder(c) == [c[0].0, c[1].0]
  {
    assert c[1..][1..][1..][1..] == [];
    assert LockOrder(c[1..][1..]) == [] by {
      assert LockOrder(c[1..][1..][1..]) == [];
    }
  }

  /** The opposite lock order is reported once, with thread 1's locks and thread 2's. */
  lemma OppositeOrderIsReported()
    ensures MutuallyExclusivePairsOfMutex(FirstThread, SecondThread) ==
            [([FirstThread[0], FirstThread[1]], [SecondThread[0], SecondThread[1]])]
  {
    ScenarioIndexes();
    var f := MutexIndexes(FirstThread);
    var s := MutexIndexes(SecondThread);
    TwoLocksNotSingle(f, 0, 1);
    TwoLocksNotSingle(s, 0, 1);
    assert ConflictedPairs(f, s) == [(1, 2)] by {
      LockOrderOfTwo(f);
      LockOrderOfTwo(s);
      assert AllPairsIndexes([1, 2]) == [(1, 2)];
      assert AllPairsIndexes([2, 1]) == [(2, 1)];
    }
    EvidenceOfFirstTwo(f);
    EvidenceOfFirstTwo(s);
    assert EvidenceFor([(1, 2)], f, s) ==
           [(PairEvidence(f, 1, 2, false), PairEvidence(s, 2, 1, false))];
  }

  /** The evidence for the first two entries' numbers is those two entries' edges. */
  lemma EvidenceOfFirstTwo(c: seq<MutexEntry>)
    requires |c| >= 2 && c[0].0 != c[1].0
    ensures PairEvidence(c, c[0].0, c[1].0, false) == [c[0].1, c[1].1]
  {
    assert c[1..][0] == c[1];
  }

  /** Both threads lock m1 before m2; the order of the unlocks plays no part. */
  lemma ReleaseOrderIsIgnored()
    ensures MutuallyExclusivePairsOfMutex(FirstThread, SameOrderThread) == []
  {
    ScenarioIndexes();
    var f := MutexIndexes(FirstThread);
    var s := MutexIndexes(SameOrderThread);
    TwoLocksNotSingle(f, 0, 1);
    TwoLocksNotSingle(s, 0, 1);
    LockOrderOfTwo(f);
    LockOrderOfTwo(s);
    assert AllPairsIndexes([1, 2]) == [(1, 2)];
    assert ConflictedPairs(f, s) == [];
  }
}
