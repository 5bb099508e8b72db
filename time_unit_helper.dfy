/**
 * Selecting the edges of a time unit and building one graph per time unit,
 * keeping transitions only while the mutex-edge parity flag is set.
 */
module TimeUnitHelper {
  import opened Exceptions
  import opened Mascm
  import opened Collections

  /** The edges with an operation of thread t as an endpoint, in model order. */
  function ThreadEdges(edges: seq<Edge>, t: ThreadId): seq<Edge>
  {
    if edges == [] then []
    else (if TouchesThread(edges[0], t) then [edges[0]] else []) + ThreadEdges(edges[1..], t)
  }

  lemma {:induction false} ThreadEdgesMultiplicity(edges: seq<Edge>, t: ThreadId, e: Edge)
    ensures multiset(ThreadEdges(edges, t))[e] == if TouchesThread(e, t) then multiset(edges)[e] else 0
  {
    if edges != [] {
      ThreadEdgesMultiplicity(edges[1..], t, e);
      assert edges == [edges[0]] + edges[1..];
      assert multiset(edges) == multiset([edges[0]]) + multiset(edges[1..]);
    }
  }

  /** get_time_unit_edges: thread-major, each thread's edges in model order. */
  function TimeUnitEdges(unit: TimeUnit, edges: seq<Edge>): seq<Edge>
  {
    if unit == [] then [] else ThreadEdges(edges, unit[0]) + TimeUnitEdges(unit[1..], edges)
  }

  /** An edge is yielded exactly when it touches some thread of the unit. */
  lemma {:induction false} TimeUnitEdgesMember(unit: TimeUnit, edges: seq<Edge>, e: Edge)
    ensures e in TimeUnitEdges(unit, edges) <==>
            e in edges && exists k :: 0 <= k < |unit| && TouchesThread(e, unit[k])
  {
    if unit != [] {
      TimeUnitEdgesMember(unit[1..], edges, e);
      ThreadEdgesMultiplicity(edges, unit[0], e);
      assert e in ThreadEdges(edges, unit[0]) <==> e in edges && TouchesThread(e, unit[0]);
      if exists k :: 0 <= k < |unit| && TouchesThread(e, unit[k]) {
        var k :| 0 <= k < |unit| && TouchesThread(e, unit[k]);
        if k > 0 {
          assert TouchesThread(e, unit[1..][k - 1]);
        }
      }
      if exists k :: 0 <= k < |unit[1..]| && TouchesThread(e, unit[1..][k]) {
        var k :| 0 <= k < |unit[1..]| && TouchesThread(e, unit[1..][k]);
        assert TouchesThread(e, unit[k + 1]);
      }
    }
  }

  /** The number of positions of the unit whose thread the edge touches. */
  function TouchedThreads(unit: TimeUnit, e: Edge): nat
  {
    if unit == [] then 0 else (if TouchesThread(e, unit[0]) then 1 else 0) + TouchedThreads(unit[1..], e)
  }

  /** m copies for every position of the unit whose thread the edge touches. */
  function Copies(unit: TimeUnit, e: Edge, m: nat): nat
  {
    if unit == [] then 0 else (if TouchesThread(e, unit[0]) then m else 0) + Copies(unit[1..], e, m)
  }

  lemma {:induction false} CopiesIsProduct(unit: TimeUnit, e: Edge, m: nat)
    ensures Copies(unit, e, m) == m * TouchedThreads(unit, e)
  {
    if unit != [] {
      CopiesIsProduct(unit[1..], e, m);
      var a := if TouchesThread(e, unit[0]) then 1 else 0;
      MulDistributes(m, a, TouchedThreads(unit[1..], e));
    }
  }

  lemma {:induction false} TimeUnitEdgesCopies(unit: TimeUnit, edges: seq<Edge>, e: Edge)
    ensures multiset(TimeUnitEdges(unit, edges))[e] == Copies(unit, e, multiset(edges)[e])
  {
    if unit != [] {
      TimeUnitEdgesCopies(unit[1..], edges, e);
      ThreadEdgesMultiplicity(edges, unit[0], e);
      assert multiset(TimeUnitEdges(unit, edges)) ==
             multiset(ThreadEdges(edges, unit[0])) + multiset(TimeUnitEdges(unit[1..], edges));
    }
  }

  /** An edge is yielded once for every thread of the unit it touches. */
  lemma TimeUnitEdgesMultiplicity(unit: TimeUnit, edges: seq<Edge>, e: Edge)
    ensures multiset(TimeUnitEdges(unit, edges))[e] == multiset(edges)[e] * TouchedThreads(unit, e)
  {
    TimeUnitEdgesCopies(unit, edges, e);
    CopiesIsProduct(unit, e, multiset(edges)[e]);
  }

  lemma MulDistributes(m: nat, a: nat, b: nat)
    ensures m * (a + b) == m * a + m * b
  {
  }

  /** defaultdict lookup: a missing key reads as the empty list. */
  function Get(graphs: map<TimeUnit, seq<Edge>>, key: TimeUnit): seq<Edge>
  {
    if key in graphs then graphs[key] else []
  }

  /** Whether the filter keeps edge e while the parity flag is isMutex. */
  predicate Keeps(e: Edge, isMutex: bool)
  {
    IsMutexEdge(e) || IsResourceEdge(e) || isMutex
  }

  /** The flag after edge e: every mutex edge flips it. */
  function Flip(e: Edge, isMutex: bool): bool
  {
    if IsMutexEdge(e) then !isMutex else isMutex
  }

  /** The inner loop of get_time_units_graphs over one unit's edges. */
  function AddUnitEdges(graphs: map<TimeUnit, seq<Edge>>, key: TimeUnit, es: seq<Edge>, isMutex: bool)
    : (map<TimeUnit, seq<Edge>>, bool)
    decreases es
  {
    if es == [] then (graphs, isMutex)
    else
      var g := if Keeps(es[0], isMutex) then graphs[key := Get(graphs, key) + [es[0]]] else graphs;
      AddUnitEdges(g, key, es[1..], Flip(es[0], isMutex))
  }

  /** The outer loop of get_time_units_graphs; the flag is threaded through all units. */
  function AddUnits(graphs: map<TimeUnit, seq<Edge>>, isMutex: bool, units: seq<TimeUnit>, edges: seq<Edge>)
    : (map<TimeUnit, seq<Edge>>, bool)
    decreases units
  {
    if units == [] then (graphs, isMutex)
    else
      var (g, f) := AddUnitEdges(graphs, units[0], TimeUnitEdges(units[0], edges), isMutex);
      AddUnits(g, f, units[1..], edges)
  }

  /** get_time_units_graphs: `is_mutex` starts false once, before the first unit. */
  function TimeUnitsGraphs(units: seq<TimeUnit>, edges: seq<Edge>): map<TimeUnit, seq<Edge>>
  {
    AddUnits(map[], false, units, edges).0
  }

  /** The edges the filter keeps from es, starting with flag isMutex. */
  function Kept(es: seq<Edge>, isMutex: bool): seq<Edge>
  {
    if es == [] then [] else (if Keeps(es[0], isMutex) then [es[0]] else []) + Kept(es[1..], Flip(es[0], isMutex))
  }

  /** The flag after filtering es. */
  function FlagAfter(es: seq<Edge>, isMutex: bool): bool
  {
    if es == [] then isMutex else FlagAfter(es[1..], Flip(es[0], isMutex))
  }

  /** The number of mutex edges in es. */
  function MutexEdgeCount(es: seq<Edge>): nat
  {
    if es == [] then 0 else (if IsMutexEdge(es[0]) then 1 else 0) + MutexEdgeCount(es[1..])
  }

  /** The flag is the starting flag flipped once per mutex edge seen. */
  lemma {:induction false} FlagAfterParity(es: seq<Edge>, isMutex: bool)
    ensures FlagAfter(es, isMutex) == (isMutex != (MutexEdgeCount(es) % 2 == 1))
  {
    if es != [] {
      FlagAfterParity(es[1..], Flip(es[0], isMutex));
    }
  }

  /**
   * Read left to right: the next edge is kept when it has a mutex or a resource
   * endpoint, or when the flag left by the edges before it is set.
   */
  lemma {:induction false} KeptSnoc(es: seq<Edge>, e: Edge, isMutex: bool)
    ensures Kept(es + [e], isMutex) == Kept(es, isMutex) + (if Keeps(e, FlagAfter(es, isMutex)) then [e] else [])
    ensures FlagAfter(es + [e], isMutex) == Flip(e, FlagAfter(es, isMutex))
  {
    if es == [] {
      assert es + [e] == [e];
      assert Kept([e], isMutex) == (if Keeps(e, isMutex) then [e] else []) + Kept([], Flip(e, isMutex));
    } else {
      var f := Flip(es[0], isMutex);
      var head := if Keeps(es[0], isMutex) then [es[0]] else [];
      assert (es + [e])[0] == es[0];
      assert (es + [e])[1..] == es[1..] + [e];
      KeptSnoc(es[1..], e, f);
      var last := if Keeps(e, FlagAfter(es[1..], f)) then [e] else [];
      assert Kept(es + [e], isMutex) == head + Kept(es[1..] + [e], f);
      assert Kept(es, isMutex) == head + Kept(es[1..], f);
      assert head + (Kept(es[1..], f) + last) == (head + Kept(es[1..], f)) + last;
      assert FlagAfter(es, isMutex) == FlagAfter(es[1..], f);
    }
  }

  /** Every kept edge comes from es, and every mutex or resource edge of es is kept. */
  lemma {:induction false} KeptElements(es: seq<Edge>, isMutex: bool)
    ensures forall e :: e in Kept(es, isMutex) ==> e in es
    ensures forall i :: 0 <= i < |es| && (IsMutexEdge(es[i]) || IsResourceEdge(es[i])) ==> es[i] in Kept(es, isMutex)
  {
    if es != [] {
      KeptElements(es[1..], Flip(es[0], isMutex));
      assert forall i :: 1 <= i < |es| ==> es[i] == es[1..][i - 1];
    }
  }

  /** One unit's loop either leaves the graphs alone (nothing kept) or appends its kept edges under its key. */
  lemma {:induction false} AddUnitEdgesSpec(graphs: map<TimeUnit, seq<Edge>>, key: TimeUnit, es: seq<Edge>, isMutex: bool)
    ensures AddUnitEdges(graphs, key, es, isMutex).1 == FlagAfter(es, isMutex)
    ensures Kept(es, isMutex) == [] ==> AddUnitEdges(graphs, key, es, isMutex).0 == graphs
    ensures Kept(es, isMutex) != [] ==>
            AddUnitEdges(graphs, key, es, isMutex).0 == graphs[key := Get(graphs, key) + Kept(es, isMutex)]
    decreases es
  {
    if es != [] {
      var g := if Keeps(es[0], isMutex) then graphs[key := Get(graphs, key) + [es[0]]] else graphs;
      var f := Flip(es[0], isMutex);
      assert AddUnitEdges(graphs, key, es, isMutex) == AddUnitEdges(g, key, es[1..], f);
      assert FlagAfter(es, isMutex) == FlagAfter(es[1..], f);
      AddUnitEdgesSpec(g, key, es[1..], f);
      var rest := Kept(es[1..], f);
      if Keeps(es[0], isMutex) {
        KeptKeeps(graphs, key, es, isMutex, rest);
      } else {
        assert Kept(es, isMutex) == rest;
      }
    }
  }

  /** The map step of AddUnitEdgesSpec when the first edge is kept. */
  lemma KeptKeeps(graphs: map<TimeUnit, seq<Edge>>, key: TimeUnit, es: seq<Edge>, isMutex: bool, rest: seq<Edge>)
    requires es != [] && Keeps(es[0], isMutex) && rest == Kept(es[1..], Flip(es[0], isMutex))
    ensures var g := graphs[key := Get(graphs, key) + [es[0]]];
            Kept(es, isMutex) != [] &&
            (rest == [] ==> g == graphs[key := Get(graphs, key) + Kept(es, isMutex)]) &&
            (rest != [] ==> g[key := Get(g, key) + rest] == graphs[key := Get(graphs, key) + Kept(es, isMutex)])
  {
    assert Kept(es, isMutex) == [es[0]] + rest;
    if rest == [] {
      assert Kept(es, isMutex) == [es[0]];
    } else {
      assert Get(graphs, key) + [es[0]] + rest == Get(graphs, key) + Kept(es, isMutex);
    }
  }

  /** Every edge filed under a unit's key is a model edge touching one of that unit's threads. */
  predicate GraphsSound(graphs: map<TimeUnit, seq<Edge>>, edges: seq<Edge>)
  {
    forall key, e :: key in graphs && e in graphs[key] ==>
      e in edges && exists k :: 0 <= k < |key| && TouchesThread(e, key[k])
  }

  lemma {:induction false} AddUnitsSound(graphs: map<TimeUnit, seq<Edge>>, isMutex: bool, units: seq<TimeUnit>, edges: seq<Edge>)
    requires GraphsSound(graphs, edges)
    ensures GraphsSound(AddUnits(graphs, isMutex, units, edges).0, edges)
    decreases units
  {
    if units != [] {
      var unit := units[0];
      var es := TimeUnitEdges(unit, edges);
      AddUnitEdgesSpec(graphs, unit, es, isMutex);
      KeptElements(es, isMutex);
      var (g, f) := AddUnitEdges(graphs, unit, es, isMutex);
      forall key, e | key in g && e in g[key]
        ensures e in edges && exists k :: 0 <= k < |key| && TouchesThread(e, key[k])
      {
        if key == unit && e !in Get(graphs, key) {
          TimeUnitEdgesMember(unit, edges, e);
        }
      }
      AddUnitsSound(g, f, units[1..], edges);
    }
  }

  /** An edge that touches no thread of any unit never reaches a graph. */
  lemma TimeUnitsGraphsSound(units: seq<TimeUnit>, edges: seq<Edge>)
    ensures GraphsSound(TimeUnitsGraphs(units, edges), edges)
  {
    AddUnitsSound(map[], false, units, edges);
  }

  /** The inner loop of get_time_unit_edges: the first endpoint is tested before the second. */
  method CollectThreadEdges(edges: seq<Edge>, t: ThreadId) returns (mine: seq<Edge>)
    ensures mine == ThreadEdges(edges, t)
  {
    mine := [];
    var j := 0;
    while j < |edges|
      invariant 0 <= j <= |edges|
      invariant mine + ThreadEdges(edges[j..], t) == ThreadEdges(edges, t)
    {
      ghost var before := mine;
      ghost var head := if TouchesThread(edges[j], t) then [edges[j]] else [];
      if FirstIsOpOf(edges[j], t) {
        mine := mine + [edges[j]];
      } else if SecondIsOpOf(edges[j], t) {
        mine := mine + [edges[j]];
      }
      assert mine == before + head;
      assert edges[j..][0] == edges[j] && edges[j..][1..] == edges[j + 1..];
      assert ThreadEdges(edges[j..], t) == head + ThreadEdges(edges[j + 1..], t);
      assert before + (head + ThreadEdges(edges[j + 1..], t)) == mine + ThreadEdges(edges[j + 1..], t);
      j := j + 1;
    }
  }

  /** get_time_unit_edges as the generator's loops: thread-major, then edge order. */
  method GetTimeUnitEdges(unit: TimeUnit, edges: seq<Edge>) returns (r: seq<Edge>)
    ensures r == TimeUnitEdges(unit, edges)
  {
    r := [];
    var i := 0;
    while i < |unit|
      invariant 0 <= i <= |unit|
      invariant r + TimeUnitEdges(unit[i..], edges) == TimeUnitEdges(unit, edges)
    {
      var mine := CollectThreadEdges(edges, unit[i]);
      assert unit[i..][1..] == unit[i + 1..];
      r := r + mine;
      i := i + 1;
    }
  }

  /** get_time_units_graphs: the `is_mutex` flag toggles across the whole loop. */
  method GetTimeUnitsGraphs(units: seq<TimeUnit>, edges: seq<Edge>) returns (graphs: map<TimeUnit, seq<Edge>>)
    ensures graphs == TimeUnitsGraphs(units, edges)
  {
    graphs := map[];
    var isMutex := false;
    var i := 0;
    while i < |units|
      invariant 0 <= i <= |units|
      invariant AddUnits(graphs, isMutex, units[i..], edges) == AddUnits(map[], false, units, edges)
    {
      var key := units[i];
      var unitEdges := GetTimeUnitEdges(key, edges);
      ghost var g0, f0 := graphs, isMutex;
      var j := 0;
      while j < |unitEdges|
        invariant 0 <= j <= |unitEdges|
        invariant AddUnitEdges(graphs, key, unitEdges[j..], isMutex) == AddUnitEdges(g0, key, unitEdges, f0)
      {
        var edge := unitEdges[j];
        if IsMutexEdge(edge) {
          graphs := graphs[key := Get(graphs, key) + [edge]];
          isMutex := !isMutex;
        } else if IsResourceEdge(edge) {
          graphs := graphs[key := Get(graphs, key) + [edge]];
        } else if isMutex {
          graphs := graphs[key := Get(graphs, key) + [edge]];
        }
        assert unitEdges[j..][1..] == unitEdges[j + 1..];
        j := j + 1;
      }
      assert unitEdges[j..] == [];
      assert units[i..][1..] == units[i + 1..];
      i := i + 1;
    }
  }

  /**
   * The flag is not reset between units: a unit whose edges end on an odd number of
   * mutex edges makes the next unit keep its transitions.
   */
  lemma ParityCarriesAcrossUnits()
    ensures var lock := Locking(Mutex(1), Op(1, 1));
            var step := Transition(Op(3, 1), Op(3, 2));
            TimeUnitsGraphs([[1, 2], [3, 4]], [lock, step]) == map[[1, 2] := [lock], [3, 4] := [step]]
  {
    var lock := Locking(Mutex(1), Op(1, 1));
    var step := Transition(Op(3, 1), Op(3, 2));
    var edges := [lock, step];
    assert ThreadEdges(edges[1..], 1) == [];
    assert ThreadEdges(edges, 1) == [lock];
    assert ThreadEdges(edges[1..], 2) == [];
    assert ThreadEdges(edges, 2) == [];
    assert TimeUnitEdges([2], edges) == [];
    assert TimeUnitEdges([1, 2], edges) == [lock];
    assert ThreadEdges(edges[1..], 3) == [step];
    assert ThreadEdges(edges, 3) == [step];
    assert ThreadEdges(edges[1..], 4) == [];
    assert ThreadEdges(edges, 4) == [];
    assert TimeUnitEdges([4], edges) == [];
    assert TimeUnitEdges([3, 4], edges) == [step];
    assert [lock][1..] == [] && [step][1..] == [];
    var g1 := map[[1, 2] := [lock]];
    var empty: map<TimeUnit, seq<Edge>> := map[];
    assert Get(empty, [1, 2]) + [lock] == [lock];
    assert empty[[1, 2] := [lock]] == g1;
    assert Keeps(lock, false) && Flip(lock, false);
    assert AddUnitEdges(map[], [1, 2], [lock], false) == AddUnitEdges(g1, [1, 2], [], true);
    assert AddUnitEdges(g1, [3, 4], [step], true) == AddUnitEdges(g1[[3, 4] := [step]], [3, 4], [], true);
  }

  /**
   * The edges of each listed thread in one unit's graph, or ValueError for the first
   * thread that has none: the preamble the three graph-reading detectors share.
   */
  function ThreadEdgeLists(graph: seq<Edge>, threads: seq<ThreadId>): Result<seq<seq<Edge>>>
  {
    if threads == [] then Ok([])
    else
      var te := ThreadEdges(graph, threads[0]);
      if te == [] then Err(ValueError)
      else
        var rest :- ThreadEdgeLists(graph, threads[1..]);
        Ok([te] + rest)
  }

  /** ThreadEdgeLists for every unit in turn, each read from its own graph. */
  function UnitThreadEdges(graphs: map<TimeUnit, seq<Edge>>, units: seq<TimeUnit>): Result<seq<seq<Edge>>>
  {
    if units == [] then Ok([])
    else
      var mine :- ThreadEdgeLists(Get(graphs, units[0]), units[0]);
      var rest :- UnitThreadEdges(graphs, units[1..]);
      Ok(mine + rest)
  }

  /** Some thread of some inspected unit has no edge in its unit's graph. */
  ghost predicate SomeThreadWithoutEdges(graphs: map<TimeUnit, seq<Edge>>, units: seq<TimeUnit>)
  {
    exists u, k :: 0 <= u < |units| && 0 <= k < |units[u]| && ThreadEdges(Get(graphs, units[u]), units[u][k]) == []
  }

  lemma {:induction false} ThreadEdgeListsErr(graph: seq<Edge>, threads: seq<ThreadId>)
    ensures ThreadEdgeLists(graph, threads).Err? <==>
            exists k :: 0 <= k < |threads| && ThreadEdges(graph, threads[k]) == []
    ensures ThreadEdgeLists(graph, threads).Err? ==> ThreadEdgeLists(graph, threads).error == ValueError
    ensures ThreadEdgeLists(graph, threads).Ok? ==>
              ThreadEdgeLists(graph, threads).value == Map(threads, t => ThreadEdges(graph, t))
  {
    if threads != [] {
      ThreadEdgeListsErr(graph, threads[1..]);
      if exists k :: 0 <= k < |threads[1..]| && ThreadEdges(graph, threads[1..][k]) == [] {
        var k :| 0 <= k < |threads[1..]| && ThreadEdges(graph, threads[1..][k]) == [];
        assert ThreadEdges(graph, threads[k + 1]) == [];
      }
      if exists k :: 0 <= k < |threads| && ThreadEdges(graph, threads[k]) == [] {
        var k :| 0 <= k < |threads| && ThreadEdges(graph, threads[k]) == [];
        if k > 0 {
          assert ThreadEdges(graph, threads[1..][k - 1]) == [];
        }
      }
    }
  }

  /**
   * ValueError exactly when some thread of some unit has no edge; otherwise the lists
   * are those threads' edges, unit by unit and thread by thread.
   */
  lemma UnitThreadEdgesErr(graphs: map<TimeUnit, seq<Edge>>, units: seq<TimeUnit>)
    ensures UnitThreadEdges(graphs, units).Err? <==> SomeThreadWithoutEdges(graphs, units)
    ensures UnitThreadEdges(graphs, units).Err? ==> UnitThreadEdges(graphs, units).error == ValueError
    ensures UnitThreadEdges(graphs, units).Ok? ==>
              forall k :: 0 <= k < |UnitThreadEdges(graphs, units).value| ==>
                UnitThreadEdges(graphs, units).value[k] != []
  {
    UnitThreadEdgesIff(graphs, units);
    UnitThreadEdgesNonEmpty(graphs, units);
  }

  lemma {:induction false} UnitThreadEdgesIff(graphs: map<TimeUnit, seq<Edge>>, units: seq<TimeUnit>)
    ensures UnitThreadEdges(graphs, units).Err? <==> SomeThreadWithoutEdges(graphs, units)
    ensures UnitThreadEdges(graphs, units).Err? ==> UnitThreadEdges(graphs, units).error == ValueError
  {
    if units != [] {
      ThreadEdgeListsErr(Get(graphs, units[0]), units[0]);
      UnitThreadEdgesIff(graphs, units[1..]);
      if SomeThreadWithoutEdges(graphs, units[1..]) {
        var u, k :| 0 <= u < |units[1..]| && 0 <= k < |units[1..][u]| &&
                    ThreadEdges(Get(graphs, units[1..][u]), units[1..][u][k]) == [];
        assert units[1..][u] == units[u + 1];
      }
      if SomeThreadWithoutEdges(graphs, units) {
        var u, k :| 0 <= u < |units| && 0 <= k < |units[u]| &&
                    ThreadEdges(Get(graphs, units[u]), units[u][k]) == [];
        if u > 0 {
          assert units[1..][u - 1] == units[u];
        }
      }
    }
  }

  lemma {:induction false} ThreadEdgeListsNonEmpty(graph: seq<Edge>, threads: seq<ThreadId>)
    ensures ThreadEdgeLists(graph, threads).Ok? ==>
              forall k :: 0 <= k < |ThreadEdgeLists(graph, threads).value| ==> ThreadEdgeLists(graph, threads).value[k] != []
  {
    if threads != [] {
      ThreadEdgeListsNonEmpty(graph, threads[1..]);
    }
  }

  lemma {:induction false} UnitThreadEdgesNonEmpty(graphs: map<TimeUnit, seq<Edge>>, units: seq<TimeUnit>)
    ensures UnitThreadEdges(graphs, units).Ok? ==>
              forall k :: 0 <= k < |UnitThreadEdges(graphs, units).value| ==> UnitThreadEdges(graphs, units).value[k] != []
  {
    if units != [] {
      ThreadEdgeListsNonEmpty(Get(graphs, units[0]), units[0]);
      UnitThreadEdgesNonEmpty(graphs, units[1..]);
      var r := UnitThreadEdges(graphs, units);
      if r.Ok? {
        var mine := ThreadEdgeLists(Get(graphs, units[0]), units[0]).value;
        var rest := UnitThreadEdges(graphs, units[1..]).value;
        assert r.value == mine + rest;
        forall k | 0 <= k < |r.value|
          ensures r.value[k] != []
        {
          if k < |mine| {
            assert r.value[k] == mine[k];
          } else {
            assert r.value[k] == rest[k - |mine|];
          }
        }
      }
    }
  }
}
