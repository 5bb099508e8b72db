/**
 * The race-condition detector: in a time unit of two or more threads, a thread whose
 * only edge in the unit's graph is a usage edge reports that edge.
 */
module RaceCondition {
  import opened Exceptions
  import opened Mascm
  import opened Collections
  import opened TimeUnitHelper

  /** The yield of one thread: its edge when it is the thread's only edge and a usage edge. */
  function LoneUsage(threadEdges: seq<Edge>): seq<Edge>
  {
    if |threadEdges| == 1 && threadEdges[0].Usage? then [threadEdges[0]] else []
  }

  function LoneUsages(lists: seq<seq<Edge>>): seq<Edge>
  {
    if lists == [] then [] else LoneUsage(lists[0]) + LoneUsages(lists[1..])
  }

  /**
   * detect_race_condition. The lock-edge list `order` it builds for every thread is
   * never read, so it has no part here.
   */
  function DetectRaceCondition(m: Model): Result<seq<Edge>>
  {
    var units := MultiThreadUnits(m.timeUnits);
    if units == [] then Ok([])
    else
      var graphs := TimeUnitsGraphs(units, m.edges);
      var lists :- UnitThreadEdges(graphs, units);
      Ok(LoneUsages(lists))
  }

  /** An edge is yielded exactly when it is the only edge of some list and a usage edge. */
  lemma {:induction false} LoneUsagesMember(lists: seq<seq<Edge>>, e: Edge)
    ensures e in LoneUsages(lists) <==> exists k :: 0 <= k < |lists| && lists[k] == [e] && e.Usage?
  {
    if lists != [] {
      LoneUsagesMember(lists[1..], e);
      if exists k :: 0 <= k < |lists[1..]| && lists[1..][k] == [e] && e.Usage? {
        var k :| 0 <= k < |lists[1..]| && lists[1..][k] == [e] && e.Usage?;
        assert lists[k + 1] == [e];
      }
      if exists k :: 0 <= k < |lists| && lists[k] == [e] && e.Usage? {
        var k :| 0 <= k < |lists| && lists[k] == [e] && e.Usage?;
        if k > 0 {
          assert lists[1..][k - 1] == [e];
        }
      }
    }
  }

  lemma {:induction false} LoneUsagesBound(lists: seq<seq<Edge>>)
    ensures |LoneUsages(lists)| <= |lists|
  {
    if lists != [] {
      LoneUsagesBound(lists[1..]);
    }
  }

  /** A thread whose edges in its unit's graph are exactly [e]. */
  ghost predicate OnlyEdgeOfSomeThread(graphs: map<TimeUnit, seq<Edge>>, units: seq<TimeUnit>, e: Edge)
  {
    exists u, k :: 0 <= u < |units| && 0 <= k < |units[u]| && ThreadEdges(Get(graphs, units[u]), units[u][k]) == [e]
  }

  lemma {:induction false} ThreadListsMember(graph: seq<Edge>, threads: seq<ThreadId>, l: seq<Edge>)
    requires ThreadEdgeLists(graph, threads).Ok?
    ensures l in ThreadEdgeLists(graph, threads).value <==> exists k :: 0 <= k < |threads| && ThreadEdges(graph, threads[k]) == l
  {
    ThreadEdgeListsErr(graph, threads);
  }

  lemma {:induction false} UnitListsMember(graphs: map<TimeUnit, seq<Edge>>, units: seq<TimeUnit>, l: seq<Edge>)
    requires UnitThreadEdges(graphs, units).Ok?
    ensures l in UnitThreadEdges(graphs, units).value <==>
            exists u, k :: 0 <= u < |units| && 0 <= k < |units[u]| && ThreadEdges(Get(graphs, units[u]), units[u][k]) == l
  {
    if units != [] {
      var mine := ThreadEdgeLists(Get(graphs, units[0]), units[0]).value;
      var rest := UnitThreadEdges(graphs, units[1..]).value;
      ThreadListsMember(Get(graphs, units[0]), units[0], l);
      UnitListsMember(graphs, units[1..], l);
      assert UnitThreadEdges(graphs, units).value == mine + rest;
      if exists u, k :: 0 <= u < |units[1..]| && 0 <= k < |units[1..][u]| && ThreadEdges(Get(graphs, units[1..][u]), units[1..][u][k]) == l {
        var u, k :| 0 <= u < |units[1..]| && 0 <= k < |units[1..][u]| && ThreadEdges(Get(graphs, units[1..][u]), units[1..][u][k]) == l;
        assert units[u + 1] == units[1..][u];
      }
      if exists u, k :: 0 <= u < |units| && 0 <= k < |units[u]| && ThreadEdges(Get(graphs, units[u]), units[u][k]) == l {
        var u, k :| 0 <= u < |units| && 0 <= k < |units[u]| && ThreadEdges(Get(graphs, units[u]), units[u][k]) == l;
        if u > 0 {
          assert units[1..][u - 1] == units[u];
        }
      }
    }
  }

  /**
   * Nothing is yielded without a unit of two or more threads; a thread without edges
   * raises ValueError; otherwise an edge is yielded exactly when it is a usage edge and
   * the only edge of some unit thread in that unit's graph.
   */
  lemma DetectRaceConditionSpec(m: Model, e: Edge)
    ensures var units := MultiThreadUnits(m.timeUnits);
            var graphs := TimeUnitsGraphs(units, m.edges);
            var r := DetectRaceCondition(m);
            ((forall i :: 0 <= i < |m.timeUnits| ==> |m.timeUnits[i]| <= 1) ==> r == Ok([])) &&
            (units != [] ==> (r.Err? <==> SomeThreadWithoutEdges(graphs, units)) && (r.Err? ==> r.error == ValueError)) &&
            (units != [] && r.Ok? ==> (e in r.value <==> e.Usage? && OnlyEdgeOfSomeThread(graphs, units, e)))
  {
    var units := MultiThreadUnits(m.timeUnits);
    if units != [] {
      var graphs := TimeUnitsGraphs(units, m.edges);
      UnitThreadEdgesErr(graphs, units);
      var lists := UnitThreadEdges(graphs, units);
      if lists.Ok? {
        LoneUsagesMember(lists.value, e);
        UnitListsMember(graphs, units, [e]);
      }
    }
  }
}
