/**
 * The order-violation detector: for every relation (op1, op2), each model edge of op1
 * that has a resource endpoint is reported when the model also holds an edge between
 * op2 and that resource.
 */
module OrderViolation {
  import opened Exceptions
  import opened Mascm

  /** A finding (op1, op2, resource). */
  type Finding = (Op, Op, Res)

  /** The relations scanned, in order: forward, then backward, then symmetric. */
  function AllRelations(r: Relations): seq<Relation>
  {
    r.forward + r.backward + r.symmetric
  }

  /** The resource endpoint of an edge: its second endpoint if that is a resource, else its first. */
  function ResourceOf(e: Edge): (r: Option<Res>)
    ensures r.Some? <==> IsResourceEdge(e)
    ensures r.Some? ==> r.value == e.res
  {
    match e
    case Usage(_, res) => Some(res)
    case Dependency(res, _) => Some(res)
    case _ => None
  }

  /**
   * The edge prints as "(op2, r)" or "(r, op2)": operations compare by their labels
   * and resources by their numbers, since a resource prints as r<num>.
   */
  predicate PrintsAs(e: Edge, op2: Op, r: Res)
  {
    (e.Usage? && e.op == op2 && e.res.num == r.num) ||
    (e.Dependency? && e.res.num == r.num && e.op == op2)
  }

  /** any(...) over the model's edges. */
  function AnyPrintsAs(edges: seq<Edge>, op2: Op, r: Res): (b: bool)
  {
    if edges == [] then false
    else PrintsAs(edges[0], op2, r) || AnyPrintsAs(edges[1..], op2, r)
  }

  lemma {:induction false} AnyPrintsAsIff(edges: seq<Edge>, op2: Op, r: Res)
    ensures AnyPrintsAs(edges, op2, r) <==> exists i :: 0 <= i < |edges| && PrintsAs(edges[i], op2, r)
  {
    if edges != [] {
      AnyPrintsAsIff(edges[1..], op2, r);
      if exists i :: 0 <= i < |edges[1..]| && PrintsAs(edges[1..][i], op2, r) {
        var i :| 0 <= i < |edges[1..]| && PrintsAs(edges[1..][i], op2, r);
        assert PrintsAs(edges[i + 1], op2, r);
      }
      if exists i :: 0 <= i < |edges| && PrintsAs(edges[i], op2, r) {
        var i :| 0 <= i < |edges| && PrintsAs(edges[i], op2, r);
        if i > 0 {
          assert PrintsAs(edges[1..][i - 1], op2, r);
        }
      }
    }
  }

  /** The inner loop: the findings of one relation over the edges `scan`, looked up in `all`. */
  function EdgeFindings(relation: Relation, scan: seq<Edge>, all: seq<Edge>): seq<Finding>
  {
    if scan == [] then []
    else
      var e := scan[0];
      var r := ResourceOf(e);
      (if Mentions(e, relation.0) && r.Some? && AnyPrintsAs(all, relation.1, r.value)
       then [(relation.0, relation.1, r.value)] else [])
      + EdgeFindings(relation, scan[1..], all)
  }

  /** The outer loop over the relations. */
  function Scan(relations: seq<Relation>, edges: seq<Edge>): seq<Finding>
  {
    if relations == [] then []
    else EdgeFindings(relations[0], edges, edges) + Scan(relations[1..], edges)
  }

  /** detect_order_violation. */
  function DetectOrderViolation(m: Model): seq<Finding>
  {
    Scan(AllRelations(m.relations), m.edges)
  }

  /** Edge e of op1 qualifies for the relation: it has a resource that some edge of op2 shares. */
  predicate Qualifies(relation: Relation, e: Edge, all: seq<Edge>)
  {
    Mentions(e, relation.0) && IsResourceEdge(e) &&
    exists j :: 0 <= j < |all| && PrintsAs(all[j], relation.1, e.res)
  }

  /** One finding per qualifying edge, in edge order. */
  lemma {:induction false} EdgeFindingsSpec(relation: Relation, scan: seq<Edge>, all: seq<Edge>)
    ensures |EdgeFindings(relation, scan, all)| == CountQualifying(relation, scan, all)
    ensures forall f :: f in EdgeFindings(relation, scan, all) <==>
              exists i :: 0 <= i < |scan| && Qualifies(relation, scan[i], all) && f == (relation.0, relation.1, scan[i].res)
  {
    if scan != [] {
      EdgeFindingsSpec(relation, scan[1..], all);
      var e := scan[0];
      if IsResourceEdge(e) {
        AnyPrintsAsIff(all, relation.1, e.res);
      }
      forall f
        ensures f in EdgeFindings(relation, scan, all) <==>
                exists i :: 0 <= i < |scan| && Qualifies(relation, scan[i], all) && f == (relation.0, relation.1, scan[i].res)
      {
        if exists i :: 0 <= i < |scan[1..]| && Qualifies(relation, scan[1..][i], all) && f == (relation.0, relation.1, scan[1..][i].res) {
          var i :| 0 <= i < |scan[1..]| && Qualifies(relation, scan[1..][i], all) && f == (relation.0, relation.1, scan[1..][i].res);
          assert scan[i + 1] == scan[1..][i];
        }
        if exists i :: 0 <= i < |scan| && Qualifies(relation, scan[i], all) && f == (relation.0, relation.1, scan[i].res) {
          var i :| 0 <= i < |scan| && Qualifies(relation, scan[i], all) && f == (relation.0, relation.1, scan[i].res);
          if i > 0 {
            assert scan[1..][i - 1] == scan[i];
          }
        }
      }
    }
  }

  /** The number of edges of `scan` that qualify for the relation. */
  ghost function CountQualifying(relation: Relation, scan: seq<Edge>, all: seq<Edge>): nat
  {
    if scan == [] then 0
    else (if Qualifies(relation, scan[0], all) then 1 else 0) + CountQualifying(relation, scan[1..], all)
  }

  lemma {:induction false} ScanAppend(a: seq<Relation>, b: seq<Relation>, edges: seq<Edge>)
    ensures Scan(a + b, edges) == Scan(a, edges) + Scan(b, edges)
  {
    if a == [] {
      assert a + b == b;
    } else {
      assert (a + b)[0] == a[0] && (a + b)[1..] == a[1..] + b;
      ScanAppend(a[1..], b, edges);
    }
  }

  /** The forward findings come first, then the backward ones, then the symmetric ones. */
  lemma ScanOrder(m: Model)
    ensures DetectOrderViolation(m) ==
            Scan(m.relations.forward, m.edges) + Scan(m.relations.backward, m.edges) + Scan(m.relations.symmetric, m.edges)
  {
    ScanAppend(m.relations.forward + m.relations.backward, m.relations.symmetric, m.edges);
    ScanAppend(m.relations.forward, m.relations.backward, m.edges);
  }

  /**
   * (op1, op2, r) is reported exactly when some relation pairs op1 with op2, some edge of
   * op1 has resource r, and some edge links op2 with a resource printed like r.
   */
  lemma {:induction false} ScanMember(relations: seq<Relation>, edges: seq<Edge>, f: Finding)
    ensures f in Scan(relations, edges) <==>
            exists k, i :: 0 <= k < |relations| && 0 <= i < |edges| &&
              Qualifies(relations[k], edges[i], edges) && f == (relations[k].0, relations[k].1, edges[i].res)
  {
    if relations != [] {
      EdgeFindingsSpec(relations[0], edges, edges);
      ScanMember(relations[1..], edges, f);
      if f in Scan(relations[1..], edges) {
        var k, i :| 0 <= k < |relations[1..]| && 0 <= i < |edges| &&
                    Qualifies(relations[1..][k], edges[i], edges) && f == (relations[1..][k].0, relations[1..][k].1, edges[i].res);
        assert relations[k + 1] == relations[1..][k];
      }
      if exists k, i :: 0 <= k < |relations| && 0 <= i < |edges| &&
                        Qualifies(relations[k], edges[i], edges) && f == (relations[k].0, relations[k].1, edges[i].res) {
        var k, i :| 0 <= k < |relations| && 0 <= i < |edges| &&
                    Qualifies(relations[k], edges[i], edges) && f == (relations[k].0, relations[k].1, edges[i].res);
        if k > 0 {
          assert relations[1..][k - 1] == relations[k];
        }
      }
    }
  }

  // The shape of order_violation2.c: one malloc (op 1,2) related to an operation of each
  // of two other threads, all three touching the allocated resource.
  const Account: Res := Res(0, {"account"})
  const Malloc: Op := Op(1, 2)
  const Increment: Op := Op(2, 3)
  const Free: Op := Op(3, 4)
  const Edges2: seq<Edge> := [Usage(Malloc, Account), Usage(Increment, Account), Dependency(Account, Free)]

  /** Two relations sharing their first operation give two findings sharing op1. */
  lemma SharedFirstOperation()
    ensures DetectOrderViolation(Model([], Edges2, Relations([], [(Malloc, Free), (Malloc, Increment)], [])))
            == [(Malloc, Free, Account), (Malloc, Increment, Account)]
  {
    var rels := [(Malloc, Free), (Malloc, Increment)];
    assert AllRelations(Relations([], rels, [])) == rels;
    assert Edges2[1..][1..][1..] == [];
    assert AnyPrintsAs(Edges2, Free, Account);
    assert AnyPrintsAs(Edges2, Increment, Account);
    assert EdgeFindings(rels[0], Edges2[1..][1..], Edges2) == [];
    assert EdgeFindings(rels[0], Edges2[1..], Edges2) == [];
    assert EdgeFindings(rels[0], Edges2, Edges2) == [(Malloc, Free, Account)];
    assert EdgeFindings(rels[1], Edges2[1..][1..], Edges2) == [];
    assert EdgeFindings(rels[1], Edges2[1..], Edges2) == [];
    assert EdgeFindings(rels[1], Edges2, Edges2) == [(Malloc, Increment, Account)];
    assert rels[1..][1..] == [];
    assert Scan(rels[1..], Edges2) == [(Malloc, Increment, Account)] by {
      assert rels[1..][0] == rels[1];
      assert [(Malloc, Increment, Account)] + [] == [(Malloc, Increment, Account)];
    }
  }
}
