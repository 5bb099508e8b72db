/** Sequence helpers shared by the detectors: filtering and itertools.combinations(_, 2). */
module Collections {

  /** The elements of `s` that satisfy `p`, in their original order. */
  function Filter<T>(s: seq<T>, p: T -> bool): (r: seq<T>)
    ensures |r| <= |s|
    ensures forall i :: 0 <= i < |r| ==> r[i] in s && p(r[i])
    ensures forall i :: 0 <= i < |s| && p(s[i]) ==> s[i] in r
  {
    if s == [] then [] else (if p(s[0]) then [s[0]] else []) + Filter(s[1..], p)
  }

  lemma {:induction false} FilterAppend<T>(a: seq<T>, b: seq<T>, p: T -> bool)
    ensures Filter(a + b, p) == Filter(a, p) + Filter(b, p)
  {
    if a == [] {
      assert a + b == b;
    } else {
      assert (a + b)[0] == a[0];
      assert (a + b)[1..] == a[1..] + b;
      FilterAppend(a[1..], b, p);
    }
  }

  /** Filtering keeps every occurrence of a kept element and none of a dropped one. */
  lemma {:induction false} FilterMultiplicity<T>(s: seq<T>, p: T -> bool, x: T)
    ensures multiset(Filter(s, p))[x] == if p(x) then multiset(s)[x] else 0
  {
    if s != [] {
      FilterMultiplicity(s[1..], p, x);
      var head := if p(s[0]) then [s[0]] else [];
      assert Filter(s, p) == head + Filter(s[1..], p);
      assert multiset(Filter(s, p)) == multiset(head) + multiset(Filter(s[1..], p));
      assert s == [s[0]] + s[1..];
      assert multiset(s) == multiset([s[0]]) + multiset(s[1..]);
    }
  }

  /** The pairs (x, s[i]) for every i, in order. */
  function PairsWith<T>(x: T, s: seq<T>): (r: seq<(T, T)>)
    ensures |r| == |s|
    ensures forall i :: 0 <= i < |s| ==> r[i] == (x, s[i])
  {
    seq(|s|, i requires 0 <= i < |s| => (x, s[i]))
  }

  /** itertools.combinations(s, 2): every (s[i], s[j]) with i < j, i-major. */
  function Combinations2<T>(s: seq<T>): seq<(T, T)>
  {
    if s == [] then [] else PairsWith(s[0], s[1..]) + Combinations2(s[1..])
  }

  /** There are n(n-1)/2 combinations of n elements. */
  lemma {:induction false} Combinations2Count<T>(s: seq<T>)
    ensures 2 * |Combinations2(s)| == |s| * (|s| - 1)
  {
    if s != [] {
      Combinations2Count(s[1..]);
    }
  }

  /** A pair is a combination exactly when its parts occur in that order at two positions. */
  lemma {:induction false} Combinations2Member<T>(s: seq<T>, a: T, b: T)
    ensures (a, b) in Combinations2(s) <==>
            exists i, j :: 0 <= i < j < |s| && s[i] == a && s[j] == b
  {
    if s != [] {
      var rest := s[1..];
      Combinations2Member(rest, a, b);
      if (a, b) in Combinations2(s) {
        if (a, b) in PairsWith(s[0], rest) {
          var k :| 0 <= k < |rest| && PairsWith(s[0], rest)[k] == (a, b);
          assert s[0] == a && s[k + 1] == b;
        } else {
          assert (a, b) in Combinations2(rest);
          var i, j :| 0 <= i < j < |rest| && rest[i] == a && rest[j] == b;
          assert s[i + 1] == a && s[j + 1] == b;
        }
      }
      if exists i, j :: 0 <= i < j < |s| && s[i] == a && s[j] == b {
        var i, j :| 0 <= i < j < |s| && s[i] == a && s[j] == b;
        if i == 0 {
          assert PairsWith(s[0], rest)[j - 1] == (a, b);
        } else {
          assert rest[i - 1] == a && rest[j - 1] == b;
        }
      }
    }
  }

  /** A combination is two elements of the sequence. */
  lemma Combinations2Elements<T>(s: seq<T>, p: (T, T))
    requires p in Combinations2(s)
    ensures p.0 in s && p.1 in s
  {
    Combinations2Member(s, p.0, p.1);
  }

  /** Concatenation of a sequence of sequences. */
  function Flatten<T>(ss: seq<seq<T>>): seq<T>
  {
    if ss == [] then [] else ss[0] + Flatten(ss[1..])
  }

  lemma {:induction false} FlattenMember<T>(ss: seq<seq<T>>, x: T)
    ensures x in Flatten(ss) <==> exists i :: 0 <= i < |ss| && x in ss[i]
  {
    if ss != [] {
      FlattenMember(ss[1..], x);
      if x in Flatten(ss[1..]) {
        var i :| 0 <= i < |ss[1..]| && x in ss[1..][i];
        assert x in ss[i + 1];
      }
      if exists i :: 0 <= i < |ss| && x in ss[i] {
        var i :| 0 <= i < |ss| && x in ss[i];
        if i > 0 {
          assert x in ss[1..][i - 1];
        }
      }
    }
  }

  lemma {:induction false} FlattenAppend<T>(a: seq<seq<T>>, b: seq<seq<T>>)
    ensures Flatten(a + b) == Flatten(a) + Flatten(b)
  {
    if a == [] {
      assert a + b == b;
    } else {
      assert (a + b)[0] == a[0];
      assert (a + b)[1..] == a[1..] + b;
      FlattenAppend(a[1..], b);
    }
  }

  /** f applied to every element, in order. */
  function Map<T, U>(s: seq<T>, f: T -> U): (r: seq<U>)
    ensures |r| == |s|
    ensures forall i :: 0 <= i < |s| ==> r[i] == f(s[i])
  {
    if s == [] then [] else [f(s[0])] + Map(s[1..], f)
  }

  /** The position of the first element satisfying p, or |s| when there is none: next(...) over a generator. */
  function FirstWhere<T>(s: seq<T>, p: T -> bool): (r: nat)
    ensures r <= |s|
    ensures r < |s| ==> p(s[r])
    ensures forall k :: 0 <= k < r ==> !p(s[k])
  {
    if s == [] then 0
    else if p(s[0]) then 0
    else 1 + FirstWhere(s[1..], p)
  }

  /** Any index with p that no earlier element satisfies is the one FirstWhere finds. */
  lemma FirstWhereIs<T>(s: seq<T>, p: T -> bool, k: nat)
    requires k < |s| && p(s[k]) && forall j :: 0 <= j < k ==> !p(s[j])
    ensures FirstWhere(s, p) == k
  {
  }
}
