/**
  The pair enumeration of the two-mode projection (network.py:26-34).

  For one group's ids `u`, the double loop visits every index pair i < j in
  lexicographic order and keeps the pair (u[i], u[j]) unless the two ids are
  equal. The reference definition below says the same in three steps: all
  index pairs in loop order, the ones whose ids differ, and the ids at them.
 */
module Pairs {

  import opened Grouping

  /** An edge before assembly: (source id, destination id). */
  type Pair = (Id, Id)

  /** A pair of positions in one group. */
  type Position = (int, int)

  /** A position in a list of groups: (group index, i, j). */
  type Origin = (int, int, int)

  /** The index pairs (i, i + 1), ..., (i, j - 1): row i of the double loop before column j. */
  function RowIndexPairs(i: nat, j: nat): seq<Position>
    requires i < j
  {
    seq(j - i - 1, k requires 0 <= k < j - i - 1 => (i, i + 1 + k))
  }

  /** The index pairs rows 0 .. i - 1 of the double loop visit, in visiting order. */
  function IndexPairs(n: nat, i: nat): seq<Position>
    requires i <= n
  {
    if i == 0 then [] else IndexPairs(n, i - 1) + RowIndexPairs(i - 1, n)
  }

  /** `p` is an index pair i < j of `u` whose ids differ: one the loop keeps. */
  predicate IsPosition(u: seq<Id>, p: Position)
  {
    0 <= p.0 < p.1 < |u| && u[p.0] != u[p.1]
  }

  /** The index pairs of `ps` whose ids differ, in order. */
  function Kept(u: seq<Id>, ps: seq<Position>): (r: seq<Position>)
    ensures forall k :: 0 <= k < |r| ==> IsPosition(u, r[k])
  {
    if ps == [] then []
    else
      var init, last := ps[..|ps| - 1], ps[|ps| - 1];
      if IsPosition(u, last) then Kept(u, init) + [last] else Kept(u, init)
  }

  /** Kept keeps exactly the index pairs whose ids differ. */
  lemma {:induction false} KeptMembers(u: seq<Id>, ps: seq<Position>)
    ensures forall p :: p in Kept(u, ps) <==> p in ps && IsPosition(u, p)
  {
    if ps != [] {
      var init, last := ps[..|ps| - 1], ps[|ps| - 1];
      assert ps == init + [last];
      KeptMembers(u, init);
    }
  }

  /** The id pairs at the given index pairs of `u`. */
  function Ids(u: seq<Id>, ps: seq<Position>): seq<Pair>
    requires forall k :: 0 <= k < |ps| ==> IsPosition(u, ps[k])
  {
    seq(|ps|, k requires 0 <= k < |ps| && IsPosition(u, ps[k]) => (u[ps[k].0], u[ps[k].1]))
  }

  /** The index pairs the kept pairs of one group come from, in loop order. */
  function GroupPositions(u: seq<Id>): seq<Position>
  {
    Kept(u, IndexPairs(|u|, |u|))
  }

  /** The pairs one group contributes. */
  function GroupPairs(u: seq<Id>): seq<Pair>
  {
    Ids(u, GroupPositions(u))
  }

  /** The pairs of the first `n` groups, in group order. */
  function PairsOfGroups(gs: seq<Group>, n: nat): seq<Pair>
    requires n <= |gs|
  {
    if n == 0 then [] else PairsOfGroups(gs, n - 1) + GroupPairs(gs[n - 1].1)
  }

  ghost predicate LexLess(p: Position, q: Position)
  {
    p.0 < q.0 || (p.0 == q.0 && p.1 < q.1)
  }

  ghost predicate Ascending(ps: seq<Position>)
  {
    forall k, l :: 0 <= k < l < |ps| ==> LexLess(ps[k], ps[l])
  }

  /** Keeping one more index pair at the end of the visiting order. */
  lemma KeptSnoc(u: seq<Id>, ps: seq<Position>, p: Position)
    ensures Kept(u, ps + [p]) == if IsPosition(u, p) then Kept(u, ps) + [p] else Kept(u, ps)
  {
    assert (ps + [p])[..|ps|] == ps;
  }

  lemma IdsAppend(u: seq<Id>, a: seq<Position>, b: seq<Position>)
    requires forall k :: 0 <= k < |a| ==> IsPosition(u, a[k])
    requires forall k :: 0 <= k < |b| ==> IsPosition(u, b[k])
    ensures Ids(u, a + b) == Ids(u, a) + Ids(u, b)
  {
    assert forall k :: 0 <= k < |a + b| ==> (a + b)[k] == if k < |a| then a[k] else b[k - |a|];
  }

  lemma RowIndexPairsSnoc(i: nat, j: nat)
    requires i < j
    ensures RowIndexPairs(i, j + 1) == RowIndexPairs(i, j) + [(i, j)]
  {
  }

  /** One step of the inner loop: visiting (i, j) adds its id pair when the ids differ. */
  lemma VisitStep(u: seq<Id>, i: nat, j: nat)
    requires i < j < |u|
    ensures Ids(u, Kept(u, RowIndexPairs(i, j + 1)))
         == Ids(u, Kept(u, RowIndexPairs(i, j))) + (if u[i] != u[j] then [(u[i], u[j])] else [])
  {
    RowIndexPairsSnoc(i, j);
    KeptSnoc(u, RowIndexPairs(i, j), (i, j));
    if u[i] != u[j] {
      IdsAppend(u, Kept(u, RowIndexPairs(i, j)), [(i, j)]);
    }
  }

  lemma {:induction false} KeptAppend(u: seq<Id>, a: seq<Position>, b: seq<Position>)
    ensures Kept(u, a + b) == Kept(u, a) + Kept(u, b)
    decreases |b|
  {
    if b == [] {
      assert a + b == a;
    } else {
      var b', last := b[..|b| - 1], b[|b| - 1];
      assert a + b == (a + b') + [last] && b == b' + [last];
      KeptSnoc(u, a + b', last);
      KeptSnoc(u, b', last);
      KeptAppend(u, a, b');
    }
  }

  /** One step of the outer loop: row i adds the pairs of its own index pairs. */
  lemma RowStep(u: seq<Id>, i: nat)
    requires i < |u|
    ensures Ids(u, Kept(u, IndexPairs(|u|, i + 1)))
         == Ids(u, Kept(u, IndexPairs(|u|, i))) + Ids(u, Kept(u, RowIndexPairs(i, |u|)))
  {
    KeptAppend(u, IndexPairs(|u|, i), RowIndexPairs(i, |u|));
    IdsAppend(u, Kept(u, IndexPairs(|u|, i)), Kept(u, RowIndexPairs(i, |u|)));
  }

  lemma RowIndexPairsMembers(i: nat, j: nat)
    requires i < j
    ensures forall p :: p in RowIndexPairs(i, j) <==> p.0 == i && i < p.1 < j
  {
    forall p: Position | p.0 == i && i < p.1 < j ensures p in RowIndexPairs(i, j) {
      assert RowIndexPairs(i, j)[p.1 - i - 1] == p;
    }
  }

  /** The double loop visits every index pair a < b < n with a < i, and nothing else. */
  lemma {:induction false} IndexPairsMembers(n: nat, i: nat)
    requires i <= n
    ensures forall p :: p in IndexPairs(n, i) <==> 0 <= p.0 < i && p.0 < p.1 < n
  {
    if i > 0 {
      IndexPairsMembers(n, i - 1);
      RowIndexPairsMembers(i - 1, n);
    }
  }

  lemma AscendingAppend(a: seq<Position>, b: seq<Position>)
    requires Ascending(a) && Ascending(b)
    requires forall p, q :: p in a && q in b ==> LexLess(p, q)
    ensures Ascending(a + b)
  {
    forall k, l | 0 <= k < l < |a + b| ensures LexLess((a + b)[k], (a + b)[l]) {
      if l < |a| {
        assert (a + b)[k] == a[k] && (a + b)[l] == a[l];
      } else if k < |a| {
        assert (a + b)[k] == a[k] && (a + b)[l] == b[l - |a|];
      } else {
        assert (a + b)[k] == b[k - |a|] && (a + b)[l] == b[l - |a|];
      }
    }
  }

  /** The double loop visits index pairs in lexicographic order, each once. */
  lemma {:induction false} IndexPairsAscending(n: nat, i: nat)
    requires i <= n
    ensures Ascending(IndexPairs(n, i))
  {
    if i > 0 {
      IndexPairsAscending(n, i - 1);
      IndexPairsMembers(n, i - 1);
      RowIndexPairsMembers(i - 1, n);
      AscendingAppend(IndexPairs(n, i - 1), RowIndexPairs(i - 1, n));
    }
  }

  /** Dropping index pairs keeps the rest in order. */
  lemma {:induction false} KeptAscending(u: seq<Id>, ps: seq<Position>)
    requires Ascending(ps)
    ensures Ascending(Kept(u, ps))
  {
    if ps != [] {
      var init, last := ps[..|ps| - 1], ps[|ps| - 1];
      assert ps == init + [last];
      KeptAscending(u, init);
      KeptMembers(u, init);
      if IsPosition(u, last) {
        forall q | q in Kept(u, init) ensures LexLess(q, last) {
          var k :| 0 <= k < |init| && init[k] == q;
          assert ps[k] == q;
        }
        AscendingAppend(Kept(u, init), [last]);
      }
    }
  }

  /**
    One group's pairs are exactly its index pairs i < j with differing ids,
    each once, in lexicographic (i, j) order.
   */
  lemma GroupPositionsSpec(u: seq<Id>)
    ensures var ps := GroupPositions(u); var pr := GroupPairs(u);
      && |ps| == |pr|
      && (forall k :: 0 <= k < |ps| ==> IsPosition(u, ps[k]) && pr[k] == (u[ps[k].0], u[ps[k].1]))
      && Ascending(ps)
      && (forall p :: p in ps <==> IsPosition(u, p))
  {
    IndexPairsMembers(|u|, |u|);
    IndexPairsAscending(|u|, |u|);
    KeptMembers(u, IndexPairs(|u|, |u|));
    KeptAscending(u, IndexPairs(|u|, |u|));
  }

  lemma {:induction false} AscendingCard(ps: seq<Position>)
    requires Ascending(ps)
    ensures |set p | p in ps| == |ps|
  {
    if ps != [] {
      var init, last := ps[..|ps| - 1], ps[|ps| - 1];
      assert Ascending(init);
      AscendingCard(init);
      assert (set p | p in ps) == (set p | p in init) + {last};
      assert last !in init;
    }
  }

  /** A group contributes one pair per index pair i < j whose ids differ. */
  lemma GroupPairCount(u: seq<Id>)
    ensures |GroupPairs(u)| == |set i, j | 0 <= i < j < |u| && u[i] != u[j] :: (i, j)|
  {
    var ps := GroupPositions(u);
    GroupPositionsSpec(u);
    var s := set i, j | 0 <= i < j < |u| && u[i] != u[j] :: (i, j);
    forall p ensures p in s <==> p in ps {
      if p in s {
        assert IsPosition(u, p);
      }
    }
    assert s == set p | p in ps;
    AscendingCard(ps);
  }

  ghost predicate AllDistinct(u: seq<Id>)
  {
    forall a, b :: 0 <= a < b < |u| ==> u[a] != u[b]
  }

  /** Keeping changes nothing when every index pair already has differing ids. */
  lemma {:induction false} KeptAll(u: seq<Id>, ps: seq<Position>)
    requires forall k :: 0 <= k < |ps| ==> IsPosition(u, ps[k])
    ensures Kept(u, ps) == ps
  {
    if ps != [] {
      var init, last := ps[..|ps| - 1], ps[|ps| - 1];
      assert ps == init + [last];
      KeptAll(u, init);
    }
  }

  /** 0 + 1 + ... + (k - 1). */
  function Triangle(k: nat): nat
  {
    if k == 0 then 0 else Triangle(k - 1) + (k - 1)
  }

  lemma {:induction false} TriangleClosedForm(k: nat)
    ensures 2 * Triangle(k) == k * (k - 1)
  {
    if k > 0 {
      TriangleClosedForm(k - 1);
      assert (k - 1) * (k - 2) + 2 * (k - 1) == k * (k - 1);
    }
  }

  lemma {:induction false} IndexPairsLength(n: nat, i: nat)
    requires i <= n
    ensures |IndexPairs(n, i)| + Triangle(n - i) == Triangle(n)
  {
    if i > 0 {
      IndexPairsLength(n, i - 1);
      assert Triangle(n - i + 1) == Triangle(n - i) + (n - i);
    }
  }

  /** A group of k distinct ids contributes k (k - 1) / 2 pairs. */
  lemma DistinctGroupPairCount(u: seq<Id>)
    requires AllDistinct(u)
    ensures |GroupPairs(u)| == |u| * (|u| - 1) / 2
  {
    var ps := IndexPairs(|u|, |u|);
    IndexPairsMembers(|u|, |u|);
    assert forall k :: 0 <= k < |ps| ==> ps[k] in ps;
    KeptAll(u, ps);
    IndexPairsLength(|u|, |u|);
    TriangleClosedForm(|u|);
  }

  /** `o` names group o.0 and an index pair (o.1, o.2) of it with differing ids. */
  ghost predicate IsOrigin(gs: seq<Group>, o: Origin)
  {
    0 <= o.0 < |gs| && IsPosition(gs[o.0].1, (o.1, o.2))
  }

  /** Group order first, then lexicographic (i, j) order. */
  ghost predicate OriginLess(o: Origin, o': Origin)
  {
    o.0 < o'.0 || (o.0 == o'.0 && LexLess((o.1, o.2), (o'.1, o'.2)))
  }

  ghost function Tagged(g: int, ps: seq<Position>): seq<Origin>
  {
    seq(|ps|, k requires 0 <= k < |ps| => (g, ps[k].0, ps[k].1))
  }

  /** The origins of the pairs of the first `n` groups. */
  ghost function OriginsOfGroups(gs: seq<Group>, n: nat): seq<Origin>
    requires n <= |gs|
  {
    if n == 0 then [] else OriginsOfGroups(gs, n - 1) + Tagged(n - 1, GroupPositions(gs[n - 1].1))
  }

  lemma {:induction false} OriginsLength(gs: seq<Group>, n: nat)
    requires n <= |gs|
    ensures |OriginsOfGroups(gs, n)| == |PairsOfGroups(gs, n)|
  {
    if n > 0 {
      OriginsLength(gs, n - 1);
      assert OriginsOfGroups(gs, n)
          == OriginsOfGroups(gs, n - 1) + Tagged(n - 1, GroupPositions(gs[n - 1].1));
      assert PairsOfGroups(gs, n) == PairsOfGroups(gs, n - 1) + GroupPairs(gs[n - 1].1);
    }
  }

  lemma {:induction false} OriginsAt(gs: seq<Group>, n: nat, k: nat)
    requires n <= |gs| && k < |OriginsOfGroups(gs, n)|
    ensures var os := OriginsOfGroups(gs, n); var pr := PairsOfGroups(gs, n);
      && k < |pr|
      && os[k].0 < n && IsOrigin(gs, os[k]) && pr[k] == (gs[os[k].0].1[os[k].1], gs[os[k].0].1[os[k].2])
  {
    var u := gs[n - 1].1;
    var a, b := OriginsOfGroups(gs, n - 1), Tagged(n - 1, GroupPositions(u));
    var ra, rb := PairsOfGroups(gs, n - 1), GroupPairs(u);
    assert OriginsOfGroups(gs, n) == a + b && PairsOfGroups(gs, n) == ra + rb;
    OriginsLength(gs, n - 1);
    if k < |a| {
      OriginsAt(gs, n - 1, k);
      assert (a + b)[k] == a[k] && (ra + rb)[k] == ra[k];
    } else {
      GroupPositionsSpec(u);
      assert (a + b)[k] == b[k - |a|] && (ra + rb)[k] == rb[k - |a|];
    }
  }

  lemma {:induction false} OriginsOrderAt(gs: seq<Group>, n: nat, k: nat, l: nat)
    requires n <= |gs| && k < l < |OriginsOfGroups(gs, n)|
    ensures OriginLess(OriginsOfGroups(gs, n)[k], OriginsOfGroups(gs, n)[l])
  {
    var u := gs[n - 1].1;
    var a, b := OriginsOfGroups(gs, n - 1), Tagged(n - 1, GroupPositions(u));
    assert OriginsOfGroups(gs, n) == a + b;
    if l < |a| {
      OriginsOrderAt(gs, n - 1, k, l);
      assert (a + b)[k] == a[k] && (a + b)[l] == a[l];
    } else if k < |a| {
      OriginsAt(gs, n - 1, k);
      assert (a + b)[k] == a[k] && (a + b)[l] == b[l - |a|];
    } else {
      GroupPositionsSpec(u);
      assert (a + b)[k] == b[k - |a|] && (a + b)[l] == b[l - |a|];
    }
  }

  lemma {:induction false} OriginsComplete(gs: seq<Group>, n: nat)
    requires n <= |gs|
    ensures forall o :: IsOrigin(gs, o) && o.0 < n ==> o in OriginsOfGroups(gs, n)
  {
    if n > 0 {
      OriginsComplete(gs, n - 1);
      var u := gs[n - 1].1;
      GroupPositionsSpec(u);
      var a, ps := OriginsOfGroups(gs, n - 1), GroupPositions(u);
      var b := Tagged(n - 1, ps);
      assert OriginsOfGroups(gs, n) == a + b;
      forall o | IsOrigin(gs, o) && o.0 < n ensures o in a + b {
        if o.0 == n - 1 {
          assert IsPosition(u, (o.1, o.2));
          assert (o.1, o.2) in ps;
          var k :| 0 <= k < |ps| && ps[k] == (o.1, o.2);
          assert b[k] == o;
        } else {
          assert o in a;
        }
      }
    }
  }

  /** The pair list of the first `n` groups says, pair by pair, where each pair comes from. */
  lemma OriginsSpec(gs: seq<Group>, n: nat)
    requires n <= |gs|
    ensures var os := OriginsOfGroups(gs, n); var pr := PairsOfGroups(gs, n);
      && |os| == |pr|
      && (forall k :: 0 <= k < |os| ==>
            os[k].0 < n && IsOrigin(gs, os[k]) && pr[k] == (gs[os[k].0].1[os[k].1], gs[os[k].0].1[os[k].2]))
      && (forall k, l :: 0 <= k < l < |os| ==> OriginLess(os[k], os[l]))
      && (forall o :: IsOrigin(gs, o) && o.0 < n ==> o in os)
  {
    OriginsLength(gs, n);
    OriginsComplete(gs, n);
    forall k | 0 <= k < |OriginsOfGroups(gs, n)| {
      OriginsAt(gs, n, k);
    }
    forall k, l | 0 <= k < l < |OriginsOfGroups(gs, n)| {
      OriginsOrderAt(gs, n, k, l);
    }
  }

  /** No kept pair links an id to itself (network.py:33). */
  lemma PairsOfGroupsNoSelf(gs: seq<Group>)
    ensures var pr := PairsOfGroups(gs, |gs|);
      forall k :: 0 <= k < |pr| ==> pr[k].0 != pr[k].1
  {
    OriginsSpec(gs, |gs|);
  }

  /** Every index pair with differing ids, in any group, yields a pair of the list. */
  lemma PairOfOrigin(gs: seq<Group>, o: Origin)
    requires IsOrigin(gs, o)
    ensures (gs[o.0].1[o.1], gs[o.0].1[o.2]) in PairsOfGroups(gs, |gs|)
  {
    var os, pr := OriginsOfGroups(gs, |gs|), PairsOfGroups(gs, |gs|);
    OriginsComplete(gs, |gs|);
    var k :| 0 <= k < |os| && os[k] == o;
    OriginsAt(gs, |gs|, k);
    assert pr[k] == (gs[o.0].1[o.1], gs[o.0].1[o.2]);
  }

  /** Every pair of the list comes from an index pair with differing ids in some group. */
  lemma OriginOfPair(gs: seq<Group>, p: Pair)
    requires p in PairsOfGroups(gs, |gs|)
    ensures exists o :: IsOrigin(gs, o) && p == (gs[o.0].1[o.1], gs[o.0].1[o.2])
  {
    var os, pr := OriginsOfGroups(gs, |gs|), PairsOfGroups(gs, |gs|);
    OriginsLength(gs, |gs|);
    var k :| 0 <= k < |pr| && pr[k] == p;
    OriginsAt(gs, |gs|, k);
    assert IsOrigin(gs, os[k]);
  }

  /** A pair is kept exactly when some group has it at an index pair i < j with differing ids. */
  lemma PairsOfGroupsMembership(gs: seq<Group>)
    ensures forall p :: p in PairsOfGroups(gs, |gs|) <==>
      exists o :: IsOrigin(gs, o) && p == (gs[o.0].1[o.1], gs[o.0].1[o.2])
  {
    forall p | p in PairsOfGroups(gs, |gs|) ensures exists o :: IsOrigin(gs, o) && p == (gs[o.0].1[o.1], gs[o.0].1[o.2]) {
      OriginOfPair(gs, p);
    }
    forall o | IsOrigin(gs, o) ensures (gs[o.0].1[o.1], gs[o.0].1[o.2]) in PairsOfGroups(gs, |gs|) {
      PairOfOrigin(gs, o);
    }
  }
}
