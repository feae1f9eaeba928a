/**
  The edge assembly of the two-mode projection and the whole projection
  (build_two_mode_network in network.py).

  The kept pairs of all groups, in group order, become an edge table with
  columns source and dest; optionally every row gets weight 1; optionally the
  table is followed by a copy of itself with source and dest swapped.
 */
module TwoModeNetwork {

  import opened Wrappers
  import opened Grouping
  import opened Pairs

  /** One row of the edge table; `weight` is None when the table has no weight column. */
  datatype Edge = Edge(source: Id, dest: Id, weight: Option<int>)

  /** The pair list the double loop builds from the table's groups. */
  function PrePairs(rows: seq<Row>): seq<Pair>
  {
    var gs := Groups(rows);
    PairsOfGroups(gs, |gs|)
  }

  /** The table built from the pair list, without a weight column (network.py:41). */
  function ToEdges(ps: seq<Pair>): seq<Edge>
  {
    seq(|ps|, k requires 0 <= k < |ps| => Edge(ps[k].0, ps[k].1, None))
  }

  /** The table with a weight column holding 1 in every row (network.py:45). */
  function WithUnitWeight(es: seq<Edge>): seq<Edge>
  {
    seq(|es|, k requires 0 <= k < |es| => es[k].(weight := Some(1)))
  }

  /** The table with its source and dest columns exchanged (network.py:50). */
  function Swapped(es: seq<Edge>): seq<Edge>
  {
    seq(|es|, k requires 0 <= k < |es| => Edge(es[k].dest, es[k].source, es[k].weight))
  }

  /** The edge table built from a pair list (network.py:41-51). */
  function Assemble(ps: seq<Pair>, weighted: bool, bidirectional: bool): seq<Edge>
  {
    var plain := ToEdges(ps);
    var table := if weighted then WithUnitWeight(plain) else plain;
    if bidirectional then table + Swapped(table) else table
  }

  /** What build_two_mode_network returns for a table and its two flags. */
  function Projection(rows: seq<Row>, weighted: bool, bidirectional: bool): seq<Edge>
  {
    Assemble(PrePairs(rows), weighted, bidirectional)
  }

  /** Rows a < b hold the same tie and different ids: the rows behind one kept pair. */
  ghost predicate CoMembers(rows: seq<Row>, a: int, b: int)
  {
    0 <= a < b < |rows| && rows[a].1 == rows[b].1 && rows[a].0 != rows[b].0
  }

  /** The inner loop of network.py:32-34: row i of one group's double loop, appending to `prefix`. */
  method EnumerateRow(users: seq<Id>, i: nat, prefix: seq<Pair>) returns (edgeList: seq<Pair>)
    requires i < |users|
    ensures edgeList == prefix + Ids(users, Kept(users, RowIndexPairs(i, |users|)))
  {
    edgeList := prefix;
    var j := i + 1;
    assert RowIndexPairs(i, j) == [];
    while j < |users|
      invariant i + 1 <= j <= |users|
      invariant edgeList == prefix + Ids(users, Kept(users, RowIndexPairs(i, j)))
    {
      VisitStep(users, i, j);
      if users[i] != users[j] {
        edgeList := edgeList + [(users[i], users[j])];
      }
      j := j + 1;
    }
  }

  /** The double loop of network.py:31-34 over one group's ids, appending to `prefix`. */
  method EnumerateGroup(users: seq<Id>, prefix: seq<Pair>) returns (edgeList: seq<Pair>)
    ensures edgeList == prefix + GroupPairs(users)
  {
    edgeList := prefix;
    var i := 0;
    while i < |users|
      invariant 0 <= i <= |users|
      invariant edgeList == prefix + Ids(users, Kept(users, IndexPairs(|users|, i)))
    {
      RowStep(users, i);
      edgeList := EnumerateRow(users, i, edgeList);
      i := i + 1;
    }
  }

  /** The loop of network.py:26-36 over the groups, in group order. */
  method EnumeratePairs(groups: seq<Group>) returns (edgeList: seq<Pair>)
    ensures edgeList == PairsOfGroups(groups, |groups|)
    ensures forall k :: 0 <= k < |edgeList| ==> edgeList[k].0 != edgeList[k].1
  {
    edgeList := [];
    var g := 0;
    while g < |groups|
      invariant 0 <= g <= |groups|
      invariant edgeList == PairsOfGroups(groups, g)
    {
      edgeList := EnumerateGroup(groups[g].1, edgeList);
      g := g + 1;
    }
    PairsOfGroupsNoSelf(groups);
  }

  /** build_two_mode_network: group, enumerate the pairs, then weight and expand the table. */
  method BuildTwoModeNetwork(rows: seq<Row>, weighted: bool, bidirectional: bool) returns (network: seq<Edge>)
    ensures network == Projection(rows, weighted, bidirectional)
    ensures forall k :: 0 <= k < |network| ==> network[k].source != network[k].dest
  {
    var groups := Groups(rows);
    var edgeList := EnumeratePairs(groups);
    network := ToEdges(edgeList);
    if weighted {
      network := WithUnitWeight(network);
    }
    if bidirectional {
      network := network + Swapped(network);
    }
    NoSelfLoops(rows, weighted, bidirectional);
  }

  lemma PrePairSound(rows: seq<Row>, p: Pair)
    requires p in PrePairs(rows)
    ensures exists a, b :: CoMembers(rows, a, b) && p == (rows[a].0, rows[b].0)
  {
    var gs := Groups(rows);
    OriginOfPair(gs, p);
    var o :| IsOrigin(gs, o) && p == (gs[o.0].1[o.1], gs[o.0].1[o.2]);
    GroupAt(rows, o.0);
    var t := gs[o.0].0;
    assert gs[o.0].1 == Members(rows, t);
    MemberRowsSpec(rows, t);
    var mr := MemberRows(rows, t);
    assert CoMembers(rows, mr[o.1], mr[o.2]);
  }

  /** Rows a < b holding one tie sit at positions i < j of that tie's member list. */
  lemma MemberPositions(rows: seq<Row>, a: int, b: int)
    requires 0 <= a < b < |rows| && rows[a].1 == rows[b].1
    ensures exists i, j ::
      (0 <= i < j < |Members(rows, rows[a].1)|
       && Members(rows, rows[a].1)[i] == rows[a].0 && Members(rows, rows[a].1)[j] == rows[b].0)
  {
    var t := rows[a].1;
    MemberRowsSpec(rows, t);
    var mr, ms := MemberRows(rows, t), Members(rows, t);
    var i :| 0 <= i < |mr| && mr[i] == a;
    var j :| 0 <= j < |mr| && mr[j] == b;
    assert ms[i] == rows[a].0 && ms[j] == rows[b].0;
  }

  /** A tie held by at least two rows has the group of all its members. */
  lemma SharedTieGroup(rows: seq<Row>, t: Tie)
    requires |Members(rows, t)| >= 2
    ensures exists g :: 0 <= g < |Groups(rows)| && Groups(rows)[g] == (t, Members(rows, t))
  {
    GroupOfTie(rows, t);
    var gs := Groups(rows);
    var g :| 0 <= g < |gs| && gs[g].0 == t;
    GroupAt(rows, g);
    assert gs[g] == (t, Members(rows, t));
  }

  lemma PrePairComplete(rows: seq<Row>, a: int, b: int)
    requires CoMembers(rows, a, b)
    ensures (rows[a].0, rows[b].0) in PrePairs(rows)
  {
    var t := rows[a].1;
    var ms := Members(rows, t);
    MemberPositions(rows, a, b);
    var i, j :| 0 <= i < j < |ms| && ms[i] == rows[a].0 && ms[j] == rows[b].0;
    SharedTieGroup(rows, t);
    var gs := Groups(rows);
    var g :| 0 <= g < |gs| && gs[g] == (t, ms);
    PairOfOrigin(gs, (g, i, j));
  }

  /**
    The pair list holds (rows[a].0, rows[b].0) exactly when rows a < b hold
    the same tie and different ids.
   */
  lemma PrePairsFromRows(rows: seq<Row>)
    ensures forall p :: p in PrePairs(rows) <==>
      exists a, b :: CoMembers(rows, a, b) && p == (rows[a].0, rows[b].0)
  {
    forall p | p in PrePairs(rows) ensures exists a, b :: CoMembers(rows, a, b) && p == (rows[a].0, rows[b].0) {
      PrePairSound(rows, p);
    }
    forall a, b | CoMembers(rows, a, b) ensures (rows[a].0, rows[b].0) in PrePairs(rows) {
      PrePairComplete(rows, a, b);
    }
  }

  /** No edge links an id to itself (network.py:33). */
  lemma NoSelfLoops(rows: seq<Row>, weighted: bool, bidirectional: bool)
    ensures var net := Projection(rows, weighted, bidirectional);
      forall k :: 0 <= k < |net| ==> net[k].source != net[k].dest
  {
    var net, pr := Projection(rows, weighted, bidirectional), PrePairs(rows);
    var gs := Groups(rows);
    PairsOfGroupsNoSelf(gs);
    assert pr == PairsOfGroups(gs, |gs|);
    Assembly(rows, weighted, bidirectional);
    forall k | 0 <= k < |net| ensures net[k].source != net[k].dest {
      if k < |pr| {
        assert net[k].source == pr[k].0 && net[k].dest == pr[k].1;
        assert pr[k].0 != pr[k].1;
      } else {
        assert bidirectional;
        var k' := k - |pr|;
        assert net[|pr| + k'].source == pr[k'].1 && net[|pr| + k'].dest == pr[k'].0;
        assert pr[k'].0 != pr[k'].1;
      }
    }
  }

  /**
    Edges are ordered by the ascending tie of the group they come from, and
    within a group by the lexicographic order of their index pairs.
   */
  lemma EdgeOrder(rows: seq<Row>)
    ensures var gs := Groups(rows); var os := OriginsOfGroups(gs, |gs|);
      && |os| == |PrePairs(rows)|
      && (forall k :: 0 <= k < |os| ==>
            IsOrigin(gs, os[k]) && PrePairs(rows)[k] == (gs[os[k].0].1[os[k].1], gs[os[k].0].1[os[k].2]))
      && (forall k, l :: 0 <= k < l < |os| ==>
            gs[os[k].0].0 < gs[os[l].0].0
            || (os[k].0 == os[l].0 && LexLess((os[k].1, os[k].2), (os[l].1, os[l].2))))
  {
    var gs := Groups(rows);
    GroupsAscending(rows);
    OriginsSpec(gs, |gs|);
  }

  /** The weighted or unweighted table before expansion: one row per pair, in order. */
  lemma OneWaySpec(ps: seq<Pair>, weighted: bool)
    ensures var table := Assemble(ps, weighted, false);
      var w := if weighted then Some(1) else None;
      && |table| == |ps|
      && (forall k :: 0 <= k < |ps| ==> table[k] == Edge(ps[k].0, ps[k].1, w))
  {
    var plain := ToEdges(ps);
    assert forall k :: 0 <= k < |ps| ==> plain[k] == Edge(ps[k].0, ps[k].1, None);
    if weighted {
      var table := WithUnitWeight(plain);
      assert forall k :: 0 <= k < |ps| ==> table[k] == plain[k].(weight := Some(1));
    }
  }

  /** Expansion keeps the one-way table and appends it with endpoints swapped (network.py:47-51). */
  lemma TwoWaySpec(ps: seq<Pair>, weighted: bool)
    ensures var one, both := Assemble(ps, weighted, false), Assemble(ps, weighted, true);
      && both == one + Swapped(one)
      && |both| == 2 * |one|
      && (forall k :: 0 <= k < |one| ==> both[|one| + k] == Edge(one[k].dest, one[k].source, one[k].weight))
  {
    var one := Assemble(ps, weighted, false);
    var both := one + Swapped(one);
    assert Assemble(ps, weighted, true) == both;
    assert forall k :: 0 <= k < |one| ==> both[|one| + k] == Swapped(one)[k];
  }

  /**
    The table built from a pair list: one row per pair, weight 1 exactly when
    weighted, followed by the swapped rows exactly when bidirectional.
   */
  lemma AssembleSpec(ps: seq<Pair>, weighted: bool, bidirectional: bool)
    ensures var net := Assemble(ps, weighted, bidirectional);
      var w := if weighted then Some(1) else None;
      && |net| == (if bidirectional then 2 else 1) * |ps|
      && (forall k :: 0 <= k < |ps| ==> net[k] == Edge(ps[k].0, ps[k].1, w))
      && (bidirectional ==> forall k :: 0 <= k < |ps| ==> net[|ps| + k] == Edge(ps[k].1, ps[k].0, w))
  {
    OneWaySpec(ps, weighted);
    if bidirectional {
      TwoWaySpec(ps, weighted);
      var one := Assemble(ps, weighted, false);
      assert Assemble(ps, weighted, true) == one + Swapped(one);
    }
  }

  /** The same for the whole projection. */
  lemma Assembly(rows: seq<Row>, weighted: bool, bidirectional: bool)
    ensures var net, pr := Projection(rows, weighted, bidirectional), PrePairs(rows);
      var w := if weighted then Some(1) else None;
      && |net| == (if bidirectional then 2 else 1) * |pr|
      && (forall k :: 0 <= k < |pr| ==> net[k] == Edge(pr[k].0, pr[k].1, w))
      && (bidirectional ==> forall k :: 0 <= k < |pr| ==> net[|pr| + k] == Edge(pr[k].1, pr[k].0, w))
  {
    AssembleSpec(PrePairs(rows), weighted, bidirectional);
  }

  /** Every row carries weight 1 when weighted and no weight otherwise (network.py:44-45). */
  lemma WeightColumn(rows: seq<Row>, weighted: bool, bidirectional: bool)
    ensures var net := Projection(rows, weighted, bidirectional);
      forall k :: 0 <= k < |net| ==> net[k].weight == if weighted then Some(1) else None
  {
  }

  lemma SwappedAppend(a: seq<Edge>, b: seq<Edge>)
    ensures Swapped(a + b) == Swapped(a) + Swapped(b)
  {
  }

  lemma SwappedTwice(a: seq<Edge>)
    ensures Swapped(Swapped(a)) == a
  {
  }

  /**
    The bidirectional table is the one-way table followed by its swap, twice
    as long, and the multiset of its rows is unchanged by swapping endpoints.
   */
  lemma Bidirectional(rows: seq<Row>, weighted: bool)
    ensures var one, both := Projection(rows, weighted, false), Projection(rows, weighted, true);
      && both == one + Swapped(one)
      && |both| == 2 * |one|
      && multiset(Swapped(both)) == multiset(both)
  {
    var one := Projection(rows, weighted, false);
    var both := Projection(rows, weighted, true);
    SwappedAppend(one, Swapped(one));
    SwappedTwice(one);
    assert Swapped(both) == Swapped(one) + one;
  }

  /** `e` is the edge that co-member rows a < b give: forward, or backward when bidirectional. */
  ghost predicate EdgeOfRows(rows: seq<Row>, a: int, b: int, weighted: bool, bidirectional: bool, e: Edge)
  {
    var w := if weighted then Some(1) else None;
    && CoMembers(rows, a, b)
    && (e == Edge(rows[a].0, rows[b].0, w) || (bidirectional && e == Edge(rows[b].0, rows[a].0, w)))
  }

  /** Every row of the table comes from two rows that share a tie and have different ids. */
  lemma ProjectionSound(rows: seq<Row>, weighted: bool, bidirectional: bool, e: Edge)
    requires e in Projection(rows, weighted, bidirectional)
    ensures exists a, b :: EdgeOfRows(rows, a, b, weighted, bidirectional, e)
  {
    var net, pr := Projection(rows, weighted, bidirectional), PrePairs(rows);
    Assembly(rows, weighted, bidirectional);
    var k :| 0 <= k < |net| && net[k] == e;
    var w := if weighted then Some(1) else None;
    if k < |pr| {
      PrePairSound(rows, pr[k]);
      var a, b :| CoMembers(rows, a, b) && pr[k] == (rows[a].0, rows[b].0);
      assert e == Edge(rows[a].0, rows[b].0, w);
      assert EdgeOfRows(rows, a, b, weighted, bidirectional, e);
    } else {
      var k' := k - |pr|;
      assert bidirectional && e == Edge(pr[k'].1, pr[k'].0, w);
      PrePairSound(rows, pr[k']);
      var a, b :| CoMembers(rows, a, b) && pr[k'] == (rows[a].0, rows[b].0);
      assert EdgeOfRows(rows, a, b, weighted, bidirectional, e);
    }
  }

  /** Two rows that share a tie and have different ids give their edge, and its reverse when bidirectional. */
  lemma ProjectionComplete(rows: seq<Row>, weighted: bool, bidirectional: bool, a: int, b: int)
    requires CoMembers(rows, a, b)
    ensures var net, w := Projection(rows, weighted, bidirectional), if weighted then Some(1) else None;
      && Edge(rows[a].0, rows[b].0, w) in net
      && (bidirectional ==> Edge(rows[b].0, rows[a].0, w) in net)
  {
    var net, pr := Projection(rows, weighted, bidirectional), PrePairs(rows);
    Assembly(rows, weighted, bidirectional);
    PrePairComplete(rows, a, b);
    var k :| 0 <= k < |pr| && pr[k] == (rows[a].0, rows[b].0);
    assert net[k] == Edge(rows[a].0, rows[b].0, if weighted then Some(1) else None);
    if bidirectional {
      assert net[|pr| + k] == Edge(rows[b].0, rows[a].0, if weighted then Some(1) else None);
    }
  }

  /**
    The table holds exactly the edges (rows[a].0, rows[b].0) of rows a < b that
    share a tie and have different ids, and when bidirectional also their reverses.
   */
  lemma ProjectionFromRows(rows: seq<Row>, weighted: bool, bidirectional: bool)
    ensures forall e :: e in Projection(rows, weighted, bidirectional) <==>
      exists a, b :: EdgeOfRows(rows, a, b, weighted, bidirectional, e)
  {
    var net := Projection(rows, weighted, bidirectional);
    forall e | e in net ensures exists a, b :: EdgeOfRows(rows, a, b, weighted, bidirectional, e) {
      ProjectionSound(rows, weighted, bidirectional, e);
    }
    forall e | exists a, b :: EdgeOfRows(rows, a, b, weighted, bidirectional, e) ensures e in net {
      var a, b :| EdgeOfRows(rows, a, b, weighted, bidirectional, e);
      ProjectionComplete(rows, weighted, bidirectional, a, b);
    }
  }

  /** The table is empty exactly when no two rows share a tie with different ids (network.py:41-51). */
  lemma EmptyProjection(rows: seq<Row>, weighted: bool, bidirectional: bool)
    ensures Projection(rows, weighted, bidirectional) == [] <==> !exists a, b :: CoMembers(rows, a, b)
  {
    PrePairsFromRows(rows);
    Assembly(rows, weighted, bidirectional);
    var net, pr := Projection(rows, weighted, bidirectional), PrePairs(rows);
    assert net == [] <==> pr == [];
    assert forall a, b :: CoMembers(rows, a, b) ==> (rows[a].0, rows[b].0) in pr;
    if pr != [] {
      assert pr[0] in pr;
    }
  }

  /** A row whose tie no other row holds has no group and no effect on the table (network.py:21). */
  lemma IsolatedRow(rows: seq<Row>, k: int, weighted: bool, bidirectional: bool)
    requires 0 <= k < |rows| && |Members(rows, rows[k].1)| == 1
    ensures forall g :: 0 <= g < |Groups(rows)| ==> Groups(rows)[g].0 != rows[k].1
    ensures Projection(rows[..k] + rows[k + 1..], weighted, bidirectional) == Projection(rows, weighted, bidirectional)
  {
    forall g | 0 <= g < |Groups(rows)| {
      GroupAt(rows, g);
    }
    DropIsolatedRemove(rows, k);
  }

  /** The tie values A, B and C of the sample, as character codes. */
  const A: Tie := 'A' as int
  const B: Tie := 'B' as int
  const C: Tie := 'C' as int

  /** `rows` is the sample table of network.py:59-62. */
  ghost predicate IsSample(rows: seq<Row>)
  {
    && |rows| == 6
    && rows[0] == (1, A) && rows[1] == (2, B) && rows[2] == (3, A)
    && rows[3] == (4, C) && rows[4] == (5, B) && rows[5] == (6, C)
  }

  /** The members of tie `t` in the sample, joined row by row. */
  lemma SampleMembersOf(rows: seq<Row>, t: Tie)
    requires IsSample(rows)
    ensures Members(rows, t)
         == (if t == A then [1] else []) + (if t == B then [2] else []) + (if t == A then [3] else [])
            + (if t == C then [4] else []) + (if t == B then [5] else []) + (if t == C then [6] else [])
  {
    var r0, r1, r2, r3, r4, r5 := [rows[0]], [rows[1]], [rows[2]], [rows[3]], [rows[4]], [rows[5]];
    assert rows == r0 + r1 + r2 + r3 + r4 + r5;
    MembersOne(rows[0]);
    MembersOne(rows[1]);
    MembersOne(rows[2]);
    MembersOne(rows[3]);
    MembersOne(rows[4]);
    MembersOne(rows[5]);
    MembersAppend(r0 + r1 + r2 + r3 + r4, r5, t);
    MembersAppend(r0 + r1 + r2 + r3, r4, t);
    MembersAppend(r0 + r1 + r2, r3, t);
    MembersAppend(r0 + r1, r2, t);
    MembersAppend(r0, r1, t);
  }

  lemma SampleMembers(rows: seq<Row>)
    requires IsSample(rows)
    ensures Members(rows, A) == [1, 3] && Members(rows, B) == [2, 5] && Members(rows, C) == [4, 6]
  {
    SampleMembersOf(rows, A);
    assert Members(rows, A) == [1] + [] + [3] + [] + [] + [];
    SampleMembersOf(rows, B);
    assert Members(rows, B) == [] + [2] + [] + [] + [5] + [];
    SampleMembersOf(rows, C);
    assert Members(rows, C) == [] + [] + [] + [4] + [] + [6];
  }

  /** Every tie of the sample is shared, so the size filter keeps every row. */
  lemma SampleDropIsolated(rows: seq<Row>)
    requires IsSample(rows)
    ensures DropIsolated(rows) == rows
  {
    var r0, r1, r2, r3, r4, r5 := [rows[0]], [rows[1]], [rows[2]], [rows[3]], [rows[4]], [rows[5]];
    assert rows == r0 + r1 + r2 + r3 + r4 + r5;
    SampleMembers(rows);
    KeepOne(rows[0], rows);
    KeepOne(rows[1], rows);
    KeepOne(rows[2], rows);
    KeepOne(rows[3], rows);
    KeepOne(rows[4], rows);
    KeepOne(rows[5], rows);
    KeepAppend(r0 + r1 + r2 + r3 + r4, r5, rows);
    KeepAppend(r0 + r1 + r2 + r3, r4, rows);
    KeepAppend(r0 + r1 + r2, r3, rows);
    KeepAppend(r0 + r1, r2, rows);
    KeepAppend(r0, r1, rows);
  }

  lemma SampleTies(rows: seq<Row>)
    requires IsSample(rows)
    ensures Ties(rows) == [A, B, C]
  {
    assert rows[..0] == [] && rows[..6] == rows;
    assert [A, B][1..] == [B] && [A, B, C][1..] == [B, C] && [B, C][1..] == [C];
    assert Insert(B, [A]) == [A, B] by { assert [A][1..] == []; }
    assert Insert(A, [A, B]) == [A, B];
    assert Insert(C, [A, B]) == [A, B, C] by { assert Insert(C, [B]) == [B, C]; }
    assert Insert(B, [A, B, C]) == [A, B, C];
    assert Insert(C, [A, B, C]) == [A, B, C] by { assert Insert(C, [B, C]) == [B, C]; }
    TiesPrefix(rows, 0);
    assert Ties(rows[..1]) == [A];
    TiesPrefix(rows, 1);
    assert Ties(rows[..2]) == [A, B];
    TiesPrefix(rows, 2);
    assert Ties(rows[..3]) == [A, B];
    TiesPrefix(rows, 3);
    assert Ties(rows[..4]) == [A, B, C];
    TiesPrefix(rows, 4);
    assert Ties(rows[..5]) == [A, B, C];
    TiesPrefix(rows, 5);
  }

  /** The groups of the sample: A -> [1, 3], B -> [2, 5], C -> [4, 6]. */
  lemma SampleGroups(rows: seq<Row>)
    requires IsSample(rows)
    ensures Groups(rows) == [(A, [1, 3]), (B, [2, 5]), (C, [4, 6])]
  {
    SampleDropIsolated(rows);
    SampleTies(rows);
    SampleMembers(rows);
  }

  /** A group of two different ids contributes exactly the pair of them. */
  lemma TwoMemberPairs(x: Id, y: Id)
    requires x != y
    ensures GroupPairs([x, y]) == [(x, y)]
  {
    var u := [x, y];
    assert IndexPairs(2, 1) == [(0, 1)];
    assert IndexPairs(2, 2) == [(0, 1)];
    assert Kept(u, [(0, 1)]) == [(0, 1)];
  }

  /** The pair list of the sample: one pair per group, in tie order. */
  lemma SamplePairs(rows: seq<Row>)
    requires IsSample(rows)
    ensures PrePairs(rows) == [(1, 3), (2, 5), (4, 6)]
  {
    var gs := Groups(rows);
    SampleGroups(rows);
    TwoMemberPairs(1, 3);
    TwoMemberPairs(2, 5);
    TwoMemberPairs(4, 6);
    assert PairsOfGroups(gs, 1) == [(1, 3)];
    assert PairsOfGroups(gs, 2) == [(1, 3), (2, 5)];
  }

  /**
    The sample of network.py:57-68: pairs (1, 3), (2, 5), (4, 6) with weight
    1, then their swaps.
   */
  lemma SampleTable(rows: seq<Row>)
    requires IsSample(rows)
    ensures Projection(rows, true, true)
         == [Edge(1, 3, Some(1)), Edge(2, 5, Some(1)), Edge(4, 6, Some(1)),
             Edge(3, 1, Some(1)), Edge(5, 2, Some(1)), Edge(6, 4, Some(1))]
  {
    var ps := [(1, 3), (2, 5), (4, 6)];
    SamplePairs(rows);
    var table := Assemble(ps, true, true);
    AssembleSpec(ps, true, true);
    assert |table| == 6;
    assert table[0] == Edge(1, 3, Some(1)) && table[1] == Edge(2, 5, Some(1)) && table[2] == Edge(4, 6, Some(1));
    assert table[3] == Edge(3, 1, Some(1)) && table[4] == Edge(5, 2, Some(1)) && table[5] == Edge(6, 4, Some(1));
  }
}
