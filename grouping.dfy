/**
  The grouping stage of the two-mode projection (network.py:21-23).

  A membership table is a sequence of rows (entity id, tie value). Rows are
  grouped by tie value; the rows of ties held by a single row are dropped
  first, and the surviving rows are grouped again, so that every group has at
  least two members. Group keys are visited in ascending order (a sorting
  group-by) and, within a group, ids keep the order of their rows.
 */
module Grouping {

  type Id = int
  type Tie = int

  /** One membership row: an entity id and the tie value it holds. */
  type Row = (Id, Tie)

  /** A group: its tie value and the ids of the rows holding it, in row order. */
  type Group = (Tie, seq<Id>)

  /** The ids of the rows holding tie `t`, in row order. */
  function Members(rows: seq<Row>, t: Tie): seq<Id>
  {
    if rows == [] then []
    else if rows[|rows| - 1].1 == t then Members(rows[..|rows| - 1], t) + [rows[|rows| - 1].0]
    else Members(rows[..|rows| - 1], t)
  }

  /** The positions of the rows holding tie `t`, in row order. */
  ghost function MemberRows(rows: seq<Row>, t: Tie): seq<int>
  {
    if rows == [] then []
    else if rows[|rows| - 1].1 == t then MemberRows(rows[..|rows| - 1], t) + [|rows| - 1]
    else MemberRows(rows[..|rows| - 1], t)
  }

  lemma {:induction false} MembersAppend(a: seq<Row>, b: seq<Row>, t: Tie)
    ensures Members(a + b, t) == Members(a, t) + Members(b, t)
    decreases |b|
  {
    if b == [] {
      assert a + b == a;
    } else {
      var b' := b[..|b| - 1];
      assert (a + b)[..|a + b| - 1] == a + b';
      MembersAppend(a, b', t);
    }
  }

  /** Members of a one-row table. */
  lemma MembersOne(r: Row)
    ensures forall t :: Members([r], t) == (if r.1 == t then [r.0] else [])
  {
    assert [r][..0] == [];
  }

  /** Members(rows, t) lists exactly the rows holding `t`, each once, in row order. */
  lemma {:induction false} MemberRowsSpec(rows: seq<Row>, t: Tie)
    ensures var mr := MemberRows(rows, t); var ms := Members(rows, t);
      && |mr| == |ms|
      && (forall i :: 0 <= i < |mr| ==> 0 <= mr[i] < |rows| && rows[mr[i]] == (ms[i], t))
      && (forall i, j :: 0 <= i < j < |mr| ==> mr[i] < mr[j])
      && (forall a :: 0 <= a < |rows| && rows[a].1 == t ==> a in mr)
  {
    if rows != [] {
      var init := rows[..|rows| - 1];
      MemberRowsSpec(init, t);
      assert forall a :: 0 <= a < |init| ==> rows[a] == init[a];
    }
  }

  /** The rows of `rows` whose tie is held by more than one row of `all`, in row order. */
  function Keep(rows: seq<Row>, all: seq<Row>): seq<Row>
  {
    if rows == [] then []
    else if |Members(all, rows[|rows| - 1].1)| > 1 then Keep(rows[..|rows| - 1], all) + [rows[|rows| - 1]]
    else Keep(rows[..|rows| - 1], all)
  }

  /** Filtering a one-row table. */
  lemma KeepOne(r: Row, all: seq<Row>)
    ensures Keep([r], all) == if |Members(all, r.1)| > 1 then [r] else []
  {
    assert [r][..0] == [];
  }

  /** The size filter of network.py:21: drop the rows whose tie no other row shares. */
  function DropIsolated(rows: seq<Row>): seq<Row>
  {
    Keep(rows, rows)
  }

  lemma {:induction false} KeepAppend(a: seq<Row>, b: seq<Row>, all: seq<Row>)
    ensures Keep(a + b, all) == Keep(a, all) + Keep(b, all)
    decreases |b|
  {
    if b == [] {
      assert a + b == a;
    } else {
      var b' := b[..|b| - 1];
      assert (a + b)[..|a + b| - 1] == a + b';
      KeepAppend(a, b', all);
    }
  }

  /** Filtering keeps every member of a shared tie and nothing of an isolated one. */
  lemma {:induction false} KeepMembers(rows: seq<Row>, all: seq<Row>, t: Tie)
    ensures Members(Keep(rows, all), t) == if |Members(all, t)| > 1 then Members(rows, t) else []
  {
    if rows != [] {
      var init := rows[..|rows| - 1];
      var last := rows[|rows| - 1];
      KeepMembers(init, all, t);
      var tail := if |Members(all, last.1)| > 1 then [last] else [];
      MembersAppend(Keep(init, all), tail, t);
      if tail != [] {
        assert tail[..0] == [];
      }
    }
  }

  /** Removing row `k` lowers the count of its own tie by one and changes no other count. */
  lemma MembersRemove(rows: seq<Row>, k: int, t: Tie)
    requires 0 <= k < |rows|
    ensures |Members(rows[..k] + rows[k + 1..], t)| == |Members(rows, t)| - (if rows[k].1 == t then 1 else 0)
  {
    var front, row, back := rows[..k], [rows[k]], rows[k + 1..];
    assert rows == front + row + back;
    assert row[..0] == [];
    MembersAppend(front + row, back, t);
    MembersAppend(front, row, t);
    MembersAppend(front, back, t);
  }

  /** Filtering against the table without an isolated row keeps the same rows. */
  lemma {:induction false} KeepRemove(rows: seq<Row>, all: seq<Row>, k: int)
    requires 0 <= k < |all| && |Members(all, all[k].1)| == 1
    ensures Keep(rows, all) == Keep(rows, all[..k] + all[k + 1..])
  {
    if rows != [] {
      KeepRemove(rows[..|rows| - 1], all, k);
      MembersRemove(all, k, rows[|rows| - 1].1);
    }
  }

  /** Removing a row whose tie no other row holds leaves the filtered table unchanged. */
  lemma DropIsolatedRemove(rows: seq<Row>, k: int)
    requires 0 <= k < |rows| && |Members(rows, rows[k].1)| == 1
    ensures DropIsolated(rows[..k] + rows[k + 1..]) == DropIsolated(rows)
  {
    var front, row, back := rows[..k], [rows[k]], rows[k + 1..];
    var rest := front + back;
    assert rows == front + row + back;
    assert row[..0] == [];
    assert Keep(row, rows) == [];
    calc {
      DropIsolated(rows);
      Keep(front + row + back, rows);
      { KeepAppend(front + row, back, rows); }
      Keep(front + row, rows) + Keep(back, rows);
      { KeepAppend(front, row, rows); }
      Keep(front, rows) + Keep(back, rows);
      { KeepRemove(front, rows, k); KeepRemove(back, rows, k); }
      Keep(front, rest) + Keep(back, rest);
      { KeepAppend(front, back, rest); }
      Keep(rest, rest);
    }
  }

  ghost predicate StrictlyAscending(s: seq<int>)
  {
    forall i, j :: 0 <= i < j < |s| ==> s[i] < s[j]
  }

  /** Adds `x` to an ascending sequence of distinct keys. */
  function Insert(x: Tie, s: seq<Tie>): (r: seq<Tie>)
    requires StrictlyAscending(s)
    ensures StrictlyAscending(r)
    ensures forall y :: y in r <==> y == x || y in s
    ensures |r| > 0 && (r[0] == x || (|s| > 0 && r[0] == s[0]))
  {
    if s == [] then [x]
    else if x < s[0] then [x] + s
    else if x == s[0] then s
    else
      var r' := Insert(x, s[1..]);
      assert s[0] < r'[0];
      [s[0]] + r'
  }

  /** The distinct tie values of the table, ascending: the key order of a sorting group-by. */
  function Ties(rows: seq<Row>): (ts: seq<Tie>)
    ensures StrictlyAscending(ts)
    ensures forall t :: t in ts <==> Members(rows, t) != []
  {
    if rows == [] then []
    else Insert(rows[|rows| - 1].1, Ties(rows[..|rows| - 1]))
  }

  /** The ties of a table one row longer. */
  lemma TiesPrefix(rows: seq<Row>, k: int)
    requires 0 <= k < |rows|
    ensures Ties(rows[..k + 1]) == Insert(rows[k].1, Ties(rows[..k]))
  {
    assert rows[..k + 1][..k] == rows[..k];
  }

  /** The group-by of network.py:23: one group per tie, ids in row order. */
  function GroupBy(rows: seq<Row>): seq<Group>
  {
    var ts := Ties(rows);
    seq(|ts|, g requires 0 <= g < |ts| => (ts[g], Members(rows, ts[g])))
  }

  /** The groups the pair enumeration visits (network.py:21-23). */
  function Groups(rows: seq<Row>): seq<Group>
  {
    GroupBy(DropIsolated(rows))
  }

  /** Group `g` holds all the rows of its tie, and there are at least two. */
  lemma GroupAt(rows: seq<Row>, g: int)
    requires 0 <= g < |Groups(rows)|
    ensures |Groups(rows)[g].1| >= 2 && Groups(rows)[g].1 == Members(rows, Groups(rows)[g].0)
  {
    var d := DropIsolated(rows);
    var ts := Ties(d);
    var t := ts[g];
    assert Groups(rows)[g] == (t, Members(d, t));
    assert t in ts;
    KeepMembers(rows, rows, t);
  }

  /** A tie held by at least two rows has a group. */
  lemma GroupOfTie(rows: seq<Row>, t: Tie)
    requires |Members(rows, t)| >= 2
    ensures exists g :: 0 <= g < |Groups(rows)| && Groups(rows)[g].0 == t
  {
    var d := DropIsolated(rows);
    var ts := Ties(d);
    KeepMembers(rows, rows, t);
    assert t in ts;
    var g :| 0 <= g < |ts| && ts[g] == t;
    assert Groups(rows)[g].0 == t;
  }

  /** Groups are visited in ascending tie order. */
  lemma GroupsAscending(rows: seq<Row>)
    ensures var gs := Groups(rows);
      forall g, h :: 0 <= g < h < |gs| ==> gs[g].0 < gs[h].0
  {
    var ts := Ties(DropIsolated(rows));
    assert StrictlyAscending(ts);
  }

  /**
    Every group has at least two members, which are all the rows holding its
    tie; ties are visited in ascending order; and a tie has a group exactly
    when at least two rows hold it.
   */
  lemma GroupsSpec(rows: seq<Row>)
    ensures var gs := Groups(rows);
      && (forall g :: 0 <= g < |gs| ==> |gs[g].1| >= 2 && gs[g].1 == Members(rows, gs[g].0))
      && (forall g, h :: 0 <= g < h < |gs| ==> gs[g].0 < gs[h].0)
      && (forall t :: |Members(rows, t)| >= 2 <==> exists g :: 0 <= g < |gs| && gs[g].0 == t)
  {
    var gs := Groups(rows);
    forall g | 0 <= g < |gs| {
      GroupAt(rows, g);
    }
    GroupsAscending(rows);
    forall t | |Members(rows, t)| >= 2 ensures exists g :: 0 <= g < |gs| && gs[g].0 == t {
      GroupOfTie(rows, t);
    }
  }
}
