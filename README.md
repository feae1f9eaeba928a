# Two-mode network projection

This project models `build_two_mode_network` from `network.py`. The function turns
a membership table into an edge table. Each table row pairs an entity id (a person)
with a tie value (a zip code). The output links two entities when they hold the same tie.

The function works in four steps:

1. Group the rows by tie value. Drop the ties that only one row holds. Then group the
   remaining rows again. Each group lists its ids in row order (lines 21-23).
2. For every group, visit every index pair `i < j` in lexicographic order. Append the
   pair `(users[i], users[j])` unless the two ids are equal (lines 26-36).
3. Build a `source`/`dest` table from the pair list. Optionally add a `weight` column
   holding 1 in every row (lines 41-45).
4. Optionally append a copy of the table with `source` and `dest` exchanged (lines 47-51).

The model is split into modules that follow these steps:

- `Wrappers` (`wrappers.dfy`): `Option`. The model uses it for the optional weight column.
- `Grouping` (`grouping.dfy`): the size filter and the group-by, as pure functions.
  - Rows are `(id, tie)` pairs.
  - `Members(rows, t)` gives the ids holding tie `t`, in row order.
  - `DropIsolated` is the filter of line 21.
  - `Ties` gives the distinct tie values in ascending order.
  - `Groups(rows)` is the list of `(tie, ids)` groups that the loop visits.
- `Pairs` (`pairs.dfy`): the pair enumeration. Its reference definition is written in
  three steps, independent of the loop:
  - `IndexPairs` gives every index pair in the loop's visiting order.
  - `Kept` keeps the index pairs whose ids differ.
  - `Ids` reads the ids at the kept index pairs.
  - Ghost *origins* `(group, i, j)` record where each pair of the whole list comes from.
- `TwoModeNetwork` (`network.dfy`): the functional specification and the loops.
  - `Edge(source, dest, weight)` is one row of the edge table.
  - `Projection(rows, weighted, bidirectional)` is the whole result, as a function.
  - `BuildTwoModeNetwork` is the procedure. Its triple loop is split into three methods,
    one per loop level: `EnumeratePairs`, `EnumerateGroup` and `EnumerateRow`. Each
    method appends to the list it is given, as the source appends to `edge_list`.
    `BuildTwoModeNetwork` is proved equal to `Projection`.
  - Lemmas relate the result back to the input rows. The pair list holds
    `(rows[a].0, rows[b].0)` exactly when rows `a < b` share a tie and have different
    ids. The table holds exactly the edges of those pairs, and, when bidirectional,
    their reverses too. The lemmas also cover order, counts, weight, the bidirectional
    copy and the empty result.

`groupby` sorts its keys by default (`sort=True`). So ties are visited in ascending
order, not in order of first appearance, and the model visits them the same way.

The parameter named `is_wrighted` in the source is `weighted` here, and
`is_bidirectional` is `bidirectional`.

An isolated row cannot give an edge through its own tie. Its id can still appear in
the output through another row that holds a shared tie. So the isolation property is
stated as: removing a row whose tie no other row holds leaves the output unchanged
(`IsolatedRow`).

## Model

| member | source | states |
|---|---|---|
| Grouping.MemberRowsSpec | network.py:23 | The member list of a tie holds exactly the ids of the rows with that tie. Each such row appears once, in row order, at a strictly increasing row position. |
| Grouping.MembersAppend | network.py:23 | The members of a tie in two concatenated tables are the members in the first table, then those in the second. |
| Grouping.KeepMembers | network.py:21 | The size filter keeps every row of a tie held by more than one row. It keeps no row of a tie held by a single row. |
| Grouping.MembersRemove | network.py:21 | Deleting row k lowers the row count of row k's tie by one. It changes no other tie's count. |
| Grouping.KeepRemove | network.py:21 | Filtering against a table gives the same rows as filtering against that table without an isolated row. |
| Grouping.DropIsolatedRemove | network.py:21 | Deleting a row whose tie no other row holds leaves the filtered table unchanged. |
| Grouping.Insert | network.py:23 | Adding a key to an ascending list of distinct keys keeps the list ascending and distinct. The result holds exactly the old keys and the new one. |
| Grouping.Ties | network.py:23 | The group keys are strictly ascending. They are exactly the ties held by at least one row. |
| Grouping.GroupAt | network.py:21-23 | Every group has at least two ids. They are all the ids of its tie in the unfiltered table, in row order. |
| Grouping.GroupOfTie | network.py:21-23 | A tie held by at least two rows has a group. |
| Grouping.GroupsAscending | network.py:23 | Groups are visited in strictly ascending tie order. |
| Grouping.GroupsSpec | network.py:21-23 | A tie has a group exactly when at least two rows hold it. Each group lists all of its tie's ids. Groups come in ascending tie order. |
| Pairs.Kept | network.py:33 | Every index pair that survives the filter is in range and has `i < j` and differing ids. |
| Pairs.KeptMembers | network.py:33 | The filter keeps exactly the index pairs whose ids differ. |
| Pairs.KeptAppend | network.py:31-34 | Filtering two concatenated lists of index pairs gives the two filtered lists concatenated. |
| Pairs.KeptAll | network.py:33 | When every index pair has differing ids, the filter drops nothing. |
| Pairs.KeptAscending | network.py:33 | The filter keeps the surviving index pairs in their visiting order. |
| Pairs.RowIndexPairsMembers | network.py:32 | Row `i` of the inner loop, stopped before column `j`, visits exactly the index pairs `(i, b)` with `i < b < j`. |
| Pairs.IndexPairsMembers | network.py:31-32 | The first `i` rows of the double loop visit exactly the index pairs `a < b < n` with `a < i`. |
| Pairs.IndexPairsAscending | network.py:31-32 | The double loop visits index pairs in strictly ascending lexicographic order, so each one once. |
| Pairs.IndexPairsLength | network.py:31-32 | The first `i` rows visit `T(n) - T(n - i)` index pairs, where `T(k) = 0 + 1 + ... + (k - 1)`. |
| Pairs.VisitStep | network.py:32-34 | One inner iteration appends `(u[i], u[j])` when the ids differ, and nothing otherwise. |
| Pairs.RowStep | network.py:31-34 | One outer iteration appends exactly the pairs of its own row. |
| Pairs.GroupPositionsSpec | network.py:31-34 | A group's pairs are the ids at its index pairs `i < j` with differing ids. Every such index pair is used once, in lexicographic order. |
| Pairs.GroupPairCount | network.py:31-34 | A group contributes as many pairs as it has index pairs `i < j` with differing ids. |
| Pairs.DistinctGroupPairCount | network.py:31-34 | A group of `k` distinct ids contributes `k (k - 1) / 2` pairs. |
| Pairs.OriginsLength | network.py:30-34 | There is one origin per pair in the pair list of the first `n` groups. |
| Pairs.OriginsAt | network.py:30-34 | Pair `k` consists of the ids at origin `k`. That origin names a visited group and an index pair `i < j` of it with differing ids. |
| Pairs.OriginsOrderAt | network.py:30-34 | Origins are ordered by group, then lexicographically by index pair. |
| Pairs.OriginsComplete | network.py:30-34 | Every index pair with differing ids, in every visited group, is an origin. |
| Pairs.OriginsSpec | network.py:30-34 | The whole pair list corresponds, pair by pair and in order, to the index pairs with differing ids of all groups. |
| Pairs.PairsOfGroupsNoSelf | network.py:33 | No pair links an id to itself. |
| Pairs.PairOfOrigin | network.py:30-34 | The ids at every index pair with differing ids of any group form a pair of the list. |
| Pairs.OriginOfPair | network.py:30-34 | Every pair of the list comes from an index pair with differing ids of some group. |
| Pairs.PairsOfGroupsMembership | network.py:30-34 | A pair is in the list exactly when some group has it at an index pair `i < j` with differing ids. |
| TwoModeNetwork.EnumerateRow | network.py:32-34 | The inner loop appends the id pairs of row `i`'s index pairs with differing ids, in order. |
| TwoModeNetwork.EnumerateGroup | network.py:31-34 | The double loop appends the group's pairs. |
| TwoModeNetwork.EnumeratePairs | network.py:26-36 | The loop over the groups builds the pair list of all groups in group order, with no self pairs. |
| TwoModeNetwork.BuildTwoModeNetwork | network.py:5-53 | The procedure returns exactly `Projection(rows, weighted, bidirectional)`, and no edge is a self loop. |
| TwoModeNetwork.PrePairSound | network.py:21-34 | Every pair comes from two rows `a < b` that hold the same tie and have different ids. |
| TwoModeNetwork.MemberPositions | network.py:23 | Two rows `a < b` with one tie sit at positions `i < j` of that tie's member list. |
| TwoModeNetwork.SharedTieGroup | network.py:21-23 | A tie held by at least two rows has a group with all of its members. |
| TwoModeNetwork.PrePairComplete | network.py:21-34 | Every two rows `a < b` with the same tie and different ids yield the pair of their ids. |
| TwoModeNetwork.PrePairsFromRows | network.py:21-34 | A pair is in the list exactly when rows `a < b` with the same tie and different ids carry its ids. |
| TwoModeNetwork.ProjectionSound | network.py:21-51 | Every row of the table is the edge of two rows `a < b` that share a tie and have different ids. It is forward, or backward only when bidirectional, and its weight follows the flag. |
| TwoModeNetwork.ProjectionComplete | network.py:21-51 | Two rows `a < b` that share a tie and have different ids give the edge `(rows[a].0, rows[b].0)`. When bidirectional they also give its reverse. |
| TwoModeNetwork.ProjectionFromRows | network.py:21-51 | An edge is in the table exactly when it is the forward edge, or when bidirectional the reverse edge, of two such rows. |
| TwoModeNetwork.NoSelfLoops | network.py:30-51 | No row of the edge table, in either direction, has equal `source` and `dest`. |
| TwoModeNetwork.EdgeOrder | network.py:23-34 | The pairs come in ascending tie order of their groups, and within a group by lexicographic index pair order. |
| TwoModeNetwork.OneWaySpec | network.py:41-45 | The one-way table has one row per pair, in order. Each row has weight 1 exactly when weighted, and no weight column otherwise. |
| TwoModeNetwork.TwoWaySpec | network.py:47-51 | The bidirectional table is the one-way table followed by its rows with `source` and `dest` exchanged. |
| TwoModeNetwork.AssembleSpec | network.py:41-51 | The table has `|pairs|` rows, or `2 |pairs|` when bidirectional. The second half is swapped. Weights are as above. |
| TwoModeNetwork.Assembly | network.py:41-51 | The same three facts, stated for the whole projection of a table of rows. |
| TwoModeNetwork.WeightColumn | network.py:44-45 | Every row carries weight 1 when weighted, and no weight otherwise. |
| TwoModeNetwork.SwappedTwice | network.py:50 | Exchanging `source` and `dest` twice gives back the table. |
| TwoModeNetwork.Bidirectional | network.py:47-51 | The bidirectional result has twice the one-way length. Swapping its endpoints leaves its multiset of rows unchanged. |
| TwoModeNetwork.EmptyProjection | network.py:21-51 | The result is empty exactly when no two rows share a tie with different ids. |
| TwoModeNetwork.IsolatedRow | network.py:21 | A row whose tie no other row holds has no group. Deleting it leaves the result unchanged. |
| TwoModeNetwork.SampleMembers | network.py:59-62 | In the sample, tie A is held by ids 1 and 3, B by 2 and 5, and C by 4 and 6. |
| TwoModeNetwork.SampleDropIsolated | network.py:59-62 | The size filter keeps every row of the sample. |
| TwoModeNetwork.SampleTies | network.py:59-62 | The sample's group keys are A, B, C. |
| TwoModeNetwork.SampleGroups | network.py:59-62 | The sample's groups are A -> [1, 3], B -> [2, 5] and C -> [4, 6]. |
| TwoModeNetwork.TwoMemberPairs | network.py:31-34 | A group of two different ids contributes exactly the pair of them. |
| TwoModeNetwork.SamplePairs | network.py:59-66 | The sample's pair list is (1, 3), (2, 5), (4, 6). |
| TwoModeNetwork.SampleTable | network.py:57-68 | With the defaults (weighted and bidirectional), the sample gives rows (1, 3), (2, 5), (4, 6) with weight 1, followed by (3, 1), (5, 2), (6, 4). |

## Left out

- The tqdm progress bar (lines 28, 36, 38) is left out. It is output only and does not affect the result.
- The `print` of the sample (line 68) is left out, because it is output. The sample itself is the lemma `SampleTable`.
- Pandas DataFrame details are left out: the row index, which `pd.concat` repeats in the
  bidirectional table; column dtypes; and column order. The table is a sequence of `Edge` records.
  A missing weight column is `None`.
- The column-name parameters `tie_colname` and `id_colname` are left out, along with the
  `KeyError` a missing column raises. The model takes the two selected columns directly, as `(id, tie)` rows.
- Missing tie values (NaN) are left out. `groupby` drops them by default; in the model every row has a tie.
- Ties are any hashable values that `groupby` can sort; ids are any values that `!=`
  can compare (line 33). The model uses integers for both: tie order is integer order,
  and id equality is integer equality. The sample's ties A, B and C are their character codes.
- Missing ids (NaN) are left out. NaN is not equal to itself, so two NaN ids in one group
  pass the test `users[i] != users[j]` at line 33 and give a (NaN, NaN) edge. The
  no-self-loop properties (`NoSelfLoops`, `PairsOfGroupsNoSelf`) hold only for ids that
  equal themselves, as integers do.
- The column set of an empty result is left out. With no pairs the source still returns
  a frame with columns `source` and `dest` (line 41), plus `weight` when weighted (line 45).
  The model returns an empty sequence of edges for every flag setting. So "the weight
  column exists exactly when weighted" is stated only through the rows (`WeightColumn`),
  and says nothing for an empty table.
