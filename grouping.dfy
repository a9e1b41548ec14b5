/** Grouping the sorted category params by root category name in a sorted map
    (a TreeMap<String, ArrayList<DiscoveryParams>>), whose values come out
    in ascending key order. */
module Grouping {
  import opened Discovery
  import opened StringOrder
  import opened StableSort

  /** The map key of a row: the name of its category's root. */
  function RootKey(p: CategoryParam): string {
    p.category.value.RootName()
  }

  /** The distinct keys of `rows`. */
  function RootNames(rows: seq<CategoryParam>): set<string> {
    set p | p in rows :: RootKey(p)
  }

  /** The rows of `rows` whose key is `k`, in their order in `rows`. */
  function RowsWithKey(rows: seq<CategoryParam>, k: string): (group: seq<CategoryParam>)
    ensures forall p :: p in group ==> p in rows && RootKey(p) == k
  {
    if |rows| == 0 then []
    else
      var last := rows[|rows| - 1];
      RowsWithKey(rows[..|rows| - 1], k) + (if RootKey(last) == k then [last] else [])
  }

  /** One group per key of `keys`, in that order. */
  function GroupsFor(rows: seq<CategoryParam>, keys: seq<string>): (groups: seq<seq<CategoryParam>>)
    ensures |groups| == |keys|
    ensures forall i :: 0 <= i < |keys| ==> groups[i] == RowsWithKey(rows, keys[i])
  {
    if |keys| == 0 then []
    else [RowsWithKey(rows, keys[0])] + GroupsFor(rows, keys[1..])
  }

  /** The keys of the map built from `rows`, in the map's order. */
  ghost function GroupKeys(rows: seq<CategoryParam>): seq<string> {
    Ascending(RootNames(rows))
  }

  /** The values of the map built from `rows`, in the map's order. */
  ghost function Grouped(rows: seq<CategoryParam>): seq<seq<CategoryParam>> {
    GroupsFor(rows, GroupKeys(rows))
  }

  function Flatten<T>(groups: seq<seq<T>>): seq<T> {
    if |groups| == 0 then [] else groups[0] + Flatten(groups[1..])
  }

  /** One map entry: a key and the list the map holds for it. */
  datatype Entry = Entry(key: string, members: seq<CategoryParam>)

  /** The position of `key` in a map whose entries are in ascending key
      order, or the position where it would be inserted. */
  method Locate(tree: seq<Entry>, key: string) returns (at: nat)
    ensures at <= |tree|
    ensures forall j :: 0 <= j < at ==> Less(tree[j].key, key)
    ensures at < |tree| ==> !Less(tree[at].key, key)
  {
    at := 0;
    while at < |tree| && Less(tree[at].key, key)
      invariant at <= |tree|
      invariant forall j :: 0 <= j < at ==> Less(tree[j].key, key)
    {
      at := at + 1;
    }
  }

  lemma RootNamesSnoc(seen: seq<CategoryParam>, p: CategoryParam)
    ensures RootNames(seen + [p]) == RootNames(seen) + {RootKey(p)}
  {
  }

  /** A key absent from `rows` has no rows; a present one has some. */
  lemma {:induction false} RowsWithKeyEmpty(rows: seq<CategoryParam>, k: string)
    ensures RowsWithKey(rows, k) == [] <==> k !in RootNames(rows)
  {
    if |rows| > 0 {
      var front := rows[..|rows| - 1];
      RowsWithKeyEmpty(front, k);
      assert rows == front + [rows[|rows| - 1]];
      assert RootNames(rows) == RootNames(front) + {RootKey(rows[|rows| - 1])};
    }
  }

  /** A group holds every copy of each row with its key. */
  lemma {:induction false} RowsWithKeyCount(rows: seq<CategoryParam>, k: string, p: CategoryParam)
    ensures multiset(RowsWithKey(rows, k))[p] == if RootKey(p) == k then multiset(rows)[p] else 0
  {
    if |rows| > 0 {
      RowsWithKeyCount(rows[..|rows| - 1], k, p);
      assert rows == rows[..|rows| - 1] + [rows[|rows| - 1]];
    }
  }

  /** A key that is not at the position Locate found is not in the map at
      all, and putting it there keeps the keys ascending. */
  lemma NewKeyPosition(keys: seq<string>, at: nat, key: string)
    requires StrictlyAscending(keys)
    requires at <= |keys|
    requires forall j :: 0 <= j < at ==> Less(keys[j], key)
    requires at < |keys| ==> !Less(keys[at], key) && keys[at] != key
    ensures key !in keys
    ensures StrictlyAscending(keys[..at] + [key] + keys[at..])
  {
    forall j | 0 <= j < |keys|
      ensures keys[j] != key
    {
      if j < at {
        LessIrreflexive(key);
      } else if j > at {
        assert Less(keys[at], keys[j]);
      }
    }
    if at < |keys| {
      LessTotal(key, keys[at]);
    }
    var newKeys := keys[..at] + [key] + keys[at..];
    forall a, b | 0 <= a < b < |newKeys|
      ensures Less(newKeys[a], newKeys[b])
    {
      if a < at && b > at {
        assert newKeys[a] == keys[a] && newKeys[b] == keys[b - 1];
      } else if a == at && b > at + 1 {
        assert newKeys[b] == keys[b - 1];
        LessTransitive(key, keys[at], keys[b - 1]);
      }
    }
  }

  /** What the map holds after the rows `seen`: its keys, in ascending
      order, are the keys of `seen`, and each key's list is the rows of
      `seen` with that key, in order. `keys` mirrors the entries' keys. */
  ghost predicate HoldsGroupsOf(seen: seq<CategoryParam>, tree: seq<Entry>, keys: seq<string>) {
    && |keys| == |tree|
    && (forall j :: 0 <= j < |tree| ==> tree[j].key == keys[j])
    && StrictlyAscending(keys)
    && (forall k :: k in keys <==> k in RootNames(seen))
    && (forall j :: 0 <= j < |tree| ==> tree[j].members == RowsWithKey(seen, keys[j]))
  }

  /** Appending `p` to the list at position `at`, whose key is p's, keeps
      every list equal to the rows with its key. */
  lemma AppendKeepsGroups(seen: seq<CategoryParam>, p: CategoryParam, tree: seq<Entry>, keys: seq<string>, at: nat)
    requires |keys| == |tree| && at < |tree| && keys[at] == RootKey(p)
    requires StrictlyAscending(keys)
    requires forall j :: 0 <= j < |tree| ==> tree[j].key == keys[j]
    requires forall j :: 0 <= j < |tree| ==> tree[j].members == RowsWithKey(seen, keys[j])
    ensures var tree' := tree[at := Entry(RootKey(p), tree[at].members + [p])];
      forall j :: 0 <= j < |tree'| ==> tree'[j].members == RowsWithKey(seen + [p], keys[j])
  {
    assert (seen + [p])[..|seen|] == seen;
    forall j | 0 <= j < |tree| && j != at
      ensures keys[j] != keys[at]
    {
      if j < at {
        AscendingDistinct(keys, j, at);
      } else {
        AscendingDistinct(keys, at, j);
      }
    }
  }

  /** One step of the reduction for a row whose key the map already holds
      (at the position Locate found): the list for it grows by the row. */
  lemma StepKnownKey(seen: seq<CategoryParam>, p: CategoryParam, tree: seq<Entry>, keys: seq<string>, at: nat)
    requires HoldsGroupsOf(seen, tree, keys)
    requires at < |tree| && tree[at].key == RootKey(p)
    ensures HoldsGroupsOf(seen + [p], tree[at := Entry(RootKey(p), tree[at].members + [p])], keys)
  {
    RootNamesSnoc(seen, p);
    AppendKeepsGroups(seen, p, tree, keys, at);
  }

  /** The keys after a new key is put at the position Locate found. */
  lemma NewKeyKeys(seen: seq<CategoryParam>, p: CategoryParam, keys: seq<string>, at: nat)
    requires StrictlyAscending(keys)
    requires forall k :: k in keys <==> k in RootNames(seen)
    requires at <= |keys|
    requires forall j :: 0 <= j < at ==> Less(keys[j], RootKey(p))
    requires at < |keys| ==> !Less(keys[at], RootKey(p)) && keys[at] != RootKey(p)
    ensures var keys' := keys[..at] + [RootKey(p)] + keys[at..];
      StrictlyAscending(keys') && forall k :: k in keys' <==> k in RootNames(seen + [p])
  {
    var key := RootKey(p);
    var keys' := keys[..at] + [key] + keys[at..];
    NewKeyPosition(keys, at, key);
    RootNamesSnoc(seen, p);
    assert forall k :: k in keys' <==> k in keys || k == key;
  }

  /** The lists after a new key is put with an empty list and the row is
      appended to it. */
  lemma NewKeyMembers(seen: seq<CategoryParam>, p: CategoryParam, tree: seq<Entry>, keys: seq<string>, at: nat)
    requires HoldsGroupsOf(seen, tree, keys)
    requires at <= |tree|
    requires forall j :: 0 <= j < at ==> Less(tree[j].key, RootKey(p))
    requires at < |tree| ==> !Less(tree[at].key, RootKey(p)) && tree[at].key != RootKey(p)
    ensures var key := RootKey(p);
      var put := tree[..at] + [Entry(key, [])] + tree[at..];
      var keys' := keys[..at] + [key] + keys[at..];
      var tree' := put[at := Entry(key, put[at].members + [p])];
      forall j :: 0 <= j < |tree'| ==> tree'[j].members == RowsWithKey(seen + [p], keys'[j])
  {
    var key := RootKey(p);
    var put := tree[..at] + [Entry(key, [])] + tree[at..];
    var keys' := keys[..at] + [key] + keys[at..];
    NewKeyPosition(keys, at, key);
    RowsWithKeyEmpty(seen, key);
    assert forall j :: 0 <= j < |put| ==> put[j].members == RowsWithKey(seen, keys'[j]);
    AppendKeepsGroups(seen, p, put, keys', at);
  }

  /** One step of the reduction for a row with a new key: the key is put at
      the position Locate found, with an empty list, and the row appended to
      that list. */
  lemma StepNewKey(seen: seq<CategoryParam>, p: CategoryParam, tree: seq<Entry>, keys: seq<string>, at: nat)
    requires HoldsGroupsOf(seen, tree, keys)
    requires at <= |tree|
    requires forall j :: 0 <= j < at ==> Less(tree[j].key, RootKey(p))
    requires at < |tree| ==> !Less(tree[at].key, RootKey(p)) && tree[at].key != RootKey(p)
    ensures var key := RootKey(p);
      var put := tree[..at] + [Entry(key, [])] + tree[at..];
      HoldsGroupsOf(seen + [p], put[at := Entry(key, put[at].members + [p])], keys[..at] + [key] + keys[at..])
  {
    var key := RootKey(p);
    var put := tree[..at] + [Entry(key, [])] + tree[at..];
    var keys' := keys[..at] + [key] + keys[at..];
    var tree' := put[at := Entry(key, put[at].members + [p])];
    NewKeyKeys(seen, p, keys, at);
    NewKeyMembers(seen, p, tree, keys, at);
    assert forall j :: 0 <= j < |tree'| ==> tree'[j].key == keys'[j];
    assert HoldsGroupsOf(seen + [p], tree', keys');
  }

  /** The TreeMap reduction: each row, in order, is appended to the list
      held for its key, a new empty list being put first when the key is
      new; the result is the map's values in ascending key order. */
  method GroupByRoot(rows: seq<CategoryParam>) returns (groups: seq<seq<CategoryParam>>)
    ensures groups == Grouped(rows)
  {
    var tree: seq<Entry> := [];
    ghost var keys: seq<string> := [];
    var i := 0;
    while i < |rows|
      invariant 0 <= i <= |rows|
      invariant HoldsGroupsOf(rows[..i], tree, keys)
    {
      var p := rows[i];
      var key := RootKey(p);
      var at := Locate(tree, key);
      if at == |tree| || tree[at].key != key {
        // a new key: an empty list for it goes in at position `at`
        StepNewKey(rows[..i], p, tree, keys, at);
        tree := tree[..at] + [Entry(key, [])] + tree[at..];
        keys := keys[..at] + [key] + keys[at..];
      } else {
        StepKnownKey(rows[..i], p, tree, keys, at);
      }
      // the row joins the end of the list held for its key
      tree := tree[at := Entry(key, tree[at].members + [p])];
      assert rows[..i + 1] == rows[..i] + [p];
      i := i + 1;
    }
    assert rows[..i] == rows;
    AscendingUnique(keys, GroupKeys(rows));
    groups := seq(|tree|, j requires 0 <= j < |tree| => tree[j].members);
  }

  /** Shape of the grouping: one non-empty group per distinct key; all the
      rows of a group share its key; the keys ascend strictly, so no two
      groups share one; and a group is exactly the rows with its key, in
      the order they had. */
  lemma GroupedShape(rows: seq<CategoryParam>)
    ensures |Grouped(rows)| == |RootNames(rows)|
    ensures forall i :: 0 <= i < |Grouped(rows)| ==> |Grouped(rows)[i]| > 0
    ensures forall i, j :: 0 <= i < |Grouped(rows)| && 0 <= j < |Grouped(rows)[i]| ==>
              RootKey(Grouped(rows)[i][j]) == RootKey(Grouped(rows)[i][0])
    ensures forall i, j :: 0 <= i < j < |Grouped(rows)| ==>
              Less(RootKey(Grouped(rows)[i][0]), RootKey(Grouped(rows)[j][0]))
    ensures forall i :: 0 <= i < |Grouped(rows)| ==>
              Grouped(rows)[i] == RowsWithKey(rows, RootKey(Grouped(rows)[i][0]))
  {
    var keys := GroupKeys(rows);
    var groups := Grouped(rows);
    forall i | 0 <= i < |groups|
      ensures |groups[i]| > 0 && RootKey(groups[i][0]) == keys[i]
    {
      RowsWithKeyEmpty(rows, keys[i]);
      assert groups[i][0] in groups[i];
    }
  }

  /** The rows of `rows` whose key is one of `keys`, in order. */
  function RowsWithKeyIn(rows: seq<CategoryParam>, keys: seq<string>): seq<CategoryParam> {
    if |rows| == 0 then []
    else
      var last := rows[|rows| - 1];
      RowsWithKeyIn(rows[..|rows| - 1], keys) + (if RootKey(last) in keys then [last] else [])
  }

  lemma {:induction false} RowsWithKeyInSplit(rows: seq<CategoryParam>, k: string, keys: seq<string>)
    requires k !in keys
    ensures multiset(RowsWithKeyIn(rows, [k] + keys))
         == multiset(RowsWithKey(rows, k)) + multiset(RowsWithKeyIn(rows, keys))
  {
    if |rows| > 0 {
      RowsWithKeyInSplit(rows[..|rows| - 1], k, keys);
    }
  }

  lemma {:induction false} FlattenGroupsFor(rows: seq<CategoryParam>, keys: seq<string>)
    requires forall i, j :: 0 <= i < j < |keys| ==> keys[i] != keys[j]
    ensures multiset(Flatten(GroupsFor(rows, keys))) == multiset(RowsWithKeyIn(rows, keys))
  {
    if |keys| == 0 {
      RowsWithKeyInNone(rows);
    } else {
      assert keys[0] !in keys[1..];
      FlattenGroupsFor(rows, keys[1..]);
      RowsWithKeyInSplit(rows, keys[0], keys[1..]);
      assert [keys[0]] + keys[1..] == keys;
    }
  }

  lemma {:induction false} RowsWithKeyInNone(rows: seq<CategoryParam>)
    ensures RowsWithKeyIn(rows, []) == []
  {
    if |rows| > 0 {
      RowsWithKeyInNone(rows[..|rows| - 1]);
    }
  }

  lemma {:induction false} RowsWithKeyInAll(rows: seq<CategoryParam>, keys: seq<string>)
    requires forall p :: p in rows ==> RootKey(p) in keys
    ensures RowsWithKeyIn(rows, keys) == rows
  {
    if |rows| > 0 {
      var front := rows[..|rows| - 1];
      RowsWithKeyInAll(front, keys);
      assert rows == front + [rows[|rows| - 1]];
    }
  }

  /** Taken together, the groups hold exactly the rows: none is lost, none
      is added. */
  lemma GroupedPermutation(rows: seq<CategoryParam>)
    ensures multiset(Flatten(Grouped(rows))) == multiset(rows)
  {
    var keys := GroupKeys(rows);
    forall i, j | 0 <= i < j < |keys|
      ensures keys[i] != keys[j]
    {
      AscendingDistinct(keys, i, j);
    }
    FlattenGroupsFor(rows, keys);
    RowsWithKeyInAll(rows, keys);
  }

  /** Picking out the rows of one key keeps them sorted. */
  lemma {:induction false} RowsWithKeySorted(rows: seq<CategoryParam>, k: string, cmp: (CategoryParam, CategoryParam) -> int)
    requires SortedBy(rows, cmp)
    ensures SortedBy(RowsWithKey(rows, k), cmp)
  {
    if |rows| > 0 {
      var front := rows[..|rows| - 1];
      var last := rows[|rows| - 1];
      RowsWithKeySorted(front, k, cmp);
      var g := RowsWithKey(front, k);
      var r := RowsWithKey(rows, k);
      if RootKey(last) == k {
        forall i, j | 0 <= i < j < |r|
          ensures cmp(r[i], r[j]) <= 0
        {
          if j == |g| {
            assert r[i] in g;
            var m :| 0 <= m < |front| && front[m] == r[i];
          }
        }
      }
    }
  }

  /** Each group of a sorted list is sorted. */
  lemma GroupsSorted(rows: seq<CategoryParam>, cmp: (CategoryParam, CategoryParam) -> int)
    requires SortedBy(rows, cmp)
    ensures forall i :: 0 <= i < |Grouped(rows)| ==> SortedBy(Grouped(rows)[i], cmp)
  {
    var keys := GroupKeys(rows);
    forall i | 0 <= i < |keys|
      ensures SortedBy(Grouped(rows)[i], cmp)
    {
      RowsWithKeySorted(rows, keys[i], cmp);
    }
  }
}
