/** The node count of a JSON value does not depend on the order of its keys, so what a
    writer counted a reader counts again. */
module JsonCounts {
  import opened JsonData
  import opened JsonTrees
  import opened Numbers
  import opened Sequences

  ghost predicate Distinct(keys: seq<string>) {
    forall i, j | 0 <= i < j < |keys| :: keys[i] != keys[j]
  }

  /** These keys, in this order, with these values, are entries of the dict. */
  ghost predicate Entries(keys: seq<string>, values: seq<Tree>, fields: map<string, Json>)
    decreases values, 1
  {
    && |keys| == |values| && Distinct(keys)
    && forall i | 0 <= i < |keys| :: keys[i] in fields && Writes(values[i], fields[keys[i]])
  }

  /** `t` is the value `j`, its dicts in whatever order. */
  ghost predicate Writes(t: Tree, j: Json)
    decreases t, 0
  {
    match j
    case JNull => t == Leaf(Null)
    case JBool(b) => t == Leaf(Bool(b))
    case JInt(n) => t == Leaf(Int(n))
    case JFloat(repr) => t == Leaf(Float(repr, repr !in {"nan", "inf", "-inf"}))
    case JStr(s) => t == Leaf(Text(s))
    case JList(items) => t.List? && |t.items| == |items| && forall i | 0 <= i < |items| :: Writes(t.items[i], items[i])
    case JDict(fields) =>
      t.Dict? && Entries(t.keys, t.values, fields) && forall k | k in fields :: k in t.keys
  }

  /** `json_node_count` returns for this value. */
  ghost predicate Countable(j: Json) {
    exists t :: Writes(t, j) && Fits(t, 0, 0, 0)
  }

  // ---------- the order of keys ----------

  function Without<T>(s: seq<T>, i: nat): seq<T>
    requires i < |s|
  {
    s[..i] + s[i + 1..]
  }

  lemma WithoutLast<T>(s: seq<T>, i: nat)
    requires i < |s|
    ensures if i == |s| - 1 then Without(s, i) == s[..i]
            else Without(s, i) == Without(s[..|s| - 1], i) + [s[|s| - 1]]
  {
  }

  lemma {:induction false} TreesWithout(trees: seq<Tree>, i: nat)
    requires i < |trees|
    ensures NodesOf(trees) == NodesOf(Without(trees, i)) + Nodes(trees[i])
    ensures SizeOf(trees) == SizeOf(Without(trees, i)) + Size(trees[i])
    ensures HeightOf(trees) == Max(HeightOf(Without(trees, i)), Height(trees[i]))
    ensures AllSafe(trees) <==> AllSafe(Without(trees, i)) && Safe(trees[i])
  {
    WithoutLast(trees, i);
    AllSafeWithout(trees, i);
    if i < |trees| - 1 {
      var head, last := trees[..|trees| - 1], trees[|trees| - 1];
      TreesWithout(head, i);
      DropLast(Without(head, i), last);
    }
  }

  lemma AllSafeWithout(trees: seq<Tree>, i: nat)
    requires i < |trees|
    ensures AllSafe(trees) <==> AllSafe(Without(trees, i)) && Safe(trees[i])
  {
    var rest := Without(trees, i);
    assert forall k | 0 <= k < i :: rest[k] == trees[k];
    assert forall k | i < k < |trees| :: rest[k - 1] == trees[k];
  }

  lemma {:induction false} KeysWithout(keys: seq<string>, i: nat)
    requires i < |keys|
    ensures KeySize(keys) == KeySize(Without(keys, i)) + Utf8Size(keys[i])
  {
    WithoutLast(keys, i);
    if i < |keys| - 1 {
      var head, last := keys[..|keys| - 1], keys[|keys| - 1];
      KeysWithout(head, i);
      DropLast(Without(head, i), last);
    }
  }

  /** The limits look at two trees alike. */
  ghost predicate Alike(t: Tree, u: Tree) {
    Nodes(t) == Nodes(u) && Size(t) == Size(u) && Height(t) == Height(u) && (Safe(t) <==> Safe(u))
  }

  ghost predicate AllAlike(ts: seq<Tree>, us: seq<Tree>) {
    && NodesOf(ts) == NodesOf(us) && SizeOf(ts) == SizeOf(us) && HeightOf(ts) == HeightOf(us)
    && (AllSafe(ts) <==> AllSafe(us))
  }

  ghost predicate SameKeys(keys: seq<string>, other: seq<string>) {
    forall k :: k in keys <==> k in other
  }

  lemma DistinctWithout(keys: seq<string>, i: nat)
    requires Distinct(keys) && i < |keys|
    ensures Distinct(Without(keys, i))
    ensures forall k :: k in Without(keys, i) <==> k in keys && k != keys[i]
  {
    var rest := Without(keys, i);
    assert forall k | 0 <= k < i :: rest[k] == keys[k];
    assert forall k | i <= k < |rest| :: rest[k] == keys[k + 1];
    forall k | k in keys && k != keys[i]
      ensures k in rest
    {
      var n :| 0 <= n < |keys| && keys[n] == k;
      assert rest[if n < i then n else n - 1] == k;
    }
  }

  lemma EntriesWithout(keys: seq<string>, values: seq<Tree>, fields: map<string, Json>, i: nat)
    requires Entries(keys, values, fields) && i < |keys|
    ensures Entries(Without(keys, i), Without(values, i), fields)
  {
    DistinctWithout(keys, i);
    var ks, vs := Without(keys, i), Without(values, i);
    forall k | 0 <= k < |ks|
      ensures ks[k] in fields && Writes(vs[k], fields[ks[k]])
    {
      var n := if k < i then k else k + 1;
      assert ks[k] == keys[n] && vs[k] == values[n];
    }
  }

  lemma SameEmptiness(keys: seq<string>, other: seq<string>)
    requires SameKeys(keys, other)
    ensures keys == [] <==> other == []
  {
    assert keys != [] ==> keys[0] in other;
    assert other != [] ==> other[0] in keys;
  }

  lemma {:induction false} EntriesAlike(keys: seq<string>, values: seq<Tree>, keys': seq<string>, values': seq<Tree>,
                                        fields: map<string, Json>)
    requires Entries(keys, values, fields) && Entries(keys', values', fields) && SameKeys(keys, keys')
    ensures AllAlike(values, values') && KeySize(keys) == KeySize(keys')
    decreases values, 1
  {
    SameEmptiness(keys, keys');
    if keys != [] {
      var last := |keys| - 1;
      assert keys[last] in keys;
      var i :| 0 <= i < |keys'| && keys'[i] == keys[last];
      EntriesWithout(keys, values, fields, last);
      EntriesWithout(keys', values', fields, i);
      DistinctWithout(keys, last);
      DistinctWithout(keys', i);
      WithoutLast(keys, last);
      WithoutLast(values, last);
      EntriesAlike(keys[..last], values[..last], Without(keys', i), Without(values', i), fields);
      WritesAlike(values[last], values'[i], fields[keys[last]]);
      TreesWithout(values, last);
      TreesWithout(values', i);
      KeysWithout(keys, last);
      KeysWithout(keys', i);
    }
  }

  lemma {:induction false} ItemsAlike(ts: seq<Tree>, us: seq<Tree>, items: seq<Json>)
    requires |ts| == |us| == |items|
    requires forall i | 0 <= i < |items| :: Writes(ts[i], items[i]) && Writes(us[i], items[i])
    ensures AllAlike(ts, us)
    decreases ts, 1
  {
    if ts != [] {
      var last := |ts| - 1;
      ItemsAlike(ts[..last], us[..last], items[..last]);
      WritesAlike(ts[last], us[last], items[last]);
      WithoutLast(ts, last);
      WithoutLast(us, last);
      TreesWithout(ts, last);
      TreesWithout(us, last);
    }
  }

  /** Two ways of writing the same value count the same. */
  lemma {:induction false} WritesAlike(t: Tree, u: Tree, j: Json)
    requires Writes(t, j) && Writes(u, j)
    ensures Alike(t, u)
    decreases t, 0
  {
    match j
    case JList(items) => ItemsAlike(t.items, u.items, items);
    case JDict(fields) =>
      EntriesAlike(t.keys, t.values, u.keys, u.values, fields);
      SameKeysSafe(t.keys, u.keys);
    case _ =>
  }

  lemma SameKeysSafe(keys: seq<string>, other: seq<string>)
    requires SameKeys(keys, other)
    ensures SafeKeys(keys) <==> SafeKeys(other)
  {
    assert forall i | 0 <= i < |keys| :: keys[i] in other;
    assert forall i | 0 <= i < |other| :: other[i] in keys;
  }

  /** A graph that unfolds to `j` in any order of keys passes the count exactly if `j` is
      countable: what the writer counts before the keys are sorted, the reader counts after. */
  lemma CountIsOfTheValue(graph: Graph, value: Value, t: Tree, j: Json)
    requires Closed(graph) && Known(graph, value) && Unfolds(graph, value, t) && Writes(t, j)
    ensures (exists u :: Unfolds(graph, value, u) && Fits(u, 0, 0, 0)) <==> Countable(j)
  {
    if u :| Unfolds(graph, value, u) && Fits(u, 0, 0, 0) {
      UnfoldsOnce(graph, value, t, u);
    }
    if u :| Writes(u, j) && Fits(u, 0, 0, 0) {
      WritesAlike(t, u, j);
    }
  }
}
