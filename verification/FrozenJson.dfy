/** `_freeze_json` and `_thaw_json`: bounded copies of graphs that may share
    containers or be cyclic. */
module FrozenJson {
  import opened Ids
  import opened JsonTrees
  import opened Sequences
  import opened Wrappers

  /** A frozen value. Every container is identified by the number of the call that made
      it. Python makes a new object each time, except that there is only one empty
      tuple; that one holds nothing, so it is open around nothing and closes no cycle. */
  datatype Frozen =
    | Atom(scalar: Scalar)
    | Mapping(id: nat, keys: seq<string>, values: seq<Frozen>)
    | Tuple(id: nat, items: seq<Frozen>)

  /** The JSON value a frozen one stands for. */
  function Meaning(f: Frozen): Tree
    decreases f
  {
    match f
    case Atom(s) => Leaf(s)
    case Mapping(_, keys, values) => Dict(keys, MeaningOf(values))
    case Tuple(_, items) => List(MeaningOf(items))
  }

  function MeaningOf(all: seq<Frozen>): (trees: seq<Tree>)
    ensures |trees| == |all| && forall i | 0 <= i < |all| :: trees[i] == Meaning(all[i])
    decreases all
  {
    if all == [] then [] else MeaningOf(all[..|all| - 1]) + [Meaning(all[|all| - 1])]
  }

  lemma MeaningGrows(all: seq<Frozen>, f: Frozen)
    ensures MeaningOf(all + [f]) == MeaningOf(all) + [Meaning(f)]
  {
  }

  /** Containers inside a container were made later. */
  predicate Later(f: Frozen, call: nat)
    decreases f
  {
    match f
    case Atom(_) => true
    case Mapping(id, _, values) => call < id && forall i | 0 <= i < |values| :: Later(values[i], id)
    case Tuple(id, items) => call < id && forall i | 0 <= i < |items| :: Later(items[i], id)
  }

  predicate AllLater(all: seq<Frozen>, call: nat) {
    forall i | 0 <= i < |all| :: Later(all[i], call)
  }

  lemma {:induction false} LaterStill(f: Frozen, call: nat, earlier: nat)
    requires Later(f, call) && earlier <= call
    ensures Later(f, earlier)
  {
  }

  // ---------- the loops' bookkeeping ----------

  ghost predicate UnfoldsLower(graph: Graph, value: Value, height: nat)
    requires Closed(graph) && Known(graph, value)
  {
    exists u :: Unfolds(graph, value, u) && Height(u) < height
  }

  /** `value` lies inside every open container: an unfolding of one has a lower
      unfolding of `value` in it. */
  ghost predicate Below(graph: Graph, active: set<Id>, value: Value)
    requires Closed(graph) && Known(graph, value)
  {
    forall a, t | a in active && a in graph && Unfolds(graph, Ref(a), t) :: UnfoldsLower(graph, value, Height(t))
  }

  ghost predicate AllBelow(graph: Graph, active: set<Id>, values: seq<Value>)
    requires Closed(graph) && AllKnown(graph, values)
  {
    forall i | 0 <= i < |values| :: Below(graph, active, values[i])
  }

  lemma ChildLower(graph: Graph, id: Id, n: nat, t: Tree)
    requires Closed(graph) && id in graph && n < |Targets(graph[id])|
    requires Unfolds(graph, Ref(id), t)
    ensures UnfoldsLower(graph, Targets(graph[id])[n], Height(t))
  {
    OneOfMany(Children(t), n);
    assert Unfolds(graph, Targets(graph[id])[n], Children(t)[n]);
  }

  lemma ChildrenBelow(graph: Graph, active: set<Id>, id: Id)
    requires Closed(graph) && id in graph && Below(graph, active, Ref(id))
    ensures AllBelow(graph, active + {id}, Targets(graph[id]))
  {
    var targets := Targets(graph[id]);
    forall i, a, t | 0 <= i < |targets| && a in active + {id} && a in graph && Unfolds(graph, Ref(a), t)
      ensures UnfoldsLower(graph, targets[i], Height(t))
    {
      var u := t;
      if a != id {
        assert UnfoldsLower(graph, Ref(id), Height(t));
        u :| Unfolds(graph, Ref(id), u) && Height(u) < Height(t);
      }
      ChildLower(graph, id, i, u);
    }
  }

  /** An open container met again has no unfolding at all. */
  lemma MetAgain(graph: Graph, active: set<Id>, id: Id, t: Tree)
    requires Closed(graph) && id in graph && id in active && Below(graph, active, Ref(id))
    ensures !Unfolds(graph, Ref(id), t)
  {
    if Unfolds(graph, Ref(id), t) {
      assert UnfoldsLower(graph, Ref(id), Height(t));
      var u :| Unfolds(graph, Ref(id), u) && Height(u) < Height(t);
      UnfoldsOnce(graph, Ref(id), t, u);
      assert false;
    }
  }

  lemma UnfoldAllOnce(graph: Graph, values: seq<Value>, ts: seq<Tree>, us: seq<Tree>)
    requires Closed(graph) && AllKnown(graph, values)
    requires UnfoldAll(graph, values, ts) && UnfoldAll(graph, values, us)
    ensures ts == us
  {
    forall i | 0 <= i < |values|
      ensures ts[i] == us[i]
    {
      UnfoldsOnce(graph, values[i], ts[i], us[i]);
    }
  }

  /** No way of unfolding `value` stays within the limits. */
  ghost predicate Hopeless(graph: Graph, value: Value, depth: nat, nodes: nat, bytes: nat)
    requires Closed(graph) && Known(graph, value)
  {
    forall t | Unfolds(graph, value, t) :: !Fits(t, depth, nodes, bytes)
  }

  ghost predicate AllHopeless(graph: Graph, values: seq<Value>, depth: nat, nodes: nat, bytes: nat)
    requires Closed(graph) && AllKnown(graph, values)
  {
    forall ts | UnfoldAll(graph, values, ts) :: !AllFit(ts, depth, nodes, bytes)
  }

  /** A loop over `values` that started with `n0` nodes and `b0` bytes and has frozen
      `done`; the keys took `keyBytes`. */
  ghost predicate SoFar(graph: Graph, values: seq<Value>, done: seq<Frozen>, depth: nat, keyBytes: nat,
                        n0: nat, b0: nat, nodes: nat, bytes: nat)
    requires Closed(graph) && AllKnown(graph, values)
  {
    var ts := MeaningOf(done);
    && |done| <= |values| && UnfoldAll(graph, values[..|done|], ts)
    && AllFit(ts, depth, n0, b0 + keyBytes) && AllLater(done, n0)
    && nodes == n0 + NodesOf(ts) && bytes == b0 + keyBytes + SizeOf(ts)
  }

  lemma OneTreeMore(graph: Graph, values: seq<Value>, done: seq<Tree>, t: Tree, depth: nat, nodes: nat, bytes: nat)
    requires Closed(graph) && AllKnown(graph, values) && |done| < |values|
    requires UnfoldAll(graph, values[..|done|], done) && Unfolds(graph, values[|done|], t)
    requires AllSafe(done) && depth + HeightOf(done) <= MAX_JSON_DEPTH + 1
    requires Fits(t, depth, nodes + NodesOf(done), bytes + SizeOf(done))
    ensures UnfoldAll(graph, values[..|done| + 1], done + [t]) && AllFit(done + [t], depth, nodes, bytes)
    ensures NodesOf(done + [t]) == NodesOf(done) + Nodes(t) && SizeOf(done + [t]) == SizeOf(done) + Size(t)
  {
    DropLast(done, t);
  }

  lemma OneMore(graph: Graph, values: seq<Value>, done: seq<Frozen>, item: Frozen, depth: nat, keyBytes: nat,
                n0: nat, b0: nat, nodes: nat, bytes: nat, nodes': nat, bytes': nat)
    requires Closed(graph) && AllKnown(graph, values) && |done| < |values|
    requires SoFar(graph, values, done, depth, keyBytes, n0, b0, nodes, bytes)
    requires Copied(graph, values[|done|], item, depth, nodes, bytes, nodes', bytes')
    ensures SoFar(graph, values, done + [item], depth, keyBytes, n0, b0, nodes', bytes')
  {
    MeaningGrows(done, item);
    LaterStill(item, nodes, n0);
    OneTreeMore(graph, values, MeaningOf(done), Meaning(item), depth, n0, b0 + keyBytes);
  }

  /** `done` is as far as it goes: no way of unfolding all values fits. */
  lemma Stuck(graph: Graph, values: seq<Value>, done: seq<Frozen>, depth: nat, keyBytes: nat,
              n0: nat, b0: nat, nodes: nat, bytes: nat, allKeyBytes: nat)
    requires Closed(graph) && AllKnown(graph, values) && |done| < |values| && keyBytes <= allKeyBytes
    requires SoFar(graph, values, done, depth, keyBytes, n0, b0, nodes, bytes)
    requires Hopeless(graph, values[|done|], depth, nodes, bytes)
    ensures AllHopeless(graph, values, depth, n0, b0 + allKeyBytes)
  {
    var n := |done|;
    forall ts | UnfoldAll(graph, values, ts)
      ensures !AllFit(ts, depth, n0, b0 + allKeyBytes)
    {
      UnfoldAllOnce(graph, values[..n], MeaningOf(done), ts[..n]);
      OneOfMany(ts, n);
      assert Unfolds(graph, values[n], ts[n]);
    }
  }

  lemma SpelledOnce(keys: seq<Key>, names: seq<string>, again: seq<string>)
    requires Spells(keys, names) && Spells(keys, again)
    ensures names == again
  {
    forall i | 0 <= i < |keys|
      ensures names[i] == again[i]
    {
      assert Name(names[i]) == Name(again[i]);
    }
  }

  /** Whatever the keys spell, the values cannot be unfolded within the limits. */
  ghost predicate EntriesHopeless(graph: Graph, keys: seq<Key>, values: seq<Value>, depth: nat, nodes: nat, bytes: nat)
    requires Closed(graph) && AllKnown(graph, values)
  {
    forall names | Spells(keys, names) && SafeKeys(names) ::
      AllHopeless(graph, values, depth, nodes, bytes + KeySize(names))
  }

  lemma ListHopeless(graph: Graph, id: Id, depth: nat, nodes: nat, bytes: nat)
    requires Closed(graph) && id in graph && graph[id].ListNode?
    requires AllHopeless(graph, graph[id].items, depth + 1, nodes + 1, bytes)
    ensures Hopeless(graph, Ref(id), depth, nodes, bytes)
  {
    forall t | Unfolds(graph, Ref(id), t)
      ensures !Fits(t, depth, nodes, bytes)
    {
      assert UnfoldAll(graph, graph[id].items, t.items);
    }
  }

  lemma DictHopeless(graph: Graph, id: Id, depth: nat, nodes: nat, bytes: nat)
    requires Closed(graph) && id in graph && graph[id].DictNode?
    requires EntriesHopeless(graph, graph[id].keys, graph[id].values, depth + 1, nodes + 1, bytes)
    ensures Hopeless(graph, Ref(id), depth, nodes, bytes)
  {
    forall t | Unfolds(graph, Ref(id), t)
      ensures !Fits(t, depth, nodes, bytes)
    {
      assert UnfoldAll(graph, graph[id].values, t.values);
      if SafeKeys(t.keys) {
        assert AllHopeless(graph, graph[id].values, depth + 1, nodes + 1, bytes + KeySize(t.keys));
      }
    }
  }

  lemma KeyTooMuch(keys: seq<Key>, names: seq<string>, done: seq<Tree>, bytes: nat, all: seq<string>, ts: seq<Tree>)
    requires |names| == |done| < |keys| == |all| == |ts| && done == ts[..|done|]
    requires Spells(keys[..|done|], names) && Spells(keys, all)
    requires keys[|done|].Name? ==>
      || Utf8Size(keys[|done|].s) > MAX_JSON_STRING_BYTES
      || bytes + KeySize(names) + SizeOf(done) + Utf8Size(keys[|done|].s) > MAX_JSON_SCALAR_BYTES
    ensures !SafeKeys(all) || bytes + KeySize(all) + SizeOf(ts) > MAX_JSON_SCALAR_BYTES
  {
    var n := |done|;
    assert keys[n] == Name(all[n]);
    SpelledOnce(keys[..n], names, all[..n]);
    TakeOneMore(all, n);
    KeySizeSoFar(all, n + 1);
    SizesSoFar(ts, n);
  }

  /** The dict's loop, stuck at a key that is no string or too much text. */
  lemma StuckAtKey(graph: Graph, keys: seq<Key>, values: seq<Value>, names: seq<string>, done: seq<Frozen>,
                   depth: nat, n0: nat, b0: nat, nodes: nat, bytes: nat)
    requires Closed(graph) && AllKnown(graph, values) && |keys| == |values|
    requires |names| == |done| < |values| && Spells(keys[..|done|], names)
    requires SoFar(graph, values, done, depth, KeySize(names), n0, b0, nodes, bytes)
    requires keys[|done|].Name? ==>
      || Utf8Size(keys[|done|].s) > MAX_JSON_STRING_BYTES
      || bytes + Utf8Size(keys[|done|].s) > MAX_JSON_SCALAR_BYTES
    ensures EntriesHopeless(graph, keys, values, depth, n0, b0)
  {
    forall all | Spells(keys, all) && SafeKeys(all)
      ensures AllHopeless(graph, values, depth, n0, b0 + KeySize(all))
    {
      StuckHowever(graph, keys, values, names, MeaningOf(done), depth, n0, b0, all);
    }
  }

  lemma StuckHowever(graph: Graph, keys: seq<Key>, values: seq<Value>, names: seq<string>, done: seq<Tree>,
                     depth: nat, n0: nat, b0: nat, all: seq<string>)
    requires Closed(graph) && AllKnown(graph, values) && |keys| == |values|
    requires |names| == |done| < |values| && Spells(keys[..|done|], names)
    requires UnfoldAll(graph, values[..|done|], done) && Spells(keys, all) && SafeKeys(all)
    requires keys[|done|].Name? ==>
      || Utf8Size(keys[|done|].s) > MAX_JSON_STRING_BYTES
      || b0 + KeySize(names) + SizeOf(done) + Utf8Size(keys[|done|].s) > MAX_JSON_SCALAR_BYTES
    ensures AllHopeless(graph, values, depth, n0, b0 + KeySize(all))
  {
    forall ts | UnfoldAll(graph, values, ts)
      ensures b0 + KeySize(all) + SizeOf(ts) > MAX_JSON_SCALAR_BYTES
    {
      UnfoldAllOnce(graph, values[..|done|], done, ts[..|done|]);
      KeyTooMuch(keys, names, done, b0, all, ts);
    }
  }

  /** The dict's loop, stuck at a value. */
  lemma StuckAtValue(graph: Graph, keys: seq<Key>, values: seq<Value>, names: seq<string>, done: seq<Frozen>,
                     depth: nat, n0: nat, b0: nat, nodes: nat, bytes: nat)
    requires Closed(graph) && AllKnown(graph, values) && |keys| == |values|
    requires |names| == |done| + 1 <= |values| && Spells(keys[..|done| + 1], names)
    requires SoFar(graph, values, done, depth, KeySize(names), n0, b0, nodes, bytes)
    requires Hopeless(graph, values[|done|], depth, nodes, bytes)
    ensures EntriesHopeless(graph, keys, values, depth, n0, b0)
  {
    var n := |done|;
    forall all | Spells(keys, all) && SafeKeys(all)
      ensures AllHopeless(graph, values, depth, n0, b0 + KeySize(all))
    {
      SpelledOnce(keys[..n + 1], names, all[..n + 1]);
      KeySizeSoFar(all, n + 1);
      Stuck(graph, values, done, depth, KeySize(names), n0, b0, nodes, bytes, KeySize(all));
    }
  }

  /** The key of the next value is counted. */
  lemma KeyCounted(graph: Graph, keys: seq<Key>, values: seq<Value>, names: seq<string>, name: string, done: seq<Frozen>,
                   depth: nat, n0: nat, b0: nat, nodes: nat, bytes: nat)
    requires Closed(graph) && AllKnown(graph, values) && |keys| == |values|
    requires |names| == |done| < |values| && Spells(keys[..|done|], names) && keys[|done|] == Name(name)
    requires SoFar(graph, values, done, depth, KeySize(names), n0, b0, nodes, bytes)
    requires bytes + Utf8Size(name) <= MAX_JSON_SCALAR_BYTES
    ensures KeySize(names + [name]) == KeySize(names) + Utf8Size(name)
    ensures Spells(keys[..|done| + 1], names + [name])
    ensures SoFar(graph, values, done, depth, KeySize(names + [name]), n0, b0, nodes, bytes + Utf8Size(name))
  {
    DropLast(names, name);
    TakeOneMore(keys, |done|);
  }

  /** `f` is the copy of `value`: its unfolding, within the limits, and counted. */
  ghost predicate Copied(graph: Graph, value: Value, f: Frozen, depth: nat, n0: nat, b0: nat, nodes: nat, bytes: nat)
    requires Closed(graph) && Known(graph, value)
  {
    var t := Meaning(f);
    && Unfolds(graph, value, t) && Fits(t, depth, n0, b0)
    && nodes == n0 + Nodes(t) && bytes == b0 + Size(t) && Later(f, n0)
  }

  lemma ListCopied(graph: Graph, id: Id, items: seq<Frozen>, depth: nat, call: nat, b0: nat, nodes: nat, bytes: nat)
    requires Closed(graph) && id in graph && graph[id].ListNode? && call > 0 && |items| == |graph[id].items|
    requires SoFar(graph, graph[id].items, items, depth + 1, 0, call, b0, nodes, bytes)
    ensures Copied(graph, Ref(id), Tuple(call, items), depth, call - 1, b0, nodes, bytes)
  {
    var values := graph[id].items;
    assert values[..|values|] == values;
    assert Meaning(Tuple(call, items)) == List(MeaningOf(items));
  }

  lemma DictCopied(graph: Graph, id: Id, names: seq<string>, items: seq<Frozen>, depth: nat, call: nat, b0: nat,
                   nodes: nat, bytes: nat)
    requires Closed(graph) && id in graph && graph[id].DictNode? && call > 0 && |items| == |graph[id].values|
    requires Spells(graph[id].keys, names) && SafeKeys(names)
    requires SoFar(graph, graph[id].values, items, depth + 1, KeySize(names), call, b0, nodes, bytes)
    ensures Copied(graph, Ref(id), Mapping(call, names, items), depth, call - 1, b0, nodes, bytes)
  {
    var values := graph[id].values;
    assert values[..|values|] == values;
    assert Meaning(Mapping(call, names, items)) == Dict(names, MeaningOf(items));
  }

  // ---------- freezing ----------

  class Freezer {
    var nodes: nat
    var scalarBytes: nat
    var active: set<Id>

    constructor ()
      ensures nodes == 0 && scalarBytes == 0 && active == {}
    {
      nodes, scalarBytes, active := 0, 0, {};
    }

    /** `_count_scalar_bytes`. */
    method CountText(text: string) returns (ok: bool)
      requires scalarBytes <= MAX_JSON_SCALAR_BYTES
      modifies this`scalarBytes
      ensures ok == (Utf8Size(text) <= MAX_JSON_STRING_BYTES
                     && old(scalarBytes) + Utf8Size(text) <= MAX_JSON_SCALAR_BYTES)
      ensures ok ==> scalarBytes == old(scalarBytes) + Utf8Size(text)
    {
      if |text| > MAX_JSON_STRING_BYTES {
        return false;
      }
      var size := Utf8Size(text);
      if size > MAX_JSON_STRING_BYTES {
        return false;
      }
      scalarBytes := scalarBytes + size;
      return scalarBytes <= MAX_JSON_SCALAR_BYTES;
    }

    method FreezeScalar(scalar: Scalar) returns (ok: bool)
      requires scalarBytes <= MAX_JSON_SCALAR_BYTES
      modifies this`scalarBytes
      ensures ok <==> SafeScalar(scalar) && old(scalarBytes) + ScalarSize(scalar) <= MAX_JSON_SCALAR_BYTES
      ensures ok ==> scalarBytes == old(scalarBytes) + ScalarSize(scalar)
    {
      match scalar {
        case Text(text) =>
          ok := CountText(text);
          return;
        case Null => scalarBytes := scalarBytes + 4;
        case Bool(b) => scalarBytes := scalarBytes + if b then 4 else 5;
        case Int(n) =>
          if !(-MAX_JSON_SAFE_INTEGER <= n <= MAX_JSON_SAFE_INTEGER) {
            return false;
          }
          scalarBytes := scalarBytes + |IntText(n)|;
        case Float(repr, finite) =>
          if !finite {
            return false;
          }
          scalarBytes := scalarBytes + |repr|;
        case Foreign =>
          return false;
      }
      return scalarBytes <= MAX_JSON_SCALAR_BYTES;
    }

    /** One call of `_freeze_json`: the frozen copy, or nothing when the source
        raises. It succeeds exactly on what unfolds into a tree within the limits. */
    method Freeze(graph: Graph, value: Value, depth: nat) returns (result: Option<Frozen>)
      requires Closed(graph) && Known(graph, value) && Below(graph, active, value)
      requires depth <= MAX_JSON_DEPTH + 1 && nodes <= MAX_JSON_NODES && scalarBytes <= MAX_JSON_SCALAR_BYTES
      modifies this
      ensures active == old(active) && old(nodes) < nodes <= MAX_JSON_NODES + 1
      ensures result.None? ==> Hopeless(graph, value, depth, old(nodes), old(scalarBytes))
      ensures result.Some? ==>
        Copied(graph, value, result.value, depth, old(nodes), old(scalarBytes), nodes, scalarBytes)
      decreases MAX_JSON_DEPTH + 2 - depth, 1, 0
    {
      nodes := nodes + 1;
      if nodes > MAX_JSON_NODES {
        return None;
      }
      if value.Plain? {
        var ok := FreezeScalar(value.scalar);
        assert Unfolds(graph, value, Leaf(value.scalar));
        return if ok then Some(Atom(value.scalar)) else None;
      }
      if depth > MAX_JSON_DEPTH {
        return None;
      }
      var id := value.id;
      if id in active {
        forall t ensures !Unfolds(graph, value, t) { MetAgain(graph, active, id, t); }
        return None;
      }
      ChildrenBelow(graph, active, id);
      active := active + {id};
      if graph[id].DictNode? {
        result := FreezeDict(graph, id, depth);
      } else {
        result := FreezeList(graph, id, depth);
      }
      active := active - {id};
    }

    method FreezeDict(graph: Graph, id: Id, depth: nat) returns (result: Option<Frozen>)
      requires Closed(graph) && id in graph && graph[id].DictNode? && AllBelow(graph, active, graph[id].values)
      requires depth <= MAX_JSON_DEPTH && 0 < nodes <= MAX_JSON_NODES && scalarBytes <= MAX_JSON_SCALAR_BYTES
      modifies this
      ensures active == old(active) && old(nodes) <= nodes <= MAX_JSON_NODES + 1
      ensures result.None? ==> Hopeless(graph, Ref(id), depth, old(nodes) - 1, old(scalarBytes))
      ensures result.Some? ==>
        Copied(graph, Ref(id), result.value, depth, old(nodes) - 1, old(scalarBytes), nodes, scalarBytes)
      decreases MAX_JSON_DEPTH + 2 - depth, 0, 2
    {
      var call := nodes;
      var frozen := FreezeEntries(graph, graph[id].keys, graph[id].values, depth);
      if frozen.None? {
        DictHopeless(graph, id, depth, call - 1, old(scalarBytes));
        return None;
      }
      DictCopied(graph, id, frozen.value.0, frozen.value.1, depth, call, old(scalarBytes), nodes, scalarBytes);
      return Some(Mapping(call, frozen.value.0, frozen.value.1));
    }

    method FreezeList(graph: Graph, id: Id, depth: nat) returns (result: Option<Frozen>)
      requires Closed(graph) && id in graph && graph[id].ListNode? && AllBelow(graph, active, graph[id].items)
      requires depth <= MAX_JSON_DEPTH && 0 < nodes <= MAX_JSON_NODES && scalarBytes <= MAX_JSON_SCALAR_BYTES
      modifies this
      ensures active == old(active) && old(nodes) <= nodes <= MAX_JSON_NODES + 1
      ensures result.None? ==> Hopeless(graph, Ref(id), depth, old(nodes) - 1, old(scalarBytes))
      ensures result.Some? ==>
        Copied(graph, Ref(id), result.value, depth, old(nodes) - 1, old(scalarBytes), nodes, scalarBytes)
      decreases MAX_JSON_DEPTH + 2 - depth, 0, 2
    {
      var call := nodes;
      var frozen := FreezeItems(graph, graph[id].items, depth);
      if frozen.None? {
        ListHopeless(graph, id, depth, call - 1, old(scalarBytes));
        return None;
      }
      ListCopied(graph, id, frozen.value, depth, call, old(scalarBytes), nodes, scalarBytes);
      return Some(Tuple(call, frozen.value));
    }

    /** The generator over a list or tuple. */
    method FreezeItems(graph: Graph, items: seq<Value>, depth: nat) returns (result: Option<seq<Frozen>>)
      requires Closed(graph) && AllKnown(graph, items) && AllBelow(graph, active, items)
      requires depth <= MAX_JSON_DEPTH && nodes <= MAX_JSON_NODES && scalarBytes <= MAX_JSON_SCALAR_BYTES
      modifies this
      ensures active == old(active) && old(nodes) <= nodes <= MAX_JSON_NODES + 1
      ensures result.None? ==> AllHopeless(graph, items, depth + 1, old(nodes), old(scalarBytes))
      ensures result.Some? ==>
        && |result.value| == |items|
        && SoFar(graph, items, result.value, depth + 1, 0, old(nodes), old(scalarBytes), nodes, scalarBytes)
      decreases MAX_JSON_DEPTH + 2 - depth, 0, 1
    {
      var done: seq<Frozen> := [];
      ghost var n0, b0 := nodes, scalarBytes;
      while |done| < |items|
        invariant |done| <= |items| && active == old(active)
        invariant SoFar(graph, items, done, depth + 1, 0, n0, b0, nodes, scalarBytes)
      {
        ghost var n, b := nodes, scalarBytes;
        var item := Freeze(graph, items[|done|], depth + 1);
        if item.None? {
          Stuck(graph, items, done, depth + 1, 0, n0, b0, n, b, 0);
          return None;
        }
        OneMore(graph, items, done, item.value, depth + 1, 0, n0, b0, n, b, nodes, scalarBytes);
        done := done + [item.value];
      }
      return Some(done);
    }

    /** The loop over a dict. Its keys are distinct, so every assignment to the new
        dict adds at its end. */
    method FreezeEntries(graph: Graph, keys: seq<Key>, values: seq<Value>, depth: nat)
      returns (result: Option<(seq<string>, seq<Frozen>)>)
      requires Closed(graph) && AllKnown(graph, values) && AllBelow(graph, active, values) && |keys| == |values|
      requires depth <= MAX_JSON_DEPTH && nodes <= MAX_JSON_NODES && scalarBytes <= MAX_JSON_SCALAR_BYTES
      modifies this
      ensures active == old(active) && old(nodes) <= nodes <= MAX_JSON_NODES + 1
      ensures result.None? ==> EntriesHopeless(graph, keys, values, depth + 1, old(nodes), old(scalarBytes))
      ensures result.Some? ==>
        var (names, items) := result.value;
        && |items| == |values| && Spells(keys, names) && SafeKeys(names)
        && SoFar(graph, values, items, depth + 1, KeySize(names), old(nodes), old(scalarBytes), nodes, scalarBytes)
      decreases MAX_JSON_DEPTH + 2 - depth, 0, 1
    {
      var names: seq<string>, done: seq<Frozen> := [], [];
      ghost var n0, b0 := nodes, scalarBytes;
      while |done| < |values|
        invariant |names| == |done| <= |values| && active == old(active)
        invariant Spells(keys[..|done|], names) && SafeKeys(names)
        invariant SoFar(graph, values, done, depth + 1, KeySize(names), n0, b0, nodes, scalarBytes)
      {
        var entry := FreezeEntry(graph, keys, values, depth, names, done, n0, b0);
        if entry.None? {
          return None;
        }
        names, done := names + [entry.value.0], done + [entry.value.1];
      }
      assert keys[..|keys|] == keys;
      return Some((names, done));
    }

    /** One turn of that loop: the key is counted before the value is frozen. */
    method FreezeEntry(graph: Graph, keys: seq<Key>, values: seq<Value>, depth: nat,
                       ghost names: seq<string>, done: seq<Frozen>, ghost n0: nat, ghost b0: nat)
      returns (result: Option<(string, Frozen)>)
      requires Closed(graph) && AllKnown(graph, values) && AllBelow(graph, active, values) && |keys| == |values|
      requires |names| == |done| < |values| && Spells(keys[..|done|], names) && depth <= MAX_JSON_DEPTH
      requires SoFar(graph, values, done, depth + 1, KeySize(names), n0, b0, nodes, scalarBytes)
      modifies this
      ensures active == old(active) && old(nodes) <= nodes <= MAX_JSON_NODES + 1
      ensures result.None? ==> EntriesHopeless(graph, keys, values, depth + 1, n0, b0)
      ensures result.Some? ==>
        var (name, item) := result.value;
        && Spells(keys[..|done| + 1], names + [name]) && Utf8Size(name) <= MAX_JSON_STRING_BYTES
        && SoFar(graph, values, done + [item], depth + 1, KeySize(names + [name]), n0, b0, nodes, scalarBytes)
      decreases MAX_JSON_DEPTH + 2 - depth, 0, 0
    {
      var key := keys[|done|];
      ghost var n, b := nodes, scalarBytes;
      if key.NoName? {
        StuckAtKey(graph, keys, values, names, done, depth + 1, n0, b0, n, b);
        return None;
      }
      var ok := CountText(key.s);
      if !ok {
        StuckAtKey(graph, keys, values, names, done, depth + 1, n0, b0, n, b);
        return None;
      }
      KeyCounted(graph, keys, values, names, key.s, done, depth + 1, n0, b0, n, b);
      ghost var now := names + [key.s];
      b := scalarBytes;
      var item := Freeze(graph, values[|done|], depth + 1);
      if item.None? {
        StuckAtValue(graph, keys, values, now, done, depth + 1, n0, b0, n, b);
        return None;
      }
      OneMore(graph, values, done, item.value, depth + 1, KeySize(now), n0, b0, n, b, nodes, scalarBytes);
      return Some((key.s, item.value));
    }
  }

  /** `json_node_count`: it accepts exactly the graphs that unfold within the limits,
      and counts the nodes of the unfolding. */
  method JsonNodeCount(graph: Graph, value: Value) returns (count: Option<nat>, calls: nat)
    requires Closed(graph) && Known(graph, value)
    ensures count.Some? <==> exists t :: Unfolds(graph, value, t) && Fits(t, 0, 0, 0)
    ensures forall t | count.Some? && Unfolds(graph, value, t) :: count.value == Nodes(t)
    ensures calls <= MAX_JSON_NODES + 1
  {
    var freezer := new Freezer();
    var frozen := freezer.Freeze(graph, value, 0);
    calls := freezer.nodes;
    if frozen.None? {
      return None, calls;
    }
    forall t | Unfolds(graph, value, t)
      ensures t == Meaning(frozen.value)
    {
      UnfoldsOnce(graph, value, t, Meaning(frozen.value));
    }
    count := Some(freezer.nodes);
  }

  // ---------- thawing ----------

  /** What thawing checks again: strings are not measured a second time. */
  predicate ThawableScalar(s: Scalar) {
    !s.Foreign? && (s.Int? || s.Float? ==> SafeScalar(s))
  }

  predicate Thawable(t: Tree)
    decreases t
  {
    match t
    case Leaf(s) => ThawableScalar(s)
    case Dict(_, values) => forall i | 0 <= i < |values| :: Thawable(values[i])
    case List(items) => forall i | 0 <= i < |items| :: Thawable(items[i])
  }

  ghost predicate Thaws(t: Tree, depth: nat, visited: nat) {
    Thawable(t) && visited + Nodes(t) <= MAX_JSON_NODES && depth + Height(t) <= MAX_JSON_DEPTH + 1
  }

  ghost predicate AllThaw(trees: seq<Tree>, depth: nat, visited: nat) {
    && (forall i | 0 <= i < |trees| :: Thawable(trees[i]))
    && visited + NodesOf(trees) <= MAX_JSON_NODES && depth + HeightOf(trees) <= MAX_JSON_DEPTH + 1
  }

  lemma {:induction false} SafeIsThawable(t: Tree)
    requires Safe(t)
    ensures Thawable(t)
    decreases t
  {
    match t
    case Leaf(_) =>
    case Dict(_, values) =>
      forall i | 0 <= i < |values| ensures Thawable(values[i]) { SafeIsThawable(values[i]); }
    case List(items) =>
      forall i | 0 <= i < |items| ensures Thawable(items[i]) { SafeIsThawable(items[i]); }
  }

  lemma ContainerThaws(t: Tree, depth: nat, visited: nat)
    requires !t.Leaf?
    ensures Thaws(t, depth, visited) <==> depth <= MAX_JSON_DEPTH && AllThaw(Children(t), depth + 1, visited + 1)
  {
  }

  lemma ThawStuck(all: seq<Tree>, n: nat, depth: nat, visited: nat)
    requires n < |all| && !Thaws(all[n], depth, visited + NodesOf(all[..n]))
    ensures !AllThaw(all, depth, visited)
  {
    OneOfMany(all, n);
  }

  lemma ThawMore(all: seq<Tree>, n: nat, depth: nat, visited: nat)
    requires n < |all| && AllThaw(all[..n], depth, visited)
    requires Thaws(all[n], depth, visited + NodesOf(all[..n]))
    ensures AllThaw(all[..n + 1], depth, visited)
    ensures NodesOf(all[..n + 1]) == NodesOf(all[..n]) + Nodes(all[n])
  {
    TakeOneMore(all, n);
  }

  class Thawer {
    var visited: nat
    var active: set<nat>

    constructor ()
      ensures visited == 0 && active == {}
    {
      visited, active := 0, {};
    }

    /** One call of `_thaw_json`. `made` is the latest container that is open: what is
        inside was made after it, so no container is met while it is open. */
    method Thaw(f: Frozen, depth: nat, ghost made: nat) returns (result: Option<Tree>)
      requires visited <= MAX_JSON_NODES && depth <= MAX_JSON_DEPTH + 1
      requires Later(f, made) && forall a | a in active :: a <= made
      modifies this
      ensures active == old(active)
      ensures result == if Thaws(Meaning(f), depth, old(visited)) then Some(Meaning(f)) else None
      ensures result.Some? ==> visited == old(visited) + Nodes(Meaning(f))
      decreases f
    {
      visited := visited + 1;
      if visited > MAX_JSON_NODES {
        return None;
      }
      match f {
        case Atom(scalar) =>
          return if ThawableScalar(scalar) then Some(Leaf(scalar)) else None;
        case Mapping(id, keys, values) =>
          ContainerThaws(Meaning(f), depth, visited - 1);
          var items := ThawContainer(id, values, depth, made);
          return if items.Some? then Some(Dict(keys, items.value)) else None;
        case Tuple(id, values) =>
          ContainerThaws(Meaning(f), depth, visited - 1);
          var items := ThawContainer(id, values, depth, made);
          return if items.Some? then Some(List(items.value)) else None;
      }
    }

    /** What dicts and tuples have in common: the depth, and the set of open ones. */
    method ThawContainer(id: nat, values: seq<Frozen>, depth: nat, ghost made: nat) returns (result: Option<seq<Tree>>)
      requires visited <= MAX_JSON_NODES && depth <= MAX_JSON_DEPTH + 1
      requires made < id && AllLater(values, id) && forall a | a in active :: a <= made
      modifies this
      ensures active == old(active)
      ensures result ==
        if depth <= MAX_JSON_DEPTH && AllThaw(MeaningOf(values), depth + 1, old(visited))
        then Some(MeaningOf(values)) else None
      ensures result.Some? ==> visited == old(visited) + NodesOf(MeaningOf(values))
      decreases values, 1
    {
      if depth > MAX_JSON_DEPTH {
        return None;
      }
      if id in active {
        assert false;
      }
      active := active + {id};
      result := ThawAll(values, depth + 1, id);
      active := active - {id};
    }

    /** The loop over what a container holds; keys are copied as they are. */
    method ThawAll(values: seq<Frozen>, depth: nat, ghost made: nat) returns (result: Option<seq<Tree>>)
      requires visited <= MAX_JSON_NODES && depth <= MAX_JSON_DEPTH + 1
      requires AllLater(values, made) && forall a | a in active :: a <= made
      modifies this
      ensures active == old(active)
      ensures result == if AllThaw(MeaningOf(values), depth, old(visited)) then Some(MeaningOf(values)) else None
      ensures result.Some? ==> visited == old(visited) + NodesOf(MeaningOf(values))
      decreases values, 0
    {
      var done: seq<Tree> := [];
      ghost var all, v0 := MeaningOf(values), visited;
      while |done| < |values|
        invariant |done| <= |values| && active == old(active) && done == all[..|done|]
        invariant AllThaw(done, depth, v0) && visited == v0 + NodesOf(done)
      {
        var item := Thaw(values[|done|], depth, made);
        if item.None? {
          ThawStuck(all, |done|, depth, v0);
          return None;
        }
        ThawMore(all, |done|, depth, v0);
        TakeOneMore(all, |done|);
        done := done + [item.value];
      }
      assert all[..|all|] == all;
      return Some(done);
    }
  }

  /** Freezing a mapping and thawing it again: the copy is always thawed, and it is
      the unfolding of what was frozen. */
  method FreezeThenThaw(graph: Graph, value: Value) returns (thawed: Option<Tree>)
    requires Closed(graph) && Known(graph, value)
    ensures forall t | Unfolds(graph, value, t) && Fits(t, 0, 0, 0) :: thawed == Some(t)
    ensures thawed.Some? ==> Unfolds(graph, value, thawed.value) && Fits(thawed.value, 0, 0, 0)
  {
    var freezer := new Freezer();
    var frozen := freezer.Freeze(graph, value, 0);
    if frozen.None? {
      return None;
    }
    ghost var t := Meaning(frozen.value);
    forall u | Unfolds(graph, value, u)
      ensures u == t
    {
      UnfoldsOnce(graph, value, u, t);
    }
    SafeIsThawable(t);
    var thawer := new Thawer();
    thawed := thawer.Thaw(frozen.value, 0, 0);
  }

  /** What is accepted reaches no cyclic container: no walk from it meets one twice. */
  lemma AcceptedHasNoCycle(graph: Graph, path: seq<Id>, from: nat)
    requires Closed(graph) && Walk(graph, path) && from < |path| - 1
    requires exists t :: Unfolds(graph, Ref(path[0]), t) && Fits(t, 0, 0, 0)
    ensures path[from] != path[|path| - 1]
  {
    var t :| Unfolds(graph, Ref(path[0]), t);
    NoCycleBelow(graph, path, from, t);
  }
}
