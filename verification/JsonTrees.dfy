/** JSON by value: trees, their sizes, and what it means for a tree to be the
    unfolding of a graph of Python containers. */
module JsonTrees {
  import opened Ids
  import opened Numbers
  import opened Sequences

  const MAX_JSON_SAFE_INTEGER: int := 0x1F_FFFF_FFFF_FFFF
  const MAX_JSON_DEPTH := 64
  const MAX_JSON_NODES := 8192
  const MAX_JSON_STRING_BYTES := 4 * 1024 * 1024
  const MAX_JSON_SCALAR_BYTES := 32 * 1024 * 1024

  /** Values that are no container; `Foreign` is one of any other type. A float
      carries its `repr`. */
  datatype Scalar =
    | Null
    | Bool(b: bool)
    | Int(n: int)
    | Float(repr: string, finite: bool)
    | Text(s: string)
    | Foreign

  datatype Tree =
    | Leaf(scalar: Scalar)
    | Dict(keys: seq<string>, values: seq<Tree>)
    | List(items: seq<Tree>)

  function Children(t: Tree): seq<Tree> {
    match t
    case Leaf(_) => []
    case Dict(_, values) => values
    case List(items) => items
  }

  // ---------- scalars ----------

  /** Bytes of a character in UTF-8 (RFC 3629, section 3). */
  function CharBytes(c: char): nat {
    if c as int < 0x80 then 1 else if c as int < 0x800 then 2 else if c as int < 0x1_0000 then 3 else 4
  }

  function Utf8Size(s: string): (n: nat)
    ensures |s| <= n
  {
    if s == "" then 0 else Utf8Size(s[..|s| - 1]) + CharBytes(s[|s| - 1])
  }

  function ScalarSize(s: Scalar): nat {
    match s
    case Null => 4
    case Bool(b) => if b then 4 else 5
    case Int(n) => |IntText(n)|
    case Float(repr, _) => |repr|
    case Text(text) => Utf8Size(text)
    case Foreign => 0
  }

  predicate SafeScalar(s: Scalar) {
    match s
    case Int(n) => -MAX_JSON_SAFE_INTEGER <= n <= MAX_JSON_SAFE_INTEGER
    case Float(_, finite) => finite
    case Text(text) => Utf8Size(text) <= MAX_JSON_STRING_BYTES
    case Foreign => false
    case _ => true
  }

  predicate SafeKeys(keys: seq<string>) {
    forall i | 0 <= i < |keys| :: Utf8Size(keys[i]) <= MAX_JSON_STRING_BYTES
  }

  function KeySize(keys: seq<string>): nat {
    if keys == [] then 0 else KeySize(keys[..|keys| - 1]) + Utf8Size(keys[|keys| - 1])
  }

  // ---------- trees ----------

  function Nodes(t: Tree): nat
    decreases t
  {
    match t
    case Leaf(_) => 1
    case Dict(_, values) => 1 + NodesOf(values)
    case List(items) => 1 + NodesOf(items)
  }

  function NodesOf(trees: seq<Tree>): nat
    decreases trees
  {
    if trees == [] then 0 else NodesOf(trees[..|trees| - 1]) + Nodes(trees[|trees| - 1])
  }

  function Size(t: Tree): nat
    decreases t
  {
    match t
    case Leaf(s) => ScalarSize(s)
    case Dict(keys, values) => KeySize(keys) + SizeOf(values)
    case List(items) => SizeOf(items)
  }

  function SizeOf(trees: seq<Tree>): nat
    decreases trees
  {
    if trees == [] then 0 else SizeOf(trees[..|trees| - 1]) + Size(trees[|trees| - 1])
  }

  /** How many containers lie inside each other. */
  function Height(t: Tree): nat
    decreases t
  {
    match t
    case Leaf(_) => 0
    case Dict(_, values) => 1 + HeightOf(values)
    case List(items) => 1 + HeightOf(items)
  }

  function HeightOf(trees: seq<Tree>): nat
    decreases trees
  {
    if trees == [] then 0 else Max(HeightOf(trees[..|trees| - 1]), Height(trees[|trees| - 1]))
  }

  predicate Safe(t: Tree)
    decreases t
  {
    match t
    case Leaf(s) => SafeScalar(s)
    case Dict(keys, values) => SafeKeys(keys) && forall i | 0 <= i < |values| :: Safe(values[i])
    case List(items) => forall i | 0 <= i < |items| :: Safe(items[i])
  }

  predicate AllSafe(trees: seq<Tree>) {
    forall i | 0 <= i < |trees| :: Safe(trees[i])
  }

  /** Within the limits, when `nodes` and `bytes` are spent already and `depth`
      containers are open. */
  ghost predicate Fits(t: Tree, depth: nat, nodes: nat, bytes: nat) {
    && Safe(t)
    && nodes + Nodes(t) <= MAX_JSON_NODES
    && bytes + Size(t) <= MAX_JSON_SCALAR_BYTES
    && depth + Height(t) <= MAX_JSON_DEPTH + 1
  }

  ghost predicate AllFit(trees: seq<Tree>, depth: nat, nodes: nat, bytes: nat) {
    && AllSafe(trees)
    && nodes + NodesOf(trees) <= MAX_JSON_NODES
    && bytes + SizeOf(trees) <= MAX_JSON_SCALAR_BYTES
    && depth + HeightOf(trees) <= MAX_JSON_DEPTH + 1
  }

  lemma {:induction false} KeySizeSoFar(keys: seq<string>, n: nat)
    requires n <= |keys|
    ensures KeySize(keys[..n]) <= KeySize(keys)
    decreases |keys|
  {
    if n == |keys| {
      assert keys[..n] == keys;
    } else {
      assert keys[..|keys| - 1][..n] == keys[..n];
      KeySizeSoFar(keys[..|keys| - 1], n);
    }
  }

  lemma {:induction false} SizesSoFar(trees: seq<Tree>, n: nat)
    requires n <= |trees|
    ensures NodesOf(trees[..n]) <= NodesOf(trees) && SizeOf(trees[..n]) <= SizeOf(trees)
    ensures HeightOf(trees[..n]) <= HeightOf(trees)
    decreases |trees|
  {
    if n == |trees| {
      assert trees[..n] == trees;
    } else {
      assert trees[..|trees| - 1][..n] == trees[..n];
      SizesSoFar(trees[..|trees| - 1], n);
    }
  }

  /** A tree among others, with what comes before it. */
  lemma OneOfMany(trees: seq<Tree>, n: nat)
    requires n < |trees|
    ensures NodesOf(trees[..n]) + Nodes(trees[n]) <= NodesOf(trees)
    ensures SizeOf(trees[..n]) + Size(trees[n]) <= SizeOf(trees)
    ensures Height(trees[n]) <= HeightOf(trees)
  {
    TakeOneMore(trees, n);
    SizesSoFar(trees, n + 1);
  }

  // ---------- graphs ----------

  type Id = nat

  datatype Value = Plain(scalar: Scalar) | Ref(id: Id)

  /** Any object can be a key of a Python dict; only exact strings are JSON. */
  datatype Key = Name(s: string) | NoName

  /** A dict in insertion order, or a list or tuple. */
  datatype Node = DictNode(keys: seq<Key>, values: seq<Value>) | ListNode(items: seq<Value>)

  type Graph = map<Id, Node>

  function Targets(node: Node): seq<Value> {
    match node
    case DictNode(_, values) => values
    case ListNode(items) => items
  }

  predicate Known(graph: Graph, value: Value) {
    value.Ref? ==> value.id in graph
  }

  /** Containers hold only what exists, and a dict has a value for every key. */
  ghost predicate Closed(graph: Graph) {
    forall id | id in graph ::
      && (graph[id].DictNode? ==> |graph[id].keys| == |graph[id].values|)
      && AllKnown(graph, Targets(graph[id]))
  }

  predicate AllKnown(graph: Graph, values: seq<Value>) {
    forall i | 0 <= i < |values| :: Known(graph, values[i])
  }

  /** `t` is what `value` says, every container written out where it is used. */
  ghost predicate Unfolds(graph: Graph, value: Value, t: Tree)
    requires Known(graph, value) && Closed(graph)
    decreases t
  {
    match value
    case Plain(s) => t == Leaf(s)
    case Ref(id) =>
      match graph[id]
      case DictNode(keys, values) =>
        t.Dict? && Spells(keys, t.keys) && |t.values| == |values|
        && forall i | 0 <= i < |values| :: Unfolds(graph, values[i], t.values[i])
      case ListNode(items) =>
        t.List? && |t.items| == |items| && forall i | 0 <= i < |items| :: Unfolds(graph, items[i], t.items[i])
  }

  ghost predicate UnfoldAll(graph: Graph, values: seq<Value>, trees: seq<Tree>)
    requires AllKnown(graph, values) && Closed(graph)
  {
    |trees| == |values| && forall i | 0 <= i < |values| :: Unfolds(graph, values[i], trees[i])
  }

  predicate Spells(keys: seq<Key>, names: seq<string>) {
    |keys| == |names| && forall i | 0 <= i < |keys| :: keys[i] == Name(names[i])
  }

  /** There is at most one unfolding. */
  lemma {:induction false} UnfoldsOnce(graph: Graph, value: Value, t: Tree, u: Tree)
    requires Closed(graph) && Known(graph, value)
    requires Unfolds(graph, value, t) && Unfolds(graph, value, u)
    ensures t == u
    decreases t
  {
    if value.Ref? {
      forall i | 0 <= i < |Children(t)|
        ensures Children(t)[i] == Children(u)[i]
      {
        UnfoldsOnce(graph, Targets(graph[value.id])[i], Children(t)[i], Children(u)[i]);
      }
      assert Children(t) == Children(u);
      if t.Dict? {
        forall i | 0 <= i < |t.keys|
          ensures t.keys[i] == u.keys[i]
        {
          assert Name(t.keys[i]) == Name(u.keys[i]);
        }
        assert t.keys == u.keys;
      }
    }
  }

  // ---------- cycles ----------

  /** A walk from container to container. */
  ghost predicate Walk(graph: Graph, path: seq<Id>) {
    && (forall i | 0 <= i < |path| :: path[i] in graph)
    && forall i | 0 <= i < |path| - 1 :: Ref(path[i + 1]) in Targets(graph[path[i]])
  }

  /** Along a walk, unfoldings get strictly lower. */
  lemma {:induction false} WalksDescend(graph: Graph, path: seq<Id>, t: Tree) returns (u: Tree)
    requires Closed(graph) && Walk(graph, path) && path != []
    requires Unfolds(graph, Ref(path[0]), t)
    ensures Unfolds(graph, Ref(path[|path| - 1]), u)
    ensures |path| > 1 ==> Height(u) < Height(t)
    ensures Height(u) <= Height(t)
    decreases |path|
  {
    if |path| == 1 {
      u := t;
    } else {
      var targets := Targets(graph[path[0]]);
      assert Ref(path[0 + 1]) in targets;
      var i :| 0 <= i < |targets| && targets[i] == Ref(path[1]);
      OneOfMany(Children(t), i);
      u := WalksDescend(graph, path[1..], Children(t)[i]);
    }
  }

  /** What has an unfolding reaches no cycle. */
  lemma NoCycleBelow(graph: Graph, path: seq<Id>, from: nat, t: Tree)
    requires Closed(graph) && Walk(graph, path) && from < |path| - 1
    requires Unfolds(graph, Ref(path[0]), t)
    ensures path[from] != path[|path| - 1]
  {
    var u := WalksDescend(graph, path[..from + 1], t);
    var v := WalksDescend(graph, path[from..], u);
    if path[from] == path[|path| - 1] {
      UnfoldsOnce(graph, Ref(path[from]), u, v);
      assert false;
    }
  }
}
