/** Joining two lists of origins: order preserved, repeats dropped. */
module Origins {

  function Union(left: seq<string>, right: seq<string>): seq<string> {
    if right == [] then left
    else
      var joined := Union(left, right[..|right| - 1]);
      var value := right[|right| - 1];
      if value in joined then joined else joined + [value]
  }

  function Names(origin: seq<string>): set<string> {
    set o | o in origin
  }

  method MergeOrigin(current: seq<string>, addition: seq<string>) returns (merged: seq<string>)
    ensures merged == Union(current, addition)
  {
    merged := current;
    for n := 0 to |addition|
      invariant merged == Union(current, addition[..n])
    {
      assert addition[..n + 1][..n] == addition[..n];
      if addition[n] !in merged {
        merged := merged + [addition[n]];
      }
    }
    assert addition[..|addition|] == addition;
  }

  /** A join holds both sides and nothing else, keeps the left side in place, and
      grows unless the right side adds nothing. */
  lemma {:induction false} UnionMeaning(left: seq<string>, right: seq<string>)
    ensures left <= Union(left, right)
    ensures Names(Union(left, right)) == Names(left) + Names(right)
    ensures Union(left, right) == left <==> Names(right) <= Names(left)
  {
    if right != [] {
      var head, value := right[..|right| - 1], right[|right| - 1];
      UnionMeaning(left, head);
      assert right == head + [value];
      assert Names(right) == Names(head) + {value};
      assert Names(Union(left, head) + [value]) == Names(Union(left, head)) + {value};
    }
  }
}
