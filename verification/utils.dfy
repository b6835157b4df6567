/** The list helper of the utilities file: `flatten`. */
module Utils {

  /** The inner lists concatenated in order (a list comprehension over
      every inner list, then every element of it). */
  function Flatten<T>(xss: seq<seq<T>>): seq<T>
  {
    if |xss| == 0 then [] else xss[0] + Flatten(xss[1..])
  }

  /** Sum of the inner list lengths. */
  function TotalLength<T>(xss: seq<seq<T>>): nat
  {
    if |xss| == 0 then 0 else |xss[0]| + TotalLength(xss[1..])
  }

  /** The result is exactly as long as all inner lists together. */
  lemma {:induction false} FlattenLength<T>(xss: seq<seq<T>>)
    ensures |Flatten(xss)| == TotalLength(xss)
  {
    if |xss| > 0 {
      FlattenLength(xss[1..]);
    }
  }

  /** Flattening distributes over concatenation of the outer list. */
  lemma {:induction false} FlattenAppend<T>(a: seq<seq<T>>, b: seq<seq<T>>)
    ensures Flatten(a + b) == Flatten(a) + Flatten(b)
  {
    if |a| == 0 {
      assert a + b == b;
    } else {
      assert (a + b)[1..] == a[1..] + b;
      FlattenAppend(a[1..], b);
    }
  }

  /** An empty outer list flattens to nothing, and an empty inner list
      contributes nothing wherever it stands. */
  lemma {:induction false} FlattenSkipsEmpty<T>(a: seq<seq<T>>, b: seq<seq<T>>)
    ensures Flatten<T>([]) == []
    ensures Flatten(a + [[]] + b) == Flatten(a + b)
  {
    FlattenAppend(a + [[]], b);
    FlattenAppend(a, [[]]);
    assert Flatten<T>([[]]) == [] + Flatten<T>([]);
    assert a + [[]] + b == (a + [[]]) + b;
    FlattenAppend(a, b);
  }

  /** An element occurs in the result iff it occurs in some inner list. */
  lemma {:induction false} FlattenMembership<T>(xss: seq<seq<T>>, x: T)
    ensures x in Flatten(xss) <==> exists i :: 0 <= i < |xss| && x in xss[i]
  {
    if |xss| > 0 {
      FlattenMembership(xss[1..], x);
      if x in Flatten(xss[1..]) {
        var i :| 0 <= i < |xss[1..]| && x in xss[1..][i];
        assert x in xss[i + 1];
      }
      if exists i :: 0 <= i < |xss| && x in xss[i] {
        var i :| 0 <= i < |xss| && x in xss[i];
        if i > 0 {
          assert x in xss[1..][i - 1];
        }
      }
    }
  }

  /** The docstring's example: `[[1, 2], [3, 4], [5]]` becomes `[1, 2, 3, 4, 5]`. */
  lemma FlattenExample()
    ensures Flatten([[1, 2], [3, 4], [5]]) == [1, 2, 3, 4, 5]
    ensures Flatten([[1, 2, 3], [4, 5, 6]]) == [1, 2, 3, 4, 5, 6]
  {
  }

  /** The comprehension as the nested loop it stands for; it computes
      exactly `Flatten`. */
  method FlattenLoop<T>(xss: seq<seq<T>>) returns (r: seq<T>)
    ensures r == Flatten(xss)
  {
    r := [];
    var i := 0;
    while i < |xss|
      invariant 0 <= i <= |xss|
      invariant r == Flatten(xss[..i])
    {
      var j := 0;
      while j < |xss[i]|
        invariant 0 <= j <= |xss[i]|
        invariant r == Flatten(xss[..i]) + xss[i][..j]
      {
        r := r + [xss[i][j]];
        j := j + 1;
      }
      assert xss[i][..j] == xss[i];
      assert xss[..i + 1] == xss[..i] + [xss[i]];
      FlattenAppend(xss[..i], [xss[i]]);
      assert Flatten([xss[i]]) == xss[i] + Flatten<T>([]);
      i := i + 1;
    }
    assert xss[..i] == xss;
  }
}
