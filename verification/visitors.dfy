/** The visitor protocol: a pre-order traversal that visits a node and
    then each child left to right, and a composite that runs several
    visitors' whole traversals one after another. A visit updates the
    node's attributes; the traversal rebuilds the tree with the updated
    attributes, so a child is visited against its ancestors' updated
    attributes. An error raised by a visit ends the traversal. */
module Visitors {
  import opened Wrappers
  import opened Tree

  /** A visit: from the ancestors' attributes (already updated, root
      first) and the node as it stands, the node's new attributes. */
  type Visitor = (seq<Attrs>, Node) -> Result<Attrs, Error>

  /** `traverse`: visit the node, then traverse each child in order. */
  function Traverse(v: Visitor, scope: seq<Attrs>, n: Node): (r: Result<Node, Error>)
    ensures r.Ok? ==> v(scope, n) == Ok(r.value.attrs) && |r.value.children| == |n.children|
    decreases n
  {
    var a :- v(scope, n);
    var kids :- TraverseAll(v, scope + [a], n.children);
    Ok(Node(a, kids))
  }

  /** The children in order, against the same (updated) parent scope; the
      first failure ends the loop. */
  function TraverseAll(v: Visitor, scope: seq<Attrs>, ns: seq<Node>): (r: Result<seq<Node>, Error>)
    ensures r.Ok? <==> forall i :: 0 <= i < |ns| ==> Traverse(v, scope, ns[i]).Ok?
    ensures r.Ok? ==> |r.value| == |ns| && forall i :: 0 <= i < |ns| ==> Traverse(v, scope, ns[i]) == Ok(r.value[i])
    ensures r.Err? ==> exists i :: (0 <= i < |ns| && Traverse(v, scope, ns[i]) == Err(r.error)
      && forall j :: 0 <= j < i ==> Traverse(v, scope, ns[j]).Ok?)
    decreases ns
  {
    if |ns| == 0 then Ok([])
    else
      var first :- Traverse(v, scope, ns[0]);
      assert forall i :: 1 <= i < |ns| ==> ns[i] == ns[1..][i - 1];
      var rest :- TraverseAll(v, scope, ns[1..]);
      Ok([first] + rest)
  }

  // ---- the visit order ----

  /** One call of `visit`: the scope it saw and the node it was given. */
  datatype Call = Call(ancestors: seq<Attrs>, node: Node)

  /** The calls of `visit` made by `traverse`, in the order made, up to and
      including a failing one. */
  function Calls(v: Visitor, scope: seq<Attrs>, n: Node): seq<Call>
    decreases n
  {
    [Call(scope, n)] +
    match v(scope, n)
    case Err(_) => []
    case Ok(a) => CallsAll(v, scope + [a], n.children)
  }

  function CallsAll(v: Visitor, scope: seq<Attrs>, ns: seq<Node>): seq<Call>
    decreases ns
  {
    if |ns| == 0 then []
    else Calls(v, scope, ns[0]) + if Traverse(v, scope, ns[0]).Ok? then CallsAll(v, scope, ns[1..]) else []
  }

  /** The nodes of a tree, node before its descendants, children left to
      right. */
  function PreOrder(n: Node): seq<Node>
    decreases n
  {
    [n] + PreOrderAll(n.children)
  }

  function PreOrderAll(ns: seq<Node>): seq<Node>
    decreases ns
  {
    if |ns| == 0 then [] else PreOrder(ns[0]) + PreOrderAll(ns[1..])
  }

  function NodesOf(cs: seq<Call>): (r: seq<Node>)
    ensures |r| == |cs| && forall i :: 0 <= i < |cs| ==> r[i] == cs[i].node
  {
    seq(|cs|, i requires 0 <= i < |cs| => cs[i].node)
  }

  lemma NodesOfAppend(a: seq<Call>, b: seq<Call>)
    ensures NodesOf(a + b) == NodesOf(a) + NodesOf(b)
  {
  }

  /** A successful traversal visits every node exactly once, in pre-order,
      and every visit succeeds. */
  lemma {:induction false} VisitsInPreOrder(v: Visitor, scope: seq<Attrs>, n: Node)
    requires Traverse(v, scope, n).Ok?
    ensures NodesOf(Calls(v, scope, n)) == PreOrder(n)
    ensures forall i :: 0 <= i < |Calls(v, scope, n)| ==>
      v(Calls(v, scope, n)[i].ancestors, Calls(v, scope, n)[i].node).Ok?
    decreases n
  {
    var a := v(scope, n).value;
    VisitsInPreOrderAll(v, scope + [a], n.children);
    var rest := CallsAll(v, scope + [a], n.children);
    assert Calls(v, scope, n) == [Call(scope, n)] + rest;
    NodesOfAppend([Call(scope, n)], rest);
  }

  lemma {:induction false} VisitsInPreOrderAll(v: Visitor, scope: seq<Attrs>, ns: seq<Node>)
    requires TraverseAll(v, scope, ns).Ok?
    ensures NodesOf(CallsAll(v, scope, ns)) == PreOrderAll(ns)
    ensures forall i :: 0 <= i < |CallsAll(v, scope, ns)| ==>
      v(CallsAll(v, scope, ns)[i].ancestors, CallsAll(v, scope, ns)[i].node).Ok?
    decreases ns
  {
    if |ns| > 0 {
      assert Traverse(v, scope, ns[0]).Ok?;
      assert forall i :: 1 <= i < |ns| ==> ns[i] == ns[1..][i - 1];
      VisitsInPreOrder(v, scope, ns[0]);
      VisitsInPreOrderAll(v, scope, ns[1..]);
      NodesOfAppend(Calls(v, scope, ns[0]), CallsAll(v, scope, ns[1..]));
    }
  }

  /** A failed traversal stops at the first failing visit: every earlier
      visit succeeded, and the error is the one the last visit raised. */
  lemma {:induction false} StopsAtFirstFailure(v: Visitor, scope: seq<Attrs>, n: Node)
    requires Traverse(v, scope, n).Err?
    ensures var cs := Calls(v, scope, n);
      && |cs| > 0
      && v(cs[|cs| - 1].ancestors, cs[|cs| - 1].node) == Err(Traverse(v, scope, n).error)
      && forall i :: 0 <= i < |cs| - 1 ==> v(cs[i].ancestors, cs[i].node).Ok?
    decreases n
  {
    if v(scope, n).Ok? {
      var a := v(scope, n).value;
      StopsAtFirstFailureAll(v, scope + [a], n.children);
    }
  }

  lemma {:induction false} StopsAtFirstFailureAll(v: Visitor, scope: seq<Attrs>, ns: seq<Node>)
    requires TraverseAll(v, scope, ns).Err?
    ensures var cs := CallsAll(v, scope, ns);
      && |cs| > 0
      && v(cs[|cs| - 1].ancestors, cs[|cs| - 1].node) == Err(TraverseAll(v, scope, ns).error)
      && forall i :: 0 <= i < |cs| - 1 ==> v(cs[i].ancestors, cs[i].node).Ok?
    decreases ns
  {
    var first := Calls(v, scope, ns[0]);
    if Traverse(v, scope, ns[0]).Err? {
      StopsAtFirstFailure(v, scope, ns[0]);
      assert CallsAll(v, scope, ns) == first + [];
    } else {
      assert forall i :: 1 <= i < |ns| ==> ns[i] == ns[1..][i - 1];
      assert TraverseAll(v, scope, ns) == TraverseAll(v, scope, ns[1..]);
      VisitsInPreOrder(v, scope, ns[0]);
      StopsAtFirstFailureAll(v, scope, ns[1..]);
      var rest := CallsAll(v, scope, ns[1..]);
      assert CallsAll(v, scope, ns) == first + rest;
      FailureAfterSuccesses(v, first, rest, TraverseAll(v, scope, ns).error);
    }
  }

  /** Successful calls followed by calls that end in a failure end in
      that failure. */
  lemma FailureAfterSuccesses(v: Visitor, first: seq<Call>, rest: seq<Call>, err: Error)
    requires forall i :: 0 <= i < |first| ==> v(first[i].ancestors, first[i].node).Ok?
    requires |rest| > 0 && v(rest[|rest| - 1].ancestors, rest[|rest| - 1].node) == Err(err)
    requires forall i :: 0 <= i < |rest| - 1 ==> v(rest[i].ancestors, rest[i].node).Ok?
    ensures var cs := first + rest;
      && |cs| > 0
      && v(cs[|cs| - 1].ancestors, cs[|cs| - 1].node) == Err(err)
      && forall i :: 0 <= i < |cs| - 1 ==> v(cs[i].ancestors, cs[i].node).Ok?
  {
    var cs := first + rest;
    assert cs[|cs| - 1] == rest[|rest| - 1];
    forall i | 0 <= i < |cs| - 1
      ensures v(cs[i].ancestors, cs[i].node).Ok?
    {
      if i >= |first| {
        assert cs[i] == rest[i - |first|];
      }
    }
  }

  // ---- what each visit saw ----

  /** Two trees with the same shape: the same number of children at every
      position. */
  predicate SameShape(a: Node, b: Node)
    decreases a
  {
    |a.children| == |b.children| && forall i :: 0 <= i < |a.children| ==> SameShape(a.children[i], b.children[i])
  }

  lemma {:induction false} SameShapeReflexive(n: Node)
    ensures SameShape(n, n)
    decreases n
  {
    forall i | 0 <= i < |n.children|
      ensures SameShape(n.children[i], n.children[i])
    {
      SameShapeReflexive(n.children[i]);
    }
  }

  lemma {:induction false} SameShapeTransitive(a: Node, b: Node, c: Node)
    requires SameShape(a, b) && SameShape(b, c)
    ensures SameShape(a, c)
    decreases a
  {
    forall i | 0 <= i < |a.children|
      ensures SameShape(a.children[i], c.children[i])
    {
      SameShapeTransitive(a.children[i], b.children[i], c.children[i]);
    }
  }

  /** A traversal keeps the tree's shape. */
  lemma {:induction false} TraverseKeepsShape(v: Visitor, scope: seq<Attrs>, n: Node)
    requires Traverse(v, scope, n).Ok?
    ensures SameShape(n, Traverse(v, scope, n).value)
    decreases n
  {
    var r := Traverse(v, scope, n).value;
    var a := v(scope, n).value;
    forall i | 0 <= i < |n.children|
      ensures SameShape(n.children[i], r.children[i])
    {
      TraverseKeepsShape(v, scope + [a], n.children[i]);
    }
  }

  lemma {:induction false} SameShapeSize(a: Node, b: Node)
    requires SameShape(a, b)
    ensures |PreOrder(a)| == |PreOrder(b)|
    decreases a
  {
    SameShapeSizeAll(a.children, b.children);
  }

  lemma {:induction false} SameShapeSizeAll(xs: seq<Node>, ys: seq<Node>)
    requires |xs| == |ys| && forall i :: 0 <= i < |xs| ==> SameShape(xs[i], ys[i])
    ensures |PreOrderAll(xs)| == |PreOrderAll(ys)|
    decreases xs
  {
    if |xs| > 0 {
      SameShapeSize(xs[0], ys[0]);
      assert forall i :: 1 <= i < |xs| ==> xs[i] == xs[1..][i - 1] && ys[i] == ys[1..][i - 1];
      SameShapeSizeAll(xs[1..], ys[1..]);
    }
  }

  /** At every position, the traversed tree holds what the visit returned
      for the original node there, given the updated attributes of the
      nodes above it: a child is visited after its parent and sees the
      parent's new attributes. */
  lemma {:induction false} VisitSeesUpdatedAncestors(v: Visitor, scope: seq<Attrs>, n: Node, p: seq<nat>)
    requires Traverse(v, scope, n).Ok? && ValidPath(n, p)
    ensures var r := Traverse(v, scope, n).value;
      && ValidPath(r, p)
      && v(scope + AncestorsOf(r, p), Subtree(n, p)) == Ok(Subtree(r, p).attrs)
    decreases |p|
  {
    var r := Traverse(v, scope, n).value;
    if |p| > 0 {
      var a := v(scope, n).value;
      var i := p[0];
      assert Traverse(v, scope + [a], n.children[i]) == Ok(r.children[i]);
      VisitSeesUpdatedAncestors(v, scope + [a], n.children[i], p[1..]);
      assert scope + AncestorsOf(r, p) == (scope + [a]) + AncestorsOf(r.children[i], p[1..]);
    } else {
      assert scope + AncestorsOf(r, p) == scope;
    }
  }

  /** A visitor that never drops `key` from a map that has it. */
  ghost predicate KeepsKey(v: Visitor, key: string)
  {
    forall s: seq<Attrs>, n: Node :: key in n.attrs && v(s, n).Ok? ==> key in v(s, n).value
  }

  /** A traversal by such a visitor leaves `key` defined on every node
      that had it. */
  lemma {:induction false} TraverseKeepsKey(v: Visitor, key: string, scope: seq<Attrs>, n: Node)
    requires KeepsKey(v, key) && AllDefine(n, key) && Traverse(v, scope, n).Ok?
    ensures AllDefine(Traverse(v, scope, n).value, key)
    decreases n
  {
    var r := Traverse(v, scope, n).value;
    var a := v(scope, n).value;
    forall i | 0 <= i < |n.children|
      ensures AllDefine(r.children[i], key)
    {
      TraverseKeepsKey(v, key, scope + [a], n.children[i]);
    }
  }

  // ---- the composite ----

  /** `CompositeNodeVisitor.traverse`: each visitor's whole traversal, in
      list order, each on the tree the previous one left. However many
      passes run, the tree keeps its shape. */
  function Composite(vs: seq<Visitor>, scope: seq<Attrs>, n: Node): (r: Result<Node, Error>)
    ensures r.Ok? ==> SameShape(n, r.value)
    decreases |vs|
  {
    if |vs| == 0 then
      SameShapeReflexive(n);
      Ok(n)
    else
      var m :- Traverse(vs[0], scope, n);
      TraverseKeepsShape(vs[0], scope, n);
      var r := Composite(vs[1..], scope, m);
      if r.Ok? then
        SameShapeTransitive(n, m, r.value);
        r
      else r
  }

  /** A composite of visitors that each keep `key` leaves it defined on
      every node that had it. */
  lemma {:induction false} CompositeKeepsKey(vs: seq<Visitor>, key: string, scope: seq<Attrs>, n: Node)
    requires forall i :: 0 <= i < |vs| ==> KeepsKey(vs[i], key)
    requires AllDefine(n, key) && Composite(vs, scope, n).Ok?
    ensures AllDefine(Composite(vs, scope, n).value, key)
    decreases |vs|
  {
    if |vs| > 0 {
      var m := Traverse(vs[0], scope, n).value;
      TraverseKeepsKey(vs[0], key, scope, n);
      assert forall i :: 1 <= i < |vs| ==> vs[1..][i - 1] == vs[i];
      CompositeKeepsKey(vs[1..], key, scope, m);
    }
  }

  /** A visitor that never fails with `err` on a node defining `key`. */
  ghost predicate SparesKey(v: Visitor, key: string, err: Error)
  {
    forall s: seq<Attrs>, n: Node :: key in n.attrs ==> v(s, n) != Err(err)
  }

  /** A traversal by such a visitor over a tree whose every node defines
      `key` never fails with `err`. */
  lemma {:induction false} TraverseSparesKey(v: Visitor, key: string, err: Error, scope: seq<Attrs>, n: Node)
    requires SparesKey(v, key, err) && AllDefine(n, key)
    ensures Traverse(v, scope, n) != Err(err)
    decreases n
  {
    match v(scope, n)
    case Err(_) =>
    case Ok(a) =>
      forall i | 0 <= i < |n.children|
        ensures Traverse(v, scope + [a], n.children[i]) != Err(err)
      {
        TraverseSparesKey(v, key, err, scope + [a], n.children[i]);
      }
  }

  /** The same for a composite of visitors that also keep `key`. */
  lemma {:induction false} CompositeSparesKey(vs: seq<Visitor>, key: string, err: Error, scope: seq<Attrs>, n: Node)
    requires forall i :: 0 <= i < |vs| ==> KeepsKey(vs[i], key) && SparesKey(vs[i], key, err)
    requires AllDefine(n, key)
    ensures Composite(vs, scope, n) != Err(err)
    decreases |vs|
  {
    if |vs| > 0 {
      TraverseSparesKey(vs[0], key, err, scope, n);
      var t := Traverse(vs[0], scope, n);
      if t.Ok? {
        TraverseKeepsKey(vs[0], key, scope, n);
        assert forall i :: 1 <= i < |vs| ==> vs[1..][i - 1] == vs[i];
        CompositeSparesKey(vs[1..], key, err, scope, t.value);
      }
    }
  }

  /** The calls of `visit` the composite makes, in order. */
  function CompositeCalls(vs: seq<Visitor>, scope: seq<Attrs>, n: Node): seq<Call>
    decreases |vs|
  {
    if |vs| == 0 then []
    else
      Calls(vs[0], scope, n) +
      match Traverse(vs[0], scope, n)
      case Err(_) => []
      case Ok(m) => CompositeCalls(vs[1..], scope, m)
  }

  /** Running a list of visitors is running its first part, then its
      second part on the tree the first part left. */
  lemma {:induction false} CompositeSplit(vs1: seq<Visitor>, vs2: seq<Visitor>, scope: seq<Attrs>, n: Node)
    ensures Composite(vs1 + vs2, scope, n) ==
      match Composite(vs1, scope, n)
      case Err(e) => Err(e)
      case Ok(m) => Composite(vs2, scope, m)
    decreases |vs1|
  {
    if |vs1| == 0 {
      assert vs1 + vs2 == vs2;
    } else {
      assert (vs1 + vs2)[1..] == vs1[1..] + vs2;
      match Traverse(vs1[0], scope, n)
      case Err(e) =>
      case Ok(m) => CompositeSplit(vs1[1..], vs2, scope, m);
    }
  }

  /** In a successful composite run, visitor i makes calls
      i*S .. (i+1)*S - 1 (S the number of nodes): its whole traversal, on
      the tree visitors 0 .. i-1 left, comes after theirs and before the
      next one's. */
  lemma {:induction false} PassesRunInOrder(vs: seq<Visitor>, scope: seq<Attrs>, n: Node, i: nat)
    requires Composite(vs, scope, n).Ok? && i < |vs|
    ensures Composite(vs[..i], scope, n).Ok?
    ensures var size := |PreOrder(n)|;
      && |CompositeCalls(vs, scope, n)| == |vs| * size
      && CompositeCalls(vs, scope, n)[i * size .. (i + 1) * size] == Calls(vs[i], scope, Composite(vs[..i], scope, n).value)
    decreases |vs|
  {
    var size := |PreOrder(n)|;
    var m := FirstPass(vs, scope, n);
    var first := Calls(vs[0], scope, n);
    var rest := CompositeCalls(vs[1..], scope, m);
    RestLength(vs, scope, n);
    if i == 0 {
      assert vs[..0] == [];
      assert (first + rest)[0 .. size] == first;
    } else {
      PassesRunInOrder(vs[1..], scope, m, i - 1);
      assert vs[1..][..i - 1] == vs[..i][1..];
      assert vs[1..][i - 1] == vs[i];
      assert Composite(vs[..i], scope, n) == Composite(vs[1..][..i - 1], scope, m);
      SliceShift(first, rest, size, i, |vs| - 1);
    }
  }

  /** The first pass of a successful composite run: its calls are the
      first S calls, and the tree it leaves has the same size. */
  lemma FirstPass(vs: seq<Visitor>, scope: seq<Attrs>, n: Node) returns (m: Node)
    requires Composite(vs, scope, n).Ok? && |vs| > 0
    ensures Traverse(vs[0], scope, n) == Ok(m)
    ensures Composite(vs[1..], scope, m).Ok?
    ensures |Calls(vs[0], scope, n)| == |PreOrder(n)| == |PreOrder(m)|
    ensures CompositeCalls(vs, scope, n) == Calls(vs[0], scope, n) + CompositeCalls(vs[1..], scope, m)
  {
    m := Traverse(vs[0], scope, n).value;
    VisitsInPreOrder(vs[0], scope, n);
    TraverseKeepsShape(vs[0], scope, n);
    SameShapeSize(n, m);
  }

  lemma SliceShift<T>(first: seq<T>, rest: seq<T>, size: nat, i: nat, k: nat)
    requires |first| == size && |rest| == k * size && 1 <= i <= k
    ensures (i - 1) * size <= i * size <= |rest|
    ensures (first + rest)[i * size .. (i + 1) * size] == rest[(i - 1) * size .. i * size]
  {
    assert i * size == size + (i - 1) * size;
    assert (i + 1) * size == size + i * size;
    MulMonotone(i, k, size);
  }

  lemma MulMonotone(i: nat, k: nat, size: nat)
    requires i <= k
    ensures i * size <= k * size
  {
  }

  /** A successful composite run makes |vs| * S calls. */
  lemma {:induction false} RestLength(vs: seq<Visitor>, scope: seq<Attrs>, n: Node)
    requires Composite(vs, scope, n).Ok?
    ensures |CompositeCalls(vs, scope, n)| == |vs| * |PreOrder(n)|
    decreases |vs|
  {
    if |vs| > 0 {
      var m := FirstPass(vs, scope, n);
      RestLength(vs[1..], scope, m);
      assert |vs| * |PreOrder(n)| == |PreOrder(n)| + (|vs| - 1) * |PreOrder(n)|;
    }
  }
}
