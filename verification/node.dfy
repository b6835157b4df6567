/** The attributed tree: a node holds an attribute map and an ordered list
    of children, and an attribute it does not define is looked up in its
    ancestors. The parent back-pointer of coral's `Node` becomes an explicit
    scope: the attribute maps from the root down to the node itself. */
module Tree {
  import opened Wrappers

  /** An attribute value: what JSON, XML, YAML or a template can put in an
      attribute map (numbers are integers only). */
  datatype Value =
    | Null
    | Bool(b: bool)
    | Int(i: int)
    | Str(s: string)
    | List(items: seq<Value>)
    | Dict(fields: map<string, Value>)

  type Attrs = map<string, Value>

  datatype Node = Node(attrs: Attrs, children: seq<Node>)

  /** The failures the pipeline raises instead of returning. */
  datatype Error =
    | AttributeNotFound(key: string)   // no node up to the root defines the key
    | DuplicateChildren                // a `children` attribute beside the `children=` keyword
    | SelfKeyword                      // a `self` attribute, which the constructor binds to its own first parameter
    | ChildrenNotIterable              // a JSON `children` value that cannot be iterated
    | ChildNotObject                   // a JSON child that builds no node
    | TemplateFailed(message: string)  // the template engine raised
    | AttributeFileMalformed(message: string)  // an attribute file whose content is not a list of mappings
    | TemplateNotFound(name: string)   // neither an inline nor a file template for a tag
    | NoTemplateLoader                 // a file template asked for with an empty search path
    | UnhashableTag                    // a list or mapping `tag` used as a template-table key
    | BadOutputPath                    // a `coral-to` value that is not a path

  /** What a template or an attribute file is rendered against: the node
      itself, with its ancestors' attributes reachable through lookup. */
  datatype Ctx = Ctx(ancestors: seq<Attrs>, node: Node)

  /** Python's `str()` of a value as it appears in an f-string or a
      template: strings stand for themselves, every other value is shown
      by the given formatter. */
  function Format(show: Value -> string, v: Value): string
  {
    if v.Str? then v.s else show(v)
  }

  /** `i` is the nearest entry of the scope (counting from the node, which
      is last) whose map defines `key`. */
  ghost predicate Nearest(scope: seq<Attrs>, key: string, i: int)
  {
    0 <= i < |scope| && key in scope[i] && forall j :: i < j < |scope| ==> key !in scope[j]
  }

  /** Attribute lookup: the node's own value, otherwise the parent's
      lookup, failing at the root. `scope` lists the ancestors' maps from
      the root down, the node's own map last. */
  function Lookup(scope: seq<Attrs>, key: string): (r: Result<Value, Error>)
    ensures r.Ok? <==> exists i :: 0 <= i < |scope| && key in scope[i]
    ensures r.Ok? ==> exists i :: Nearest(scope, key, i) && r.value == scope[i][key]
    ensures r.Err? ==> r.error == AttributeNotFound(key)
    decreases |scope|
  {
    if |scope| == 0 then Err(AttributeNotFound(key))
    else if key in scope[|scope| - 1] then
      assert Nearest(scope, key, |scope| - 1);
      Ok(scope[|scope| - 1][key])
    else
      var parent := scope[..|scope| - 1];
      var r := Lookup(parent, key);
      assert r.Ok? ==> exists i :: Nearest(scope, key, i) && r.value == scope[i][key] by {
        if r.Ok? {
          var i :| Nearest(parent, key, i) && r.value == parent[i][key];
          assert parent[i] == scope[i];
          assert Nearest(scope, key, i);
        }
      }
      assert r.Ok? <==> exists i :: 0 <= i < |scope| && key in scope[i] by {
        if exists i :: 0 <= i < |scope| && key in scope[i] {
          var i :| 0 <= i < |scope| && key in scope[i];
          assert i < |parent| && parent[i] == scope[i];
        }
        if r.Ok? {
          var i :| 0 <= i < |parent| && key in parent[i];
          assert parent[i] == scope[i];
        }
      }
      r
  }

  /** Lookup against a node's context: the node's own attribute when it
      has one, otherwise whatever its parent resolves. */
  function LookupIn(c: Ctx, key: string): (r: Result<Value, Error>)
    ensures key in c.node.attrs ==> r == Ok(c.node.attrs[key])
    ensures key !in c.node.attrs ==> r == Lookup(c.ancestors, key)
  {
    assert (c.ancestors + [c.node.attrs])[..|c.ancestors|] == c.ancestors;
    Lookup(c.ancestors + [c.node.attrs], key)
  }

  /** The same lookup as an explicit walk up the ancestor chain. */
  method LookupWalk(scope: seq<Attrs>, key: string) returns (r: Result<Value, Error>)
    ensures r == Lookup(scope, key)
  {
    var i := |scope|;
    while i > 0 && key !in scope[i - 1]
      invariant 0 <= i <= |scope|
      invariant forall j :: i <= j < |scope| ==> key !in scope[j]
    {
      i := i - 1;
    }
    if i == 0 {
      r := Err(AttributeNotFound(key));
    } else {
      LookupNearest(scope, key, i - 1);
      r := Ok(scope[i - 1][key]);
    }
  }

  /** The nearest definition wins, whatever further ancestors define: an
      ancestor's value is shadowed by every descendant that redefines it. */
  lemma {:induction false} LookupNearest(scope: seq<Attrs>, key: string, i: int)
    requires Nearest(scope, key, i)
    ensures Lookup(scope, key) == Ok(scope[i][key])
    decreases |scope|
  {
    if i < |scope| - 1 {
      assert scope[..|scope| - 1][i] == scope[i];
      LookupNearest(scope[..|scope| - 1], key, i);
    }
  }

  /** The call `Node(**attributes, children=children)`. A `children` entry
      among the keyword attributes clashes with the explicit keyword where
      the call is made; a `self` entry then clashes with the constructor's
      own first parameter. Otherwise the node keeps the attributes and
      adopts the children in order. */
  function Construct(attributes: Attrs, children: seq<Node>): (r: Result<Node, Error>)
    ensures r.Ok? <==> "children" !in attributes && "self" !in attributes
    ensures r.Err? ==> r.error == (if "children" in attributes then DuplicateChildren else SelfKeyword)
  {
    if "children" in attributes then Err(DuplicateChildren)
    else if "self" in attributes then Err(SelfKeyword)
    else Ok(Node(attributes, children))
  }

  /** Adopting children: the new node, as a root, resolves exactly its own
      attributes (its parent starts out as None, so anything else fails),
      never holds `children` or `self` as an attribute, keeps the children in
      order, and each child resolves a key it lacks through the new node. */
  lemma ConstructAdopts(attributes: Attrs, children: seq<Node>, key: string)
    requires Construct(attributes, children).Ok?
    ensures var n := Construct(attributes, children).value;
      && n.children == children
      && "children" !in n.attrs && "self" !in n.attrs
      && (key in attributes ==> Lookup([n.attrs], key) == Ok(attributes[key]))
      && (key !in attributes ==> Lookup([n.attrs], key) == Err(AttributeNotFound(key)))
      && forall i :: 0 <= i < |children| && key !in children[i].attrs ==>
           Lookup([n.attrs, children[i].attrs], key) == Lookup([n.attrs], key)
  {
    var n := Construct(attributes, children).value;
    forall i | 0 <= i < |children| && key !in children[i].attrs
      ensures Lookup([n.attrs, children[i].attrs], key) == Lookup([n.attrs], key)
    {
      assert [n.attrs, children[i].attrs][..1] == [n.attrs];
    }
  }

  /** Every node of the tree defines `key` in its own attribute map. */
  predicate AllDefine(n: Node, key: string)
    decreases n
  {
    key in n.attrs && forall i :: 0 <= i < |n.children| ==> AllDefine(n.children[i], key)
  }

  // ---- positions in a tree ----

  /** `p` names a node of the tree by child indices from the root. */
  predicate ValidPath(n: Node, p: seq<nat>)
    decreases |p|
  {
    |p| == 0 || (p[0] < |n.children| && ValidPath(n.children[p[0]], p[1..]))
  }

  function Subtree(n: Node, p: seq<nat>): Node
    requires ValidPath(n, p)
    decreases |p|
  {
    if |p| == 0 then n else Subtree(n.children[p[0]], p[1..])
  }

  /** The attribute maps of the nodes strictly above position `p`, root first. */
  function AncestorsOf(n: Node, p: seq<nat>): (r: seq<Attrs>)
    requires ValidPath(n, p)
    ensures |r| == |p|
    decreases |p|
  {
    if |p| == 0 then [] else [n.attrs] + AncestorsOf(n.children[p[0]], p[1..])
  }

  /** `node.key` read on the node at position `p` of a tree rooted at `root`. */
  function GetAt(root: Node, p: seq<nat>, key: string): Result<Value, Error>
    requires ValidPath(root, p)
  {
    Lookup(AncestorsOf(root, p) + [Subtree(root, p).attrs], key)
  }

  lemma {:induction false} PathExtend(n: Node, p: seq<nat>, i: nat)
    requires ValidPath(n, p) && i < |Subtree(n, p).children|
    ensures ValidPath(n, p + [i])
    ensures Subtree(n, p + [i]) == Subtree(n, p).children[i]
    ensures AncestorsOf(n, p + [i]) == AncestorsOf(n, p) + [Subtree(n, p).attrs]
    decreases |p|
  {
    if |p| > 0 {
      assert (p + [i])[1..] == p[1..] + [i];
      PathExtend(n.children[p[0]], p[1..], i);
    }
  }

  /** The parent pointer of every node is the node it was adopted by: at
      any position, a key the child defines is its own, and any other key
      is whatever its parent resolves it to. */
  lemma ChildDelegatesToParent(root: Node, p: seq<nat>, i: nat, key: string)
    requires ValidPath(root, p) && i < |Subtree(root, p).children|
    ensures ValidPath(root, p + [i])
    ensures var c := Subtree(root, p).children[i];
      GetAt(root, p + [i], key) == if key in c.attrs then Ok(c.attrs[key]) else GetAt(root, p, key)
  {
    PathExtend(root, p, i);
    var s := AncestorsOf(root, p) + [Subtree(root, p).attrs];
    var c := Subtree(root, p).children[i];
    assert (s + [c.attrs])[..|s|] == s;
  }

  /** The inheritance example: `child1` resolves its own `name`, the empty
      second child resolves the root's. */
  lemma InheritedNameExample()
    ensures var child1 := Construct(map["name" := Str("child1"), "value" := Int(2)], []);
      var child2 := Construct(map[], []);
      && child1.Ok? && child2.Ok?
      && var root := Construct(map["name" := Str("root"), "value" := Int(1)], [child1.value, child2.value]);
      && root.Ok?
      && GetAt(root.value, [], "name") == Ok(Str("root"))
      && GetAt(root.value, [0], "name") == Ok(Str("child1"))
      && GetAt(root.value, [1], "name") == Ok(Str("root"))
  {
    var child1 := Construct(map["name" := Str("child1"), "value" := Int(2)], []).value;
    var child2 := Construct(map[], []).value;
    var root := Construct(map["name" := Str("root"), "value" := Int(1)], [child1, child2]).value;
    ChildDelegatesToParent(root, [], 1, "name");
  }
}
