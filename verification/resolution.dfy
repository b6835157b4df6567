/** The two attribute-resolution visitors: one re-renders every string
    attribute as an inline template against the node, the other merges
    the mappings of the node's per-tag attribute file. The template
    engine and the YAML parser are parameters. */
module Resolution {
  import opened Wrappers
  import opened Tree
  import opened Visitors
  import opened SearchPath

  /** `render_from_string`: an inline template rendered against a context
      holding the node; a failure carries the engine's message. */
  type StringRenderer = (Ctx, string) -> Result<string, string>

  /** The iteration order of a node's attribute dict. Python iterates in
      insertion order, which a map does not record, so the order is a
      function of the map's contents alone. */
  type KeyOrder = Attrs -> seq<string>

  /** `keys` lists every key of `attrs` exactly once. */
  predicate Enumerates(keys: seq<string>, attrs: Attrs)
  {
    && (forall i, j :: 0 <= i < j < |keys| ==> keys[i] != keys[j])
    && (forall k :: k in attrs ==> k in keys)
    && (forall i :: 0 <= i < |keys| ==> keys[i] in attrs)
  }

  // ---- rendering attribute values ----

  /** The loop of `NodeAttributesRenderereVisitor.visit`: in order, each
      string attribute is rendered against the node as it stands and
      stored back at once, so later keys see earlier results. */
  function RenderKeys(render: StringRenderer, ancestors: seq<Attrs>, attrs: Attrs, children: seq<Node>, keys: seq<string>): (r: Result<Attrs, Error>)
    ensures r.Ok? ==> r.value.Keys == attrs.Keys
    ensures r.Ok? ==> forall k :: k in attrs && (!attrs[k].Str? || k !in keys) ==> r.value[k] == attrs[k]
    ensures r.Ok? ==> forall k :: k in attrs && attrs[k].Str? ==> r.value[k].Str?
    ensures r.Err? ==> r.error.TemplateFailed?
    decreases |keys|
  {
    if |keys| == 0 then Ok(attrs)
    else
      var k := keys[0];
      if k in attrs && attrs[k].Str? then
        match render(Ctx(ancestors, Node(attrs, children)), attrs[k].s)
        case Err(m) => Err(TemplateFailed(m))
        case Ok(t) => RenderKeys(render, ancestors, attrs[k := Str(t)], children, keys[1..])
      else RenderKeys(render, ancestors, attrs, children, keys[1..])
  }

  /** Each string attribute ends up as the rendering of its original text
      against the node whose earlier keys (in iteration order) are already
      rendered and whose later keys are not. */
  lemma {:induction false} RenderKeysInOrder(render: StringRenderer, ancestors: seq<Attrs>, attrs: Attrs, children: seq<Node>, keys: seq<string>, i: nat)
    requires forall a, b :: 0 <= a < b < |keys| ==> keys[a] != keys[b]
    requires RenderKeys(render, ancestors, attrs, children, keys).Ok?
    requires i < |keys| && keys[i] in attrs && attrs[keys[i]].Str?
    ensures RenderKeys(render, ancestors, attrs, children, keys[..i]).Ok?
    ensures var before := RenderKeys(render, ancestors, attrs, children, keys[..i]).value;
      && keys[i] in before && before[keys[i]] == attrs[keys[i]]
      && render(Ctx(ancestors, Node(before, children)), attrs[keys[i]].s)
         == Ok(RenderKeys(render, ancestors, attrs, children, keys).value[keys[i]].s)
    decreases |keys|
  {
    var k := keys[0];
    var r := RenderKeys(render, ancestors, attrs, children, keys);
    if i == 0 {
      assert keys[..0] == [];
      var t := render(Ctx(ancestors, Node(attrs, children)), attrs[k].s).value;
      assert k !in keys[1..];
      assert r == RenderKeys(render, ancestors, attrs[k := Str(t)], children, keys[1..]);
    } else {
      var next := if k in attrs && attrs[k].Str? then attrs[k := Str(render(Ctx(ancestors, Node(attrs, children)), attrs[k].s).value)] else attrs;
      assert r == RenderKeys(render, ancestors, next, children, keys[1..]);
      assert keys[1..][i - 1] == keys[i];
      assert keys[i] != k;
      RenderKeysInOrder(render, ancestors, next, children, keys[1..], i - 1);
      assert keys[..i][0] == k && keys[..i][1..] == keys[1..][..i - 1];
      assert RenderKeys(render, ancestors, attrs, children, keys[..i])
          == RenderKeys(render, ancestors, next, children, keys[1..][..i - 1]);
    }
  }

  /** The visitor: the node's attributes rendered in dict order. A visit
      keeps the node's key set, leaves every non-string value as it was,
      and fails only when the engine does. */
  function AttributeRenderer(render: StringRenderer, order: KeyOrder): (v: Visitor)
    ensures forall s: seq<Attrs>, n: Node :: v(s, n).Ok? ==> v(s, n).value.Keys == n.attrs.Keys
    ensures forall s: seq<Attrs>, n: Node, k :: v(s, n).Ok? && k in n.attrs && !n.attrs[k].Str? ==> v(s, n).value[k] == n.attrs[k]
    ensures forall s: seq<Attrs>, n: Node :: v(s, n).Err? ==> RenderKeys(render, s, n.attrs, n.children, order(n.attrs)).Err? && v(s, n).error.TemplateFailed?
  {
    (ancestors: seq<Attrs>, n: Node) => RenderKeys(render, ancestors, n.attrs, n.children, order(n.attrs))
  }

  /** One visit keeps the key set, leaves every non-string value as it
      was and replaces each string value by its rendering against the node
      with the keys before it already rendered. */
  lemma RenderedVisit(render: StringRenderer, order: KeyOrder, ancestors: seq<Attrs>, n: Node, i: nat)
    requires Enumerates(order(n.attrs), n.attrs)
    requires AttributeRenderer(render, order)(ancestors, n).Ok?
    requires i < |order(n.attrs)|
    ensures var r := AttributeRenderer(render, order)(ancestors, n).value;
      var k := order(n.attrs)[i];
      && r.Keys == n.attrs.Keys
      && (!n.attrs[k].Str? ==> r[k] == n.attrs[k])
      && (n.attrs[k].Str? ==>
            var before := RenderKeys(render, ancestors, n.attrs, n.children, order(n.attrs)[..i]);
            && before.Ok?
            && render(Ctx(ancestors, Node(before.value, n.children)), n.attrs[k].s) == Ok(r[k].s))
  {
    var keys := order(n.attrs);
    if n.attrs[keys[i]].Str? {
      RenderKeysInOrder(render, ancestors, n.attrs, n.children, keys, i);
    }
  }

  /** The renderer never removes an attribute. */
  lemma RendererKeepsKeys(render: StringRenderer, order: KeyOrder, key: string)
    ensures KeepsKey(AttributeRenderer(render, order), key)
  {
    var v := AttributeRenderer(render, order);
    forall s: seq<Attrs>, n: Node | key in n.attrs && v(s, n).Ok?
      ensures key in v(s, n).value
    {
      assert v(s, n) == RenderKeys(render, s, n.attrs, n.children, order(n.attrs));
    }
  }

  // ---- per-tag attribute files ----

  /** What parsing a rendered attribute file gives: nothing (an empty or
      false document), a list of mappings, or content the merge loop
      cannot use (a parse error, or a value that is not a list of
      mappings). */
  datatype YamlDoc = Empty | Mappings(ms: seq<Attrs>) | Malformed(message: string)

  type YamlParser = string -> YamlDoc

  /** `node.attributes.update(m)` for each mapping in list order. */
  function Merge(attrs: Attrs, ms: seq<Attrs>): (r: Attrs)
    ensures forall k :: k in r <==> k in attrs || exists i :: 0 <= i < |ms| && k in ms[i]
    ensures forall k, i :: 0 <= i < |ms| && k in ms[i] && (forall j :: i < j < |ms| ==> k !in ms[j]) ==> r[k] == ms[i][k]
    ensures forall k :: k in attrs && (forall i :: 0 <= i < |ms| ==> k !in ms[i]) ==> r[k] == attrs[k]
    decreases |ms|
  {
    if |ms| == 0 then attrs
    else
      var r := Merge(attrs + ms[0], ms[1..]);
      assert forall i :: 1 <= i < |ms| ==> ms[i] == ms[1..][i - 1];
      r
  }

  /** `YamlAttributeVisitor.visit`. The first directory holding
      `{tag}.yaml` is the only one read; its text is rendered against the
      node, parsed, and its mappings merged. No such file, or an empty
      document, leaves the node as it is. With no directories the node's
      tag is never read. */
  function YamlVisit(render: StringRenderer, parse: YamlParser, show: Value -> string,
                     dirs: seq<string>, files: map<(string, string), string>,
                     ancestors: seq<Attrs>, n: Node): (r: Result<Attrs, Error>)
    ensures |dirs| == 0 ==> r == Ok(n.attrs)
    ensures r.Ok? ==> n.attrs.Keys <= r.value.Keys
    ensures r.Err? ==> r.error.AttributeNotFound? || r.error.TemplateFailed? || r.error.AttributeFileMalformed?
  {
    if |dirs| == 0 then Ok(n.attrs)
    else
      var tag :- LookupIn(Ctx(ancestors, n), "tag");
      var name := Format(show, tag) + ".yaml";
      match FirstDir(dirs, name, files)
      case None => Ok(n.attrs)
      case Some(i) =>
        match render(Ctx(ancestors, n), files[(dirs[i], name)])
        case Err(m) => Err(TemplateFailed(m))
        case Ok(text) =>
          match parse(text)
          case Empty => Ok(n.attrs)
          case Mappings(ms) => Ok(Merge(n.attrs, ms))
          case Malformed(m) => Err(AttributeFileMalformed(m))
  }

  /** What the visit does, case by case: the node's tag names the file;
      a missing file leaves the node alone; otherwise only the first
      directory's file counts, and its mappings are applied in order over
      the node's attributes. */
  lemma YamlVisitCases(render: StringRenderer, parse: YamlParser, show: Value -> string,
                       dirs: seq<string>, files: map<(string, string), string>,
                       ancestors: seq<Attrs>, n: Node)
    requires |dirs| > 0
    ensures var r := YamlVisit(render, parse, show, dirs, files, ancestors, n);
      var tag := LookupIn(Ctx(ancestors, n), "tag");
      && (tag.Err? ==> r == Err(AttributeNotFound("tag")))
      && (tag.Ok? ==>
            var name := Format(show, tag.value) + ".yaml";
            && (Find(dirs, name, files).None? ==> r == Ok(n.attrs))
            && (forall i :: (0 <= i < |dirs| && (dirs[i], name) in files
                               && forall j :: 0 <= j < i ==> (dirs[j], name) !in files) ==>
                  r == YamlVisit(render, parse, show, [dirs[i]], files, ancestors, n))
            && (Find(dirs, name, files).Some? ==>
                  var text := render(Ctx(ancestors, n), Find(dirs, name, files).value);
                  && (text.Err? ==> r == Err(TemplateFailed(text.error)))
                  && (text.Ok? && parse(text.value).Empty? ==> r == Ok(n.attrs))
                  && (text.Ok? && parse(text.value).Mappings? ==> r == Ok(Merge(n.attrs, parse(text.value).ms)))))
  {
    var tag := LookupIn(Ctx(ancestors, n), "tag");
    if tag.Ok? {
      var name := Format(show, tag.value) + ".yaml";
      forall i | 0 <= i < |dirs| && (dirs[i], name) in files && (forall j :: 0 <= j < i ==> (dirs[j], name) !in files)
        ensures YamlVisit(render, parse, show, dirs, files, ancestors, n) == YamlVisit(render, parse, show, [dirs[i]], files, ancestors, n)
      {
        FirstDirectoryWins(dirs, name, files, i);
        assert FirstDir(dirs, name, files) == Some(i);
        assert FirstDir([dirs[i]], name, files) == Some(0);
      }
    }
  }

  /** The visitor over a fixed search path and file store. A visit never
      removes an attribute, fails for a missing tag only when the node
      and its ancestors lack one, and with no directories changes
      nothing. */
  function YamlAttributes(render: StringRenderer, parse: YamlParser, show: Value -> string,
                          dirs: seq<string>, files: map<(string, string), string>): (v: Visitor)
    ensures forall s: seq<Attrs>, n: Node :: v(s, n).Ok? ==> n.attrs.Keys <= v(s, n).value.Keys
    ensures forall s: seq<Attrs>, n: Node :: "tag" in n.attrs ==> v(s, n) != Err(AttributeNotFound("tag"))
    ensures |dirs| == 0 ==> forall s: seq<Attrs>, n: Node :: v(s, n) == Ok(n.attrs)
  {
    (ancestors: seq<Attrs>, n: Node) => YamlVisit(render, parse, show, dirs, files, ancestors, n)
  }

  lemma YamlKeepsKeys(render: StringRenderer, parse: YamlParser, show: Value -> string,
                      dirs: seq<string>, files: map<(string, string), string>, key: string)
    ensures KeepsKey(YamlAttributes(render, parse, show, dirs, files), key)
  {
    var v := YamlAttributes(render, parse, show, dirs, files);
    forall s: seq<Attrs>, n: Node | key in n.attrs && v(s, n).Ok?
      ensures key in v(s, n).value
    {
      assert v(s, n) == YamlVisit(render, parse, show, dirs, files, s, n);
    }
  }

  /** The renderer fails only when the engine does, never for a missing
      attribute. */
  lemma RendererSparesKeys(render: StringRenderer, order: KeyOrder, key: string)
    ensures SparesKey(AttributeRenderer(render, order), key, AttributeNotFound(key))
  {
    var v := AttributeRenderer(render, order);
    forall s: seq<Attrs>, n: Node | key in n.attrs
      ensures v(s, n) != Err(AttributeNotFound(key))
    {
      assert v(s, n) == RenderKeys(render, s, n.attrs, n.children, order(n.attrs));
    }
  }

  /** The attribute-file visitor reads only `tag`, so a node with a tag of
      its own never fails for want of it. */
  lemma YamlSparesTag(render: StringRenderer, parse: YamlParser, show: Value -> string,
                      dirs: seq<string>, files: map<(string, string), string>)
    ensures SparesKey(YamlAttributes(render, parse, show, dirs, files), "tag", AttributeNotFound("tag"))
  {
    var v := YamlAttributes(render, parse, show, dirs, files);
    forall s: seq<Attrs>, n: Node | "tag" in n.attrs
      ensures v(s, n) != Err(AttributeNotFound("tag"))
    {
      assert LookupIn(Ctx(s, n), "tag") == Ok(n.attrs["tag"]);
      assert v(s, n) == YamlVisit(render, parse, show, dirs, files, s, n);
    }
  }

  /** The attribute example: a child's description templated on
      `node.name` is rendered, with an engine that resolves that one
      expression through lookup, to the root's name. */
  lemma InheritedTemplateExample(render: StringRenderer, order: KeyOrder)
    requires forall c: Ctx :: (render(c, "{{ node.name }}'s child") ==
      match LookupIn(c, "name") case Ok(Str(s)) => Ok(s + "'s child") case _ => Err("undefined"))
    requires forall c: Ctx :: render(c, "root") == Ok("root")
    requires forall c: Ctx :: render(c, "1") == Ok("1")
    requires forall c: Ctx :: render(c, "2") == Ok("2")
    requires forall c: Ctx :: render(c, "child2") == Ok("child2")
    requires forall a: Attrs :: Enumerates(order(a), a)
    ensures var child1 := Node(map["description" := Str("{{ node.name }}'s child"), "value" := Str("2")], []);
      var child2 := Node(map["name" := Str("child2")], []);
      var root := Node(map["name" := Str("root"), "value" := Str("1")], [child1, child2]);
      var r := Traverse(AttributeRenderer(render, order), [], root);
      r.Ok? && r.value.children[0].attrs["description"] == Str("root's child")
  {
    var v := AttributeRenderer(render, order);
    var child1 := Node(map["description" := Str("{{ node.name }}'s child"), "value" := Str("2")], []);
    var child2 := Node(map["name" := Str("child2")], []);
    var root := Node(map["name" := Str("root"), "value" := Str("1")], [child1, child2]);
    var ra := ExampleRootVisit(render, order, root);
    var kids := ExampleChildren(render, order, ra, child1, child2);
    assert [] + [ra] == [ra];
    assert Traverse(v, [], root) == Ok(Node(ra, kids));
  }

  lemma ExampleChildren(render: StringRenderer, order: KeyOrder, ra: Attrs, child1: Node, child2: Node) returns (kids: seq<Node>)
    requires forall c: Ctx :: (render(c, "{{ node.name }}'s child") ==
      match LookupIn(c, "name") case Ok(Str(s)) => Ok(s + "'s child") case _ => Err("undefined"))
    requires forall c: Ctx :: render(c, "2") == Ok("2")
    requires forall c: Ctx :: render(c, "child2") == Ok("child2")
    requires forall a: Attrs :: Enumerates(order(a), a)
    requires ra == map["name" := Str("root"), "value" := Str("1")]
    requires child1 == Node(map["description" := Str("{{ node.name }}'s child"), "value" := Str("2")], [])
    requires child2 == Node(map["name" := Str("child2")], [])
    ensures TraverseAll(AttributeRenderer(render, order), [ra], [child1, child2]) == Ok(kids)
    ensures |kids| == 2 && "description" in kids[0].attrs && kids[0].attrs["description"] == Str("root's child")
  {
    var v := AttributeRenderer(render, order);
    var a1 := ExampleChildVisit(render, order, ra, child1);
    var a2 := ExampleLeafVisit(render, order, [ra], child2);
    assert Traverse(v, [ra], child1) == Ok(Node(a1, []));
    assert Traverse(v, [ra], child2) == Ok(Node(a2, []));
    var r := TraverseAll(v, [ra], [child1, child2]);
    assert r.Ok?;
    kids := r.value;
    assert kids[0] == Node(a1, []);
  }

  lemma ExampleRootVisit(render: StringRenderer, order: KeyOrder, root: Node) returns (ra: Attrs)
    requires forall c: Ctx :: render(c, "root") == Ok("root")
    requires forall c: Ctx :: render(c, "1") == Ok("1")
    requires Enumerates(order(root.attrs), root.attrs)
    requires root.attrs == map["name" := Str("root"), "value" := Str("1")]
    ensures AttributeRenderer(render, order)([], root) == Ok(ra)
    ensures ra == root.attrs
  {
    var keys := order(root.attrs);
    var r := RenderKeys(render, [], root.attrs, root.children, keys);
    UnchangedWhenFixed(render, [], root.attrs, root.children, keys);
    ra := root.attrs;
  }

  lemma ExampleLeafVisit(render: StringRenderer, order: KeyOrder, scope: seq<Attrs>, leaf: Node) returns (a: Attrs)
    requires forall c: Ctx :: render(c, "child2") == Ok("child2")
    requires Enumerates(order(leaf.attrs), leaf.attrs)
    requires leaf.attrs == map["name" := Str("child2")]
    ensures AttributeRenderer(render, order)(scope, leaf) == Ok(a)
  {
    UnchangedWhenFixed(render, scope, leaf.attrs, leaf.children, order(leaf.attrs));
    a := leaf.attrs;
  }

  lemma ExampleChildVisit(render: StringRenderer, order: KeyOrder, ra: Attrs, child: Node) returns (a: Attrs)
    requires forall c: Ctx :: (render(c, "{{ node.name }}'s child") ==
      match LookupIn(c, "name") case Ok(Str(s)) => Ok(s + "'s child") case _ => Err("undefined"))
    requires forall c: Ctx :: render(c, "2") == Ok("2")
    requires Enumerates(order(child.attrs), child.attrs)
    requires ra == map["name" := Str("root"), "value" := Str("1")]
    requires child.attrs == map["description" := Str("{{ node.name }}'s child"), "value" := Str("2")]
    ensures AttributeRenderer(render, order)([ra], child) == Ok(a)
    ensures "description" in a && a["description"] == Str("root's child")
  {
    var keys := order(child.attrs);
    var d, v := "description", "value";
    var tpl := "{{ node.name }}'s child";
    TwoKeyOrders(keys, child.attrs, d, v);
    var done := child.attrs[d := Str("root's child")];
    var two := child.attrs[v := Str("2")];
    assert two == child.attrs;
    assert done[v := Str("2")] == done;
    NameFromRoot(ra, child.attrs, child.children);
    NameFromRoot(ra, done, child.children);
    var r0 := render(Ctx([ra], Node(child.attrs, child.children)), tpl);
    assert "root" + "'s child" == "root's child";
    assert r0 == Ok("root's child");
    if keys == [d, v] {
      assert keys[1..] == [v];
      assert RenderKeys(render, [ra], done, child.children, [v][1..]) == Ok(done);
      assert RenderKeys(render, [ra], done, child.children, [v]) == Ok(done);
    } else {
      assert keys[1..] == [d];
      assert RenderKeys(render, [ra], done, child.children, [d][1..]) == Ok(done);
      assert RenderKeys(render, [ra], child.attrs, child.children, [d]) == Ok(done);
    }
    a := done;
  }

  /** With no `name` of its own, the node resolves `name` to the root's. */
  lemma NameFromRoot(ra: Attrs, m: Attrs, children: seq<Node>)
    requires ra == map["name" := Str("root"), "value" := Str("1")]
    requires "name" !in m
    ensures LookupIn(Ctx([ra], Node(m, children)), "name") == Ok(Str("root"))
  {
    assert [ra] + [m] == [ra, m];
    LookupNearest([ra, m], "name", 0);
  }

  /** A map with exactly two keys is enumerated in one of two orders. */
  lemma TwoKeyOrders(keys: seq<string>, attrs: Attrs, d: string, v: string)
    requires Enumerates(keys, attrs) && attrs.Keys == {d, v} && d != v
    ensures keys == [d, v] || keys == [v, d]
  {
    if |keys| >= 3 {
      AtMostTwo(keys[0], keys[1], keys[2], d, v);
      assert false;
    }
    assert d in keys && v in keys;
  }

  /** Three values drawn from a two-element set are not all distinct. */
  lemma AtMostTwo(x: string, y: string, z: string, d: string, v: string)
    requires x in {d, v} && y in {d, v} && z in {d, v}
    ensures x == y || y == z || x == z
  {
  }

  /** Rendering leaves a map alone when every string in it renders to
      itself. */
  lemma {:induction false} UnchangedWhenFixed(render: StringRenderer, ancestors: seq<Attrs>, attrs: Attrs, children: seq<Node>, keys: seq<string>)
    requires forall k :: k in attrs && attrs[k].Str? ==>
      forall c: Ctx :: render(c, attrs[k].s) == Ok(attrs[k].s)
    ensures RenderKeys(render, ancestors, attrs, children, keys) == Ok(attrs)
    decreases |keys|
  {
    if |keys| > 0 {
      var k := keys[0];
      if k in attrs && attrs[k].Str? {
        assert attrs[k := Str(attrs[k].s)] == attrs;
      }
      UnchangedWhenFixed(render, ancestors, attrs, children, keys[1..]);
    }
  }
}
