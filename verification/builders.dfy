/** The two tree builders: one maps an already-parsed JSON value, the
    other an already-parsed XML element, onto the attributed tree. */
module Builders {
  import opened Wrappers
  import opened Tree

  // ---- whitespace stripping (Python's str.strip() without arguments) ----

  /** The characters Python's `str.isspace()` accepts. */
  predicate IsSpace(c: char)
  {
    c in {'\t', '\n', '\U{0B}', '\U{0C}', '\r', '\U{1C}', '\U{1D}', '\U{1E}', '\U{1F}', ' ',
          '\U{85}', '\U{A0}', '\U{1680}', '\U{2000}', '\U{2001}', '\U{2002}', '\U{2003}',
          '\U{2004}', '\U{2005}', '\U{2006}', '\U{2007}', '\U{2008}', '\U{2009}', '\U{200A}',
          '\U{2028}', '\U{2029}', '\U{202F}', '\U{205F}', '\U{3000}'}
  }

  function TrimLeft(s: string): (r: string)
    ensures exists i :: 0 <= i <= |s| && r == s[i..] && forall k :: 0 <= k < i ==> IsSpace(s[k])
    ensures |r| > 0 ==> !IsSpace(r[0])
  {
    if |s| > 0 && IsSpace(s[0]) then
      var r := TrimLeft(s[1..]);
      assert forall i :: 0 <= i <= |s[1..]| ==> s[1..][i..] == s[i + 1..];
      r
    else
      assert s[0..] == s;
      s
  }

  function TrimRight(s: string): (r: string)
    ensures exists j :: 0 <= j <= |s| && r == s[..j] && forall k :: j <= k < |s| ==> IsSpace(s[k])
    ensures |r| > 0 ==> !IsSpace(r[|r| - 1])
  {
    if |s| > 0 && IsSpace(s[|s| - 1]) then
      var r := TrimRight(s[..|s| - 1]);
      TrimRightStep(s, s[..|s| - 1], r);
      r
    else
      assert s[..|s|] == s;
      s
  }

  lemma TrimRightStep(s: string, t: string, r: string)
    requires |s| > 0 && IsSpace(s[|s| - 1]) && t == s[..|s| - 1]
    requires exists j :: 0 <= j <= |t| && r == t[..j] && forall k :: j <= k < |t| ==> IsSpace(t[k])
    ensures exists j :: 0 <= j <= |s| && r == s[..j] && forall k :: j <= k < |s| ==> IsSpace(s[k])
  {
    var j :| 0 <= j <= |t| && r == t[..j] && forall k :: j <= k < |t| ==> IsSpace(t[k]);
    assert r == s[..j];
    forall k | j <= k < |s|
      ensures IsSpace(s[k])
    {
      if k < |t| {
        assert t[k] == s[k];
      }
    }
  }

  /** Leading and trailing whitespace removed, nothing else: the result is
      the slice of `s` between the first and the last non-space character. */
  function Strip(s: string): (r: string)
    ensures exists i, j :: (0 <= i <= j <= |s| && r == s[i..j]
      && (forall k :: 0 <= k < i ==> IsSpace(s[k]))
      && (forall k :: j <= k < |s| ==> IsSpace(s[k])))
    ensures |r| > 0 ==> !IsSpace(r[0]) && !IsSpace(r[|r| - 1])
  {
    var left := TrimLeft(s);
    var r := TrimRight(left);
    StripSlice(s, left, r);
    r
  }

  lemma StripSlice(s: string, left: string, r: string)
    requires exists i :: 0 <= i <= |s| && left == s[i..] && forall k :: 0 <= k < i ==> IsSpace(s[k])
    requires exists j :: 0 <= j <= |left| && r == left[..j] && forall k :: j <= k < |left| ==> IsSpace(left[k])
    ensures exists i, j :: (0 <= i <= j <= |s| && r == s[i..j]
      && (forall k :: 0 <= k < i ==> IsSpace(s[k]))
      && (forall k :: j <= k < |s| ==> IsSpace(s[k])))
  {
    var i :| 0 <= i <= |s| && left == s[i..] && forall k :: 0 <= k < i ==> IsSpace(s[k]);
    var j :| 0 <= j <= |left| && r == left[..j] && forall k :: j <= k < |left| ==> IsSpace(left[k]);
    assert r == s[i..i + j];
    forall k | i + j <= k < |s|
      ensures IsSpace(s[k])
    {
      assert s[k] == left[k - i];
    }
  }

  /** A string of whitespace only strips to "". */
  lemma StripAllSpace(s: string)
    requires forall k :: 0 <= k < |s| ==> IsSpace(s[k])
    ensures Strip(s) == ""
  {
  }

  // ---- XML ----

  /** A parsed XML element: tag, attributes, direct text (None when the
      element has none) and child elements in document order. */
  datatype Element = Element(tag: string, attrib: map<string, string>, text: Option<string>, children: seq<Element>)

  /** The element's text, stripped, or "" when it has none. */
  function ElementText(e: Element): string
  {
    match e.text
    case None => ""
    case Some(t) => if t == "" then "" else Strip(t)
  }

  /** The XML attributes with the two synthesised keys added on top. */
  function XmlAttributes(e: Element): (r: Attrs)
    ensures r.Keys == e.attrib.Keys + {"tag", "text"}
    ensures r["tag"] == Str(e.tag) && r["text"] == Str(ElementText(e))
    ensures forall k :: k in e.attrib && k != "tag" && k != "text" ==> r[k] == Str(e.attrib[k])
  {
    (map k | k in e.attrib :: Str(e.attrib[k]))["tag" := Str(e.tag)]["text" := Str(ElementText(e))]
  }

  /** No element of the tree carries an XML attribute named `k`. */
  predicate NoAttribute(e: Element, k: string)
    decreases e
  {
    k !in e.attrib && forall i :: 0 <= i < |e.children| ==> NoAttribute(e.children[i], k)
  }

  /** One node per element, the children built first. An XML attribute
      named `children` collides with the `children=` keyword of the node
      constructor, and one named `self` with the constructor's own first
      parameter; either fails the build. */
  function BuildXml(e: Element): (r: Result<Node, Error>)
    ensures r.Ok? <==> NoAttribute(e, "children") && NoAttribute(e, "self")
    ensures r.Err? ==> r.error == DuplicateChildren || r.error == SelfKeyword
    ensures r.Err? && NoAttribute(e, "self") ==> r.error == DuplicateChildren
    ensures r.Err? && NoAttribute(e, "children") ==> r.error == SelfKeyword
    ensures r.Ok? ==> r.value.attrs == XmlAttributes(e)
    ensures r.Ok? ==> (|r.value.children| == |e.children|
      && forall i :: 0 <= i < |e.children| ==> BuildXml(e.children[i]) == Ok(r.value.children[i]))
    ensures r.Ok? ==> AllDefine(r.value, "tag") && AllDefine(r.value, "text")
    decreases e
  {
    var kids :- BuildXmlList(e.children);
    Construct(XmlAttributes(e), kids)
  }

  /** The children, built left to right; the first failure wins. */
  function BuildXmlList(es: seq<Element>): (r: Result<seq<Node>, Error>)
    ensures r.Ok? <==> AllLack(es, "children") && AllLack(es, "self")
    ensures r.Err? ==> r.error == DuplicateChildren || r.error == SelfKeyword
    ensures r.Err? && AllLack(es, "self") ==> r.error == DuplicateChildren
    ensures r.Err? && AllLack(es, "children") ==> r.error == SelfKeyword
    ensures r.Ok? ==> |r.value| == |es| && forall i :: 0 <= i < |es| ==> BuildXml(es[i]) == Ok(r.value[i])
    decreases es
  {
    if |es| == 0 then Ok([])
    else
      AllLackSplit(es, "children");
      AllLackSplit(es, "self");
      var first :- BuildXml(es[0]);
      var rest :- BuildXmlList(es[1..]);
      assert forall i :: 1 <= i < |es| ==> es[i] == es[1..][i - 1];
      Ok([first] + rest)
  }

  /** No element of any of the trees carries an XML attribute named `k`. */
  predicate AllLack(es: seq<Element>, k: string)
  {
    forall i :: 0 <= i < |es| ==> NoAttribute(es[i], k)
  }

  lemma AllLackSplit(es: seq<Element>, k: string)
    requires |es| > 0
    ensures AllLack(es, k) <==> NoAttribute(es[0], k) && AllLack(es[1..], k)
  {
    assert forall i :: 1 <= i < |es| ==> es[i] == es[1..][i - 1];
  }

  // ---- JSON ----

  /** An iterable whose iteration is empty: a `children` value of this
      kind gives no children even though it is not a list. */
  predicate EmptyIterable(v: Value)
  {
    (v.Str? && |v.s| == 0) || (v.Dict? && |v.fields| == 0) || (v.List? && |v.items| == 0)
  }

  /** An object becomes a node; anything else becomes no node (None).
      The object's `children` are built first. A `children` value that
      cannot be iterated fails there. Otherwise the node constructor
      rejects a `self` key, and then the new parent fails to adopt an
      entry that built no node. */
  function BuildJson(data: Value): (r: Result<Option<Node>, Error>)
    ensures !data.Dict? ==> r == Ok(None)
    ensures data.Dict? && r.Ok? ==> r.value.Some? && r.value.value.attrs == data.fields - {"children"}
    ensures data.Dict? && "children" !in data.fields ==>
      r == (if "self" in data.fields then Err(SelfKeyword) else Ok(Some(Node(data.fields, []))))
    ensures data.Dict? && "children" in data.fields && data.fields["children"].List? ==>
      var items := data.fields["children"].items;
      && (r.Ok? <==> "self" !in data.fields && forall i :: 0 <= i < |items| ==> items[i].Dict? && BuildJson(items[i]).Ok?)
      && ("self" in data.fields && (forall i :: 0 <= i < |items| ==> BuildJson(items[i]).Ok?) ==> r == Err(SelfKeyword))
      && (r.Ok? ==> (|r.value.value.children| == |items|
            && forall i :: 0 <= i < |items| ==> BuildJson(items[i]) == Ok(Some(r.value.value.children[i]))))
    ensures data.Dict? && "children" in data.fields && !data.fields["children"].List? ==>
      var kids := data.fields["children"];
      && (r.Ok? <==> "self" !in data.fields && EmptyIterable(kids))
      && (r.Ok? ==> r.value.value.children == [])
      && (r.Err? ==> r.error == (if kids.Str? || kids.Dict? then (if "self" in data.fields then SelfKeyword else ChildNotObject)
                                 else ChildrenNotIterable))
    decreases data
  {
    match data
    case Dict(fields) =>
      if "children" !in fields then
        assert fields - {"children"} == fields;
        Adopt(fields, Ok([]))
      else
        (match fields["children"]
         case List(items) => Adopt(fields, BuildJsonList(items))
         // iterating a string yields strings and iterating an object yields
         // its keys: each builds no node
         case Str(s) => Adopt(fields, Ok(NoNodes(|s|)))
         case Dict(m) => Adopt(fields, Ok(NoNodes(|m|)))
         case _ => Err(ChildrenNotIterable))
    case _ => Ok(None)
  }

  /** What building `k` entries that are not objects gives. */
  function NoNodes(k: nat): (r: seq<Option<Node>>)
    ensures |r| == k && forall i :: 0 <= i < k ==> r[i] == None
  {
    seq(k, _ => None)
  }

  /** The children, built left to right (each Some node or None). */
  function BuildJsonList(items: seq<Value>): (r: Result<seq<Option<Node>>, Error>)
    ensures r.Ok? <==> forall i :: 0 <= i < |items| ==> BuildJson(items[i]).Ok?
    ensures r.Ok? ==> |r.value| == |items| && forall i :: 0 <= i < |items| ==> BuildJson(items[i]) == Ok(r.value[i])
    decreases items
  {
    if |items| == 0 then Ok([])
    else
      var first :- BuildJson(items[0]);
      var rest :- BuildJsonList(items[1..]);
      assert forall i :: 1 <= i < |items| ==> items[i] == items[1..][i - 1];
      Ok([first] + rest)
  }

  /** `Node(**attributes, children=children)` with the object's keys other
      than `children`. The keywords are bound before the constructor's
      body adopts any child, so a `self` key fails first; adopting an
      entry that built no node fails after it. */
  function Adopt(fields: map<string, Value>, built: Result<seq<Option<Node>>, Error>): (r: Result<Option<Node>, Error>)
    ensures built.Err? ==> r == Err(built.error)
    ensures built.Ok? ==> (r.Ok? <==> "self" !in fields && forall i :: 0 <= i < |built.value| ==> built.value[i].Some?)
    ensures built.Ok? && r.Err? ==> r.error == (if "self" in fields then SelfKeyword else ChildNotObject)
    ensures r.Ok? ==> (r.value.Some? && r.value.value.attrs == fields - {"children"}
      && |r.value.value.children| == |built.value|
      && forall i :: 0 <= i < |built.value| ==> built.value[i] == Some(r.value.value.children[i]))
  {
    var opts :- built;
    var attributes := fields - {"children"};
    if forall i :: 0 <= i < |opts| ==> opts[i].Some? then
      var n :- Construct(attributes, Unwrap(opts));
      Ok(Some(n))
    else if "self" in attributes then Err(SelfKeyword)
    else Err(ChildNotObject)
  }

  function Unwrap(opts: seq<Option<Node>>): (r: seq<Node>)
    requires forall i :: 0 <= i < |opts| ==> opts[i].Some?
    ensures |r| == |opts| && forall i :: 0 <= i < |opts| ==> opts[i] == Some(r[i])
  {
    if |opts| == 0 then [] else [opts[0].value] + Unwrap(opts[1..])
  }

  /** No node of the tree has a `children` or a `self` attribute, the two
      names the node constructor cannot take as attributes. */
  predicate NoReservedKey(n: Node)
    decreases n
  {
    "children" !in n.attrs && "self" !in n.attrs && forall i :: 0 <= i < |n.children| ==> NoReservedKey(n.children[i])
  }

  /** A node written back as a JSON object, children under `children`. */
  function NodeToJson(n: Node): Value
    decreases n
  {
    Dict(n.attrs["children" := List(seq(|n.children|, i requires 0 <= i < |n.children| => NodeToJson(n.children[i])))])
  }

  /** Building from the JSON form of a tree gives the tree back. */
  lemma {:induction false} JsonRoundTrip(n: Node)
    requires NoReservedKey(n)
    ensures BuildJson(NodeToJson(n)) == Ok(Some(n))
    decreases n
  {
    var items := seq(|n.children|, i requires 0 <= i < |n.children| => NodeToJson(n.children[i]));
    var fields := n.attrs["children" := List(items)];
    assert NodeToJson(n) == Dict(fields);
    forall i | 0 <= i < |items|
      ensures BuildJson(items[i]) == Ok(Some(n.children[i]))
    {
      JsonRoundTrip(n.children[i]);
    }
    assert fields - {"children"} == n.attrs;
    var r := BuildJson(NodeToJson(n));
    assert r.Ok?;
    assert r.value.value.children == n.children;
  }

  /** The JSON inheritance example: the `{}` child resolves the root's name. */
  lemma JsonExample()
    ensures var data := Dict(map["name" := Str("root"), "value" := Int(1),
                                 "children" := List([Dict(map["name" := Str("child1"), "value" := Int(2)]), Dict(map[])])]);
      var r := BuildJson(data);
      && r.Ok? && r.value.Some? && |r.value.value.children| == 2
      && GetAt(r.value.value, [], "name") == Ok(Str("root"))
      && GetAt(r.value.value, [0], "name") == Ok(Str("child1"))
      && GetAt(r.value.value, [1], "name") == Ok(Str("root"))
  {
    var c1 := Dict(map["name" := Str("child1"), "value" := Int(2)]);
    var c2 := Dict(map[]);
    var data := Dict(map["name" := Str("root"), "value" := Int(1), "children" := List([c1, c2])]);
    assert BuildJson(c1) == Ok(Some(Node(c1.fields, [])));
    assert BuildJson(c2) == Ok(Some(Node(map[], [])));
    var root := BuildJson(data).value.value;
    assert root.children[1] == Node(map[], []);
    ChildDelegatesToParent(root, [], 1, "name");
  }

  /** The XML inheritance example, with the whitespace-only text of the
      root stripped to "". */
  lemma XmlExample(e1: Element, e2: Element, e: Element)
    requires e1 == Element("child1", map["name" := "child1", "value" := "2"], None, [])
    requires e2 == Element("child2", map[], None, [])
    requires e == Element("root", map["name" := "root", "value" := "1"], Some("\n        "), [e1, e2])
    ensures var r := BuildXml(e);
      && r.Ok?
      && GetAt(r.value, [], "name") == Ok(Str("root"))
      && GetAt(r.value, [], "text") == Ok(Str(""))
      && GetAt(r.value, [0], "name") == Ok(Str("child1"))
      && GetAt(r.value, [1], "name") == Ok(Str("root"))
      && GetAt(r.value, [1], "tag") == Ok(Str("child2"))
  {
    var root := XmlExampleTree(e1, e2, e);
    var top: seq<nat> := [];
    assert top + [0] == [0] && top + [1] == [1];
    assert AncestorsOf(root, top) + [Subtree(root, top).attrs] == [root.attrs];
    LookupNearest([root.attrs], "name", 0);
    LookupNearest([root.attrs], "text", 0);
    ChildDelegatesToParent(root, top, 0, "name");
    ChildDelegatesToParent(root, top, 1, "name");
    ChildDelegatesToParent(root, top, 1, "tag");
  }

  lemma XmlExampleInput(e1: Element, e2: Element, e: Element)
    requires e1 == Element("child1", map["name" := "child1", "value" := "2"], None, [])
    requires e2 == Element("child2", map[], None, [])
    requires e == Element("root", map["name" := "root", "value" := "1"], Some("\n        "), [e1, e2])
    ensures NoAttribute(e, "children") && NoAttribute(e, "self")
    ensures ElementText(e) == ""
  {
    ExampleLacks(e1, e2, e, "children");
    ExampleLacks(e1, e2, e, "self");
    WhitespaceText(e);
  }

  lemma ExampleLacks(e1: Element, e2: Element, e: Element, k: string)
    requires e1.children == [] && e2.children == [] && e.children == [e1, e2]
    requires k !in e1.attrib && k !in e2.attrib && k !in e.attrib
    ensures NoAttribute(e, k)
  {
    assert NoAttribute(e1, k) && NoAttribute(e2, k);
  }

  lemma WhitespaceText(e: Element)
    requires e.text == Some("\n        ")
    ensures ElementText(e) == ""
  {
    var t := e.text.value;
    assert |t| == 9 && t[0] == '\n' && forall k :: 1 <= k < 9 ==> t[k] == ' ';
    StripAllSpace(t);
  }

  lemma XmlExampleTree(e1: Element, e2: Element, e: Element) returns (root: Node)
    requires e1 == Element("child1", map["name" := "child1", "value" := "2"], None, [])
    requires e2 == Element("child2", map[], None, [])
    requires e == Element("root", map["name" := "root", "value" := "1"], Some("\n        "), [e1, e2])
    ensures BuildXml(e) == Ok(root)
    ensures |root.children| == 2
    ensures root.attrs["name"] == Str("root") && root.attrs["text"] == Str("")
    ensures root.children[0].attrs["name"] == Str("child1")
    ensures root.children[1].attrs.Keys == {"tag", "text"} && root.children[1].attrs["tag"] == Str("child2")
  {
    XmlExampleInput(e1, e2, e);
    root := BuildXml(e).value;
    assert e.children[0] == e1 && e.children[1] == e2;
    ExampleChild(e2, root.children[1]);
    ExampleChild(e1, root.children[0]);
    assert e2.attrib.Keys == {};
  }

  lemma ExampleChild(e: Element, n: Node)
    requires BuildXml(e) == Ok(n)
    ensures n.attrs == XmlAttributes(e)
  {
  }
}
