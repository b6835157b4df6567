/** Code generation: each node is rendered by the template registered for
    its tag (inline first, then `{tag}.j2` on the template search path);
    a template can print attributes and the renders of the node's
    children, and a node with a `coral-to` attribute also writes its text
    to that path. Templates are a small datatype standing in for Jinja. */
module Render {
  import opened Wrappers
  import opened Tree
  import opened Visitors
  import opened SearchPath
  import opened Resolution
  import opened Builders
  import opened Utils

  /** One piece of a template: literal text, `{{ node.key }}`, or the
      loop `{% for child in node.children %}{{ render(child) }}{% endfor %}`
      with its whitespace trimmed, which prints the children's renders
      back to back. */
  datatype Piece = Lit(text: string) | Attr(key: string) | EachChild

  type Template = seq<Piece>

  /** A file written by a `coral-to` node. */
  datatype Write = Write(path: string, text: string)

  /** A render's outcome and the files written on the way, in order.
      A failure keeps the writes made before it. */
  datatype Out = Out(result: Result<string, Error>, writes: seq<Write>)

  /** The generator's templates: the table of inline templates, the
      search path with the `.j2` files found on it, and the formatter of
      non-string values. */
  datatype Engine = Engine(inline: map<string, Template>, dirs: seq<string>,
                           files: map<(string, string), Template>, show: Value -> string)

  /** The built-in `void` template: the children's renders, concatenated. */
  const VoidTemplate: Template := [EachChild]

  /** The inline table the generator uses: the caller's templates with
      `void` installed over any caller-supplied one. */
  function Registry(templates: map<string, Template>): (r: map<string, Template>)
    ensures "void" in r && r["void"] == VoidTemplate
    ensures forall k :: k in templates && k != "void" ==> k in r && r[k] == templates[k]
    ensures r.Keys == templates.Keys + {"void"}
  {
    templates["void" := VoidTemplate]
  }

  /** The name of the template file for a tag value: a string tag names
      itself, any other value is shown first. */
  function FileName(show: Value -> string, tag: Value): (r: string)
    ensures tag.Str? ==> r == tag.s + ".j2"
    ensures |r| >= 3 && r[|r| - 3..] == ".j2"
  {
    Format(show, tag) + ".j2"
  }

  /** The template for a tag: the inline one when the tag is a string the
      table holds, otherwise `{tag}.j2` from the first search directory
      that has it. A list or mapping cannot be looked up in the table.
      With an empty search path the engine is built without a file
      loader, so asking it for any file template fails. */
  function SelectTemplate(e: Engine, tag: Value): (r: Result<Template, Error>)
    ensures (tag.List? || tag.Dict?) <==> r == Err(UnhashableTag)
    ensures tag.Str? && tag.s in e.inline ==> r == Ok(e.inline[tag.s])
    ensures !(tag.List? || tag.Dict?) && !(tag.Str? && tag.s in e.inline) && |e.dirs| == 0 ==> r == Err(NoTemplateLoader)
    ensures r.Err? && r.error != UnhashableTag && r.error != NoTemplateLoader ==>
      && r.error == TemplateNotFound(FileName(e.show, tag))
      && forall i :: 0 <= i < |e.dirs| ==> (e.dirs[i], FileName(e.show, tag)) !in e.files
    ensures r.Ok? && !(tag.Str? && tag.s in e.inline) ==>
      exists i :: (0 <= i < |e.dirs| && (e.dirs[i], FileName(e.show, tag)) in e.files
        && r.value == e.files[(e.dirs[i], FileName(e.show, tag))]
        && forall j :: 0 <= j < i ==> (e.dirs[j], FileName(e.show, tag)) !in e.files)
  {
    if tag.List? || tag.Dict? then Err(UnhashableTag)
    else if tag.Str? && tag.s in e.inline then Ok(e.inline[tag.s])
    else if |e.dirs| == 0 then Err(NoTemplateLoader)
    else
      var name := FileName(e.show, tag);
      match FirstDir(e.dirs, name, e.files)
      case None => Err(TemplateNotFound(name))
      case Some(i) => Ok(e.files[(e.dirs[i], name)])
  }

  /** `a` followed by `b`, where `a` succeeded: the texts joined, the
      writes in order, `b`'s failure if it failed. */
  function Then(a: Out, b: Out): (r: Out)
    requires a.result.Ok?
  {
    Out(if b.result.Ok? then Ok(a.result.value + b.result.value) else b.result, a.writes + b.writes)
  }

  /** `_render`: the node's tag is looked up (possibly inherited), its
      template is rendered against the node, and with a `coral-to`
      attribute of its own the result is also written to that path,
      after everything the template wrote. */
  function RenderNode(e: Engine, scope: seq<Attrs>, n: Node): (r: Out)
    ensures var tag := LookupIn(Ctx(scope, n), "tag");
      && (tag.Err? ==> r == Out(Err(AttributeNotFound("tag")), []))
      && (tag.Ok? && SelectTemplate(e, tag.value).Err? ==> r == Out(Err(SelectTemplate(e, tag.value).error), []))
    ensures "coral-to" in n.attrs && r.result.Ok? ==>
      && n.attrs["coral-to"].Str? && |r.writes| > 0
      && r.writes[|r.writes| - 1] == Write(n.attrs["coral-to"].s, r.result.value)
    decreases n, 2, 0
  {
    match LookupIn(Ctx(scope, n), "tag")
    case Err(err) => Out(Err(err), [])
    case Ok(tag) =>
      match SelectTemplate(e, tag)
      case Err(err) => Out(Err(err), [])
      case Ok(t) =>
        var body := Eval(e, scope, n, t);
        if body.result.Err? || "coral-to" !in n.attrs then body
        else if n.attrs["coral-to"].Str? then
          Out(body.result, body.writes + [Write(n.attrs["coral-to"].s, body.result.value)])
        else Out(Err(BadOutputPath), body.writes)
  }

  /** A template's pieces, left to right; the first failure ends it. */
  function Eval(e: Engine, scope: seq<Attrs>, n: Node, t: Template): (r: Out)
    decreases n, 1, |t|
  {
    if |t| == 0 then Out(Ok(""), [])
    else
      var head := EvalPiece(e, scope, n, t[0]);
      if head.result.Err? then head else Then(head, Eval(e, scope, n, t[1..]))
  }

  /** One piece against the node: an attribute is looked up and
      formatted, the children are rendered with the node in their scope. */
  function EvalPiece(e: Engine, scope: seq<Attrs>, n: Node, p: Piece): (r: Out)
    ensures p.Lit? ==> r == Out(Ok(p.text), [])
    ensures p.Attr? ==> r.writes == []
    ensures p.Attr? && p.key in n.attrs ==> r.result == Ok(Format(e.show, n.attrs[p.key]))
    ensures p.Attr? && p.key !in n.attrs ==>
      r.result == (if Lookup(scope, p.key).Ok? then Ok(Format(e.show, Lookup(scope, p.key).value))
                   else Err(AttributeNotFound(p.key)))
    decreases n, 1, 0
  {
    match p
    case Lit(s) => Out(Ok(s), [])
    case Attr(k) =>
      (match LookupIn(Ctx(scope, n), k)
       case Err(err) => Out(Err(err), [])
       case Ok(v) => Out(Ok(Format(e.show, v)), []))
    case EachChild => RenderChildren(e, scope + [n.attrs], n.children)
  }

  /** The children's renders, left to right; the first failure ends it. */
  function RenderChildren(e: Engine, scope: seq<Attrs>, ns: seq<Node>): (r: Out)
    decreases ns, 0, 0
  {
    if |ns| == 0 then Out(Ok(""), [])
    else
      var first := RenderNode(e, scope, ns[0]);
      if first.result.Err? then first else Then(first, RenderChildren(e, scope, ns[1..]))
  }

  // ---- the children's renders, concatenated ----

  /** Each child's render on its own, in order. */
  function ChildOuts(e: Engine, scope: seq<Attrs>, ns: seq<Node>): (r: seq<Out>)
    ensures |r| == |ns| && forall i :: 0 <= i < |ns| ==> r[i] == RenderNode(e, scope, ns[i])
    decreases |ns|
  {
    if |ns| == 0 then [] else [RenderNode(e, scope, ns[0])] + ChildOuts(e, scope, ns[1..])
  }

  /** The texts of a list of outcomes (a failed one counts as empty). */
  function Texts(outs: seq<Out>): (r: seq<string>)
    ensures |r| == |outs| && forall i :: 0 <= i < |outs| && outs[i].result.Ok? ==> r[i] == outs[i].result.value
    decreases |outs|
  {
    if |outs| == 0 then []
    else [if outs[0].result.Ok? then outs[0].result.value else ""] + Texts(outs[1..])
  }

  /** The write logs of a list of outcomes. */
  function WritesOf(outs: seq<Out>): (r: seq<seq<Write>>)
    ensures |r| == |outs| && forall i :: 0 <= i < |outs| ==> r[i] == outs[i].writes
    decreases |outs|
  {
    if |outs| == 0 then [] else [outs[0].writes] + WritesOf(outs[1..])
  }

  /** `r` failed as `outs[i]` did, every outcome before it succeeded, and
      `r` kept the writes of `outs[..i]` and of `outs[i]`, in order. */
  ghost predicate FailsAt(r: Out, outs: seq<Out>, i: int)
  {
    && 0 <= i < |outs| && r.result == outs[i].result
    && (forall j :: 0 <= j < i ==> outs[j].result.Ok?)
    && r.writes == Flatten(WritesOf(outs[..i])) + outs[i].writes
  }

  /** Outcomes run one after another: the first failure ends the run,
      otherwise the texts are joined. */
  function Sequence(outs: seq<Out>): Out
    decreases |outs|
  {
    if |outs| == 0 then Out(Ok(""), [])
    else if outs[0].result.Err? then outs[0]
    else Then(outs[0], Sequence(outs[1..]))
  }

  /** Each piece's outcome on its own, in order. */
  function PieceOuts(e: Engine, scope: seq<Attrs>, n: Node, t: Template): (r: seq<Out>)
    ensures |r| == |t| && forall i :: 0 <= i < |t| ==> r[i] == EvalPiece(e, scope, n, t[i])
    decreases |t|
  {
    if |t| == 0 then [] else [EvalPiece(e, scope, n, t[0])] + PieceOuts(e, scope, n, t[1..])
  }

  /** Evaluating a template is running its pieces one after another. */
  lemma {:induction false} EvalIsSequence(e: Engine, scope: seq<Attrs>, n: Node, t: Template)
    ensures Eval(e, scope, n, t) == Sequence(PieceOuts(e, scope, n, t))
    decreases |t|
  {
    if |t| > 0 {
      EvalIsSequence(e, scope, n, t[1..]);
      var outs := PieceOuts(e, scope, n, t);
      assert outs[1..] == PieceOuts(e, scope, n, t[1..]);
    }
  }

  /** A template succeeds iff every piece does, and then prints the
      pieces' texts back to back with their writes in order; otherwise it
      fails as its first failing piece does, keeping the writes before. */
  lemma EvalConcatenates(e: Engine, scope: seq<Attrs>, n: Node, t: Template)
    ensures Eval(e, scope, n, t).result.Ok? <==>
      forall i :: 0 <= i < |t| ==> EvalPiece(e, scope, n, t[i]).result.Ok?
    ensures var r := Eval(e, scope, n, t);
      var outs := PieceOuts(e, scope, n, t);
      r.result.Ok? ==> r.result.value == Flatten(Texts(outs)) && r.writes == Flatten(WritesOf(outs))
    ensures Eval(e, scope, n, t).result.Err? ==>
      exists i :: FailsAt(Eval(e, scope, n, t), PieceOuts(e, scope, n, t), i)
  {
    EvalIsSequence(e, scope, n, t);
    SequenceSucceeds(PieceOuts(e, scope, n, t));
    SequenceFails(PieceOuts(e, scope, n, t));
  }

  /** Rendering the children is running their renders one after another. */
  lemma {:induction false} ChildrenAreSequence(e: Engine, scope: seq<Attrs>, ns: seq<Node>)
    ensures RenderChildren(e, scope, ns) == Sequence(ChildOuts(e, scope, ns))
    decreases |ns|
  {
    if |ns| > 0 {
      ChildrenAreSequence(e, scope, ns[1..]);
      var outs := ChildOuts(e, scope, ns);
      assert outs[1..] == ChildOuts(e, scope, ns[1..]);
    }
  }

  /** A run succeeds iff every outcome does, and then yields their texts
      and their writes concatenated in order. */
  lemma {:induction false} SequenceSucceeds(outs: seq<Out>)
    ensures Sequence(outs).result.Ok? <==> forall i :: 0 <= i < |outs| ==> outs[i].result.Ok?
    ensures Sequence(outs).result.Ok? ==>
      Sequence(outs).result.value == Flatten(Texts(outs)) && Sequence(outs).writes == Flatten(WritesOf(outs))
    decreases |outs|
  {
    if |outs| == 0 {
      assert Texts(outs) == [] && WritesOf(outs) == [];
    } else if outs[0].result.Ok? {
      var tail := outs[1..];
      SequenceSucceeds(tail);
      assert forall i :: 1 <= i < |outs| ==> outs[i] == tail[i - 1];
      assert Texts(outs)[1..] == Texts(tail);
      assert WritesOf(outs)[1..] == WritesOf(tail);
    }
  }

  /** A failed run fails as its first failing outcome does, keeping the
      writes up to and including that one's. */
  lemma {:induction false} SequenceFails(outs: seq<Out>)
    ensures Sequence(outs).result.Err? ==> exists i :: FailsAt(Sequence(outs), outs, i)
    decreases |outs|
  {
    if |outs| == 0 {
    } else if outs[0].result.Err? {
      assert WritesOf(outs[..0]) == [];
      assert FailsAt(Sequence(outs), outs, 0);
    } else {
      var first, tail := outs[0], outs[1..];
      var rest := Sequence(tail);
      SequenceFails(tail);
      if rest.result.Err? {
        var k :| FailsAt(rest, tail, k);
        PrefixWrites(outs, k);
        assert forall j :: 1 <= j < k + 1 ==> outs[j] == tail[j - 1];
        assert FailsAt(Sequence(outs), outs, k + 1);
      }
    }
  }

  /** The writes of the first k + 1 outcomes are the first one's followed
      by those of the next k. */
  lemma PrefixWrites(outs: seq<Out>, k: nat)
    requires k < |outs|
    ensures Flatten(WritesOf(outs[..k + 1])) == outs[0].writes + Flatten(WritesOf(outs[1..][..k]))
  {
    assert outs[..k + 1][1..] == outs[1..][..k];
    assert WritesOf(outs[..k + 1])[1..] == WritesOf(outs[1..][..k]);
  }

  /** Rendering the children succeeds iff every child renders, and then
      gives their texts and their writes concatenated in order; otherwise
      it fails as the first failing child does, keeping the writes of the
      children before it and that child's own. */
  lemma ChildrenConcatenate(e: Engine, scope: seq<Attrs>, ns: seq<Node>)
    ensures RenderChildren(e, scope, ns).result.Ok? <==>
      forall i :: 0 <= i < |ns| ==> RenderNode(e, scope, ns[i]).result.Ok?
    ensures var r := RenderChildren(e, scope, ns);
      var outs := ChildOuts(e, scope, ns);
      r.result.Ok? ==> r.result.value == Flatten(Texts(outs)) && r.writes == Flatten(WritesOf(outs))
    ensures RenderChildren(e, scope, ns).result.Err? ==>
      exists i :: FailsAt(RenderChildren(e, scope, ns), ChildOuts(e, scope, ns), i)
  {
    ChildrenAreSequence(e, scope, ns);
    SequenceSucceeds(ChildOuts(e, scope, ns));
    SequenceFails(ChildOuts(e, scope, ns));
  }

  /** The built-in `void` template, whatever the caller registered under
      that name, renders a node without `coral-to` as its children's
      renders concatenated, with their writes in order. */
  lemma VoidConcatenates(templates: map<string, Template>, dirs: seq<string>, files: map<(string, string), Template>,
                         show: Value -> string, scope: seq<Attrs>, n: Node)
    requires LookupIn(Ctx(scope, n), "tag") == Ok(Str("void"))
    requires "coral-to" !in n.attrs
    ensures var e := Engine(Registry(templates), dirs, files, show);
      var r := RenderNode(e, scope, n);
      var outs := ChildOuts(e, scope + [n.attrs], n.children);
      && (r.result.Ok? <==> forall i :: 0 <= i < |n.children| ==> outs[i].result.Ok?)
      && (r.result.Ok? ==> r.result.value == Flatten(Texts(outs)) && r.writes == Flatten(WritesOf(outs)))
  {
    var e := Engine(Registry(templates), dirs, files, show);
    var kids := RenderChildren(e, scope + [n.attrs], n.children);
    assert SelectTemplate(e, Str("void")) == Ok(VoidTemplate);
    assert VoidTemplate[1..] == [];
    if kids.result.Ok? {
      assert kids.result.value + "" == kids.result.value;
      assert kids.writes + [] == kids.writes;
    }
    assert Eval(e, scope, n, VoidTemplate) == kids;
    ChildrenConcatenate(e, scope + [n.attrs], n.children);
  }

  // ---- `coral-to` ----

  /** With a `coral-to` path of its own, a node that renders returns the
      text it wrote last, after every write its template made (its
      children's among them); without one it writes nothing itself. A
      `coral-to` value that is not a string fails the render. */
  lemma CoralToWritesLast(e: Engine, scope: seq<Attrs>, n: Node, t: Template)
    requires LookupIn(Ctx(scope, n), "tag").Ok?
    requires SelectTemplate(e, LookupIn(Ctx(scope, n), "tag").value) == Ok(t)
    ensures var r := RenderNode(e, scope, n);
      var body := Eval(e, scope, n, t);
      && ("coral-to" !in n.attrs ==> r == body)
      && ("coral-to" in n.attrs && r.result.Ok? ==>
            && n.attrs["coral-to"].Str?
            && r.result == body.result
            && |r.writes| == |body.writes| + 1
            && r.writes[|r.writes| - 1] == Write(n.attrs["coral-to"].s, r.result.value)
            && r.writes[..|r.writes| - 1] == body.writes)
      && ("coral-to" in n.attrs && body.result.Ok? && !n.attrs["coral-to"].Str? ==>
            r == Out(Err(BadOutputPath), body.writes))
  {
    var r := RenderNode(e, scope, n);
    var body := Eval(e, scope, n, t);
    if "coral-to" in n.attrs && r.result.Ok? {
      assert (body.writes + [Write(n.attrs["coral-to"].s, r.result.value)])[..|body.writes|] == body.writes;
    }
  }

  // ---- inline templates win ----

  /** Every node of the tree resolves its tag to a string the inline
      table holds. */
  ghost predicate TagsInline(inline: map<string, Template>, scope: seq<Attrs>, n: Node)
    decreases n
  {
    && (match LookupIn(Ctx(scope, n), "tag") case Ok(Str(s)) => s in inline case _ => false)
    && forall i :: 0 <= i < |n.children| ==> TagsInline(inline, scope + [n.attrs], n.children[i])
  }

  /** When every tag has an inline template, the template files and the
      search path play no part: the render is the same whatever `.j2`
      files exist. */
  lemma {:induction false} InlineIgnoresFiles(e: Engine, dirs: seq<string>, files: map<(string, string), Template>,
                                              scope: seq<Attrs>, n: Node)
    requires TagsInline(e.inline, scope, n)
    ensures RenderNode(e, scope, n) == RenderNode(e.(dirs := dirs, files := files), scope, n)
    decreases n, 2, 0
  {
    var tag := LookupIn(Ctx(scope, n), "tag").value;
    assert SelectTemplate(e, tag) == SelectTemplate(e.(dirs := dirs, files := files), tag);
    EvalIgnoresFiles(e, dirs, files, scope, n, e.inline[tag.s]);
  }

  lemma {:induction false} EvalIgnoresFiles(e: Engine, dirs: seq<string>, files: map<(string, string), Template>,
                                            scope: seq<Attrs>, n: Node, t: Template)
    requires forall i :: 0 <= i < |n.children| ==> TagsInline(e.inline, scope + [n.attrs], n.children[i])
    ensures Eval(e, scope, n, t) == Eval(e.(dirs := dirs, files := files), scope, n, t)
    decreases n, 1, |t|
  {
    if |t| > 0 {
      if t[0].EachChild? {
        ChildrenIgnoreFiles(e, dirs, files, scope + [n.attrs], n.children);
      }
      EvalIgnoresFiles(e, dirs, files, scope, n, t[1..]);
    }
  }

  lemma {:induction false} ChildrenIgnoreFiles(e: Engine, dirs: seq<string>, files: map<(string, string), Template>,
                                               scope: seq<Attrs>, ns: seq<Node>)
    requires forall i :: 0 <= i < |ns| ==> TagsInline(e.inline, scope, ns[i])
    ensures RenderChildren(e, scope, ns) == RenderChildren(e.(dirs := dirs, files := files), scope, ns)
    decreases ns, 0, 0
  {
    if |ns| > 0 {
      InlineIgnoresFiles(e, dirs, files, scope, ns[0]);
      ChildrenIgnoreFiles(e, dirs, files, scope, ns[1..]);
    }
  }

  // ---- the tag is always found ----

  /** A tree whose every node has its own `tag` never fails for want of
      one: only other attributes can be missing. */
  lemma {:induction false} TagAlwaysFound(e: Engine, scope: seq<Attrs>, n: Node)
    requires AllDefine(n, "tag")
    ensures RenderNode(e, scope, n).result != Err(AttributeNotFound("tag"))
    decreases n, 2, 0
  {
    var tag := LookupIn(Ctx(scope, n), "tag");
    assert tag == Ok(n.attrs["tag"]);
    match SelectTemplate(e, tag.value)
    case Err(_) =>
    case Ok(t) => EvalTagFound(e, scope, n, t);
  }

  lemma {:induction false} EvalTagFound(e: Engine, scope: seq<Attrs>, n: Node, t: Template)
    requires AllDefine(n, "tag")
    ensures Eval(e, scope, n, t).result != Err(AttributeNotFound("tag"))
    decreases n, 1, |t|
  {
    if |t| > 0 {
      EvalTagFound(e, scope, n, t[1..]);
      match t[0]
      case Lit(_) =>
      case Attr(k) =>
        if k == "tag" {
          assert LookupIn(Ctx(scope, n), k) == Ok(n.attrs["tag"]);
        }
      case EachChild => ChildrenTagFound(e, scope + [n.attrs], n.children);
    }
  }

  lemma {:induction false} ChildrenTagFound(e: Engine, scope: seq<Attrs>, ns: seq<Node>)
    requires forall i :: 0 <= i < |ns| ==> AllDefine(ns[i], "tag")
    ensures RenderChildren(e, scope, ns).result != Err(AttributeNotFound("tag"))
    decreases ns, 0, 0
  {
    if |ns| > 0 {
      TagAlwaysFound(e, scope, ns[0]);
      ChildrenTagFound(e, scope, ns[1..]);
    }
  }

  // ---- the generator ----

  /** The two resolution passes the generator runs, in this order: the
      inline attribute templates, then the per-tag attribute files, both
      on the template search path. Neither removes an attribute, and
      neither fails for want of a tag on a node that has its own. */
  function Passes(render: StringRenderer, order: KeyOrder, parse: YamlParser, show: Value -> string,
                  dirs: seq<string>, yamlFiles: map<(string, string), string>): (r: seq<Visitor>)
    ensures |r| == 2
    ensures forall i, key :: 0 <= i < |r| ==> KeepsKey(r[i], key)
    ensures forall i :: 0 <= i < |r| ==> SparesKey(r[i], "tag", AttributeNotFound("tag"))
  {
    [AttributeRenderer(render, order), YamlAttributes(render, parse, show, dirs, yamlFiles)]
  }

  /** `NodeGenerator(xml, templates=...).generate()` on a parsed document:
      build the tree, run both resolution passes over it, then render the
      root with `void` installed in the template table. A failure before
      rendering writes nothing. */
  function Generate(xml: Element, templates: map<string, Template>, render: StringRenderer, order: KeyOrder,
                    parse: YamlParser, show: Value -> string, dirs: seq<string>,
                    yamlFiles: map<(string, string), string>, templateFiles: map<(string, string), Template>): (r: Out)
    requires forall a: Attrs :: Enumerates(order(a), a)
    ensures !(NoAttribute(xml, "children") && NoAttribute(xml, "self")) ==>
      r.writes == [] && (r.result == Err(DuplicateChildren) || r.result == Err(SelfKeyword))
    ensures NoAttribute(xml, "self") && !NoAttribute(xml, "children") ==> r == Out(Err(DuplicateChildren), [])
    ensures NoAttribute(xml, "children") && !NoAttribute(xml, "self") ==> r == Out(Err(SelfKeyword), [])
  {
    match BuildXml(xml)
    case Err(err) => Out(Err(err), [])
    case Ok(root) =>
      match Composite(Passes(render, order, parse, show, dirs, yamlFiles), [], root)
      case Err(err) => Out(Err(err), [])
      case Ok(resolved) => RenderNode(Engine(Registry(templates), dirs, templateFiles, show), [], resolved)
  }

  /** Every element carries its tag into the tree, and neither pass drops
      an attribute, so generation never fails for want of a `tag`. */
  lemma GenerateFindsTags(xml: Element, templates: map<string, Template>, render: StringRenderer, order: KeyOrder,
                          parse: YamlParser, show: Value -> string, dirs: seq<string>,
                          yamlFiles: map<(string, string), string>, templateFiles: map<(string, string), Template>)
    requires forall a: Attrs :: Enumerates(order(a), a)
    ensures Generate(xml, templates, render, order, parse, show, dirs, yamlFiles, templateFiles).result
      != Err(AttributeNotFound("tag"))
  {
    var vs := Passes(render, order, parse, show, dirs, yamlFiles);
    var built := BuildXml(xml);
    if built.Ok? {
      var resolved := Composite(vs, [], built.value);
      CompositeSparesKey(vs, "tag", AttributeNotFound("tag"), [], built.value);
      if resolved.Ok? {
        CompositeKeepsKey(vs, "tag", [], built.value);
        TagAlwaysFound(Engine(Registry(templates), dirs, templateFiles, show), [], resolved.value);
      }
    }
  }
}
