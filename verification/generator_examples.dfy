/** The generator end to end on the attribute-file example: a `person`
    element, an attribute file adding `age`, and a file template printing
    both attributes. */
module GeneratorExamples {
  import opened Wrappers
  import opened Tree
  import opened Visitors
  import opened SearchPath
  import opened Resolution
  import opened Builders
  import opened Render

  /** The text the example generates. */
  const PersonLine: string := "My name is Mauro and I am 37 years old."

  const PersonTemplate: Template :=
    [Lit("My name is "), Attr("name"), Lit(" and I am "), Attr("age"), Lit(" years old.")]

  /** `<person name="Mauro"></person>` with `person.yaml` holding
      `- age: 37` and `person.j2` printing name and age renders to
      "My name is Mauro and I am 37 years old." and writes nothing. The
      engine is taken to leave template-free strings as they are, the
      parser to read the file as the one mapping `age: 37`, and `str(37)`
      to be "37". */
  lemma AttributeFileExample(render: StringRenderer, order: KeyOrder, parse: YamlParser, show: Value -> string,
                             d: string, xml: Element,
                             yamlFiles: map<(string, string), string>, templateFiles: map<(string, string), Template>)
    requires forall c: Ctx :: render(c, "Mauro") == Ok("Mauro")
    requires forall c: Ctx :: render(c, "person") == Ok("person")
    requires forall c: Ctx :: render(c, "") == Ok("")
    requires forall c: Ctx :: render(c, "- age: 37") == Ok("- age: 37")
    requires parse("- age: 37") == Mappings([map["age" := Int(37)]])
    requires show(Int(37)) == "37"
    requires forall a: Attrs :: Enumerates(order(a), a)
    requires xml == Element("person", map["name" := "Mauro"], None, [])
    requires yamlFiles == map[(d, "person.yaml") := "- age: 37"]
    requires templateFiles == map[(d, "person.j2") := PersonTemplate]
    ensures Generate(xml, map[], render, order, parse, show, [d], yamlFiles, templateFiles) == Out(Ok(PersonLine), [])
  {
    PersonLineSpelled();
    var built := PersonBuilt(xml);
    var resolved := PersonResolved(render, order, parse, show, d, yamlFiles, built);
    PersonRendered(show, d, templateFiles, resolved);
  }

  /** The generated text is what the template's pieces print, in order. */
  lemma PersonLineSpelled()
    ensures PersonLine == "My name is " + ("Mauro" + (" and I am " + ("37" + " years old.")))
  {
    var a, b, c, d, f := "My name is ", "Mauro", " and I am ", "37", " years old.";
    assert |a + (b + (c + (d + f)))| == |PersonLine|;
    forall i | 0 <= i < |PersonLine|
      ensures (a + (b + (c + (d + f))))[i] == PersonLine[i]
    {
    }
  }

  lemma PersonBuilt(xml: Element) returns (n: Node)
    requires xml == Element("person", map["name" := "Mauro"], None, [])
    ensures BuildXml(xml) == Ok(n)
    ensures n == Node(map["name" := Str("Mauro"), "tag" := Str("person"), "text" := Str("")], [])
  {
    assert ElementText(xml) == "";
    assert XmlAttributes(xml) == map["name" := Str("Mauro"), "tag" := Str("person"), "text" := Str("")];
    n := Node(XmlAttributes(xml), []);
    assert BuildXmlList([]) == Ok([]);
  }

  lemma PersonResolved(render: StringRenderer, order: KeyOrder, parse: YamlParser, show: Value -> string,
                       d: string, yamlFiles: map<(string, string), string>, n: Node) returns (m: Node)
    requires forall c: Ctx :: render(c, "Mauro") == Ok("Mauro")
    requires forall c: Ctx :: render(c, "person") == Ok("person")
    requires forall c: Ctx :: render(c, "") == Ok("")
    requires forall c: Ctx :: render(c, "- age: 37") == Ok("- age: 37")
    requires parse("- age: 37") == Mappings([map["age" := Int(37)]])
    requires forall a: Attrs :: Enumerates(order(a), a)
    requires yamlFiles == map[(d, "person.yaml") := "- age: 37"]
    requires n == Node(map["name" := Str("Mauro"), "tag" := Str("person"), "text" := Str("")], [])
    ensures Composite(Passes(render, order, parse, show, [d], yamlFiles), [], n) == Ok(m)
    ensures m == Node(n.attrs["age" := Int(37)], [])
  {
    var vs := Passes(render, order, parse, show, [d], yamlFiles);
    UnchangedWhenFixed(render, [], n.attrs, [], order(n.attrs));
    assert vs[0]([], n) == Ok(n.attrs);
    assert TraverseAll(vs[0], [] + [n.attrs], []) == Ok([]);
    assert Traverse(vs[0], [], n) == Ok(n);
    m := Node(n.attrs["age" := Int(37)], []);
    PersonFileMerged(render, parse, show, d, yamlFiles, n);
    assert vs[1]([], n) == Ok(m.attrs);
    assert TraverseAll(vs[1], [] + [m.attrs], []) == Ok([]);
    assert Traverse(vs[1], [], n) == Ok(m);
    assert vs[1..][1..] == [] && vs[1..][0] == vs[1];
    assert Composite(vs[1..][1..], [], m) == Ok(m);
    assert Composite(vs[1..], [], n) == Ok(m);
  }

  lemma PersonFileMerged(render: StringRenderer, parse: YamlParser, show: Value -> string,
                         d: string, yamlFiles: map<(string, string), string>, n: Node)
    requires forall c: Ctx :: render(c, "- age: 37") == Ok("- age: 37")
    requires parse("- age: 37") == Mappings([map["age" := Int(37)]])
    requires yamlFiles == map[(d, "person.yaml") := "- age: 37"]
    requires n == Node(map["name" := Str("Mauro"), "tag" := Str("person"), "text" := Str("")], [])
    ensures YamlVisit(render, parse, show, [d], yamlFiles, [], n) == Ok(n.attrs["age" := Int(37)])
  {
    assert [] + [n.attrs] == [n.attrs];
    assert LookupIn(Ctx([], n), "tag") == Ok(Str("person"));
    assert Format(show, Str("person")) + ".yaml" == "person.yaml";
    assert FirstDir([d], "person.yaml", yamlFiles) == Some(0);
    assert Merge(n.attrs, [map["age" := Int(37)]]) == n.attrs["age" := Int(37)];
  }

  lemma PersonRendered(show: Value -> string, d: string, templateFiles: map<(string, string), Template>, m: Node)
    requires show(Int(37)) == "37"
    requires templateFiles == map[(d, "person.j2") := PersonTemplate]
    requires m == Node(map["name" := Str("Mauro"), "tag" := Str("person"), "text" := Str(""), "age" := Int(37)], [])
    ensures RenderNode(Engine(Registry(map[]), [d], templateFiles, show), [], m)
      == Out(Ok("My name is " + ("Mauro" + (" and I am " + ("37" + " years old.")))), [])
  {
    var e := Engine(Registry(map[]), [d], templateFiles, show);
    PersonSelected(e, d, templateFiles);
    assert [] + [m.attrs] == [m.attrs];
    CoralToWritesLast(e, [], m, PersonTemplate);
    PersonAttributes(e, m);
    PersonPieces(e, m, PersonTemplate);
  }

  lemma PersonSelected(e: Engine, d: string, templateFiles: map<(string, string), Template>)
    requires templateFiles == map[(d, "person.j2") := PersonTemplate]
    requires e.inline == Registry(map[]) && e.dirs == [d] && e.files == templateFiles
    ensures SelectTemplate(e, Str("person")) == Ok(PersonTemplate)
  {
    assert "person" !in e.inline;
    assert FileName(e.show, Str("person")) == "person.j2";
    assert FirstDir([d], "person.j2", templateFiles) == Some(0);
  }

  lemma PersonPieces(e: Engine, m: Node, t: Template)
    requires EvalPiece(e, [], m, Attr("name")) == Out(Ok("Mauro"), [])
    requires EvalPiece(e, [], m, Attr("age")) == Out(Ok("37"), [])
    requires t == PersonTemplate
    ensures Eval(e, [], m, t) == Out(Ok("My name is " + ("Mauro" + (" and I am " + ("37" + " years old.")))), [])
  {
    assert t[1..] == [Attr("name"), Lit(" and I am "), Attr("age"), Lit(" years old.")];
    PersonMiddle(e, m, t[1..]);
    EvalStep(e, [], m, t, "My name is ", "Mauro" + (" and I am " + ("37" + " years old.")));
  }

  lemma PersonMiddle(e: Engine, m: Node, t: Template)
    requires EvalPiece(e, [], m, Attr("name")) == Out(Ok("Mauro"), [])
    requires EvalPiece(e, [], m, Attr("age")) == Out(Ok("37"), [])
    requires t == [Attr("name"), Lit(" and I am "), Attr("age"), Lit(" years old.")]
    ensures Eval(e, [], m, t) == Out(Ok("Mauro" + (" and I am " + ("37" + " years old."))), [])
  {
    assert t[1..] == [Lit(" and I am "), Attr("age"), Lit(" years old.")];
    var tail := PersonTail(e, m, t[1..]);
    EvalStep(e, [], m, t, "Mauro", " and I am " + ("37" + " years old."));
  }

  lemma PersonTail(e: Engine, m: Node, t: Template) returns (r: Out)
    requires EvalPiece(e, [], m, Attr("age")) == Out(Ok("37"), [])
    requires t == [Lit(" and I am "), Attr("age"), Lit(" years old.")]
    ensures Eval(e, [], m, t) == r == Out(Ok(" and I am " + ("37" + " years old.")), [])
  {
    assert t[2..] == [] + [Lit(" years old.")] && t[2..][1..] == [] && t[1..][1..] == t[2..];
    EvalStep(e, [], m, t[2..], " years old.", "");
    assert " years old." + "" == " years old.";
    EvalStep(e, [], m, t[1..], "37", " years old.");
    EvalStep(e, [], m, t, " and I am ", "37" + " years old.");
    r := Eval(e, [], m, t);
  }

  lemma PersonAttributes(e: Engine, m: Node)
    requires e.show(Int(37)) == "37"
    requires m == Node(map["name" := Str("Mauro"), "tag" := Str("person"), "text" := Str(""), "age" := Int(37)], [])
    ensures EvalPiece(e, [], m, Attr("name")) == Out(Ok("Mauro"), [])
    ensures EvalPiece(e, [], m, Attr("age")) == Out(Ok("37"), [])
  {
    assert "name" in m.attrs && "age" in m.attrs;
  }

  /** A template whose first piece prints `text` and whose rest prints
      `rest`, neither writing, prints `text + rest`. */
  lemma EvalStep(e: Engine, scope: seq<Attrs>, n: Node, t: Template, text: string, rest: string)
    requires |t| > 0
    requires EvalPiece(e, scope, n, t[0]) == Out(Ok(text), [])
    requires Eval(e, scope, n, t[1..]) == Out(Ok(rest), [])
    ensures Eval(e, scope, n, t) == Out(Ok(text + rest), [])
  {
  }
}
