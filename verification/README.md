# coral, modelled in Dafny

coral is a small code generator. It builds a tree of attributed nodes from
XML (or JSON). It resolves each node's attributes in two passes:

- every string attribute is re-rendered as an inline Jinja template against
  the node;
- the mappings of a per-tag attribute file `{tag}.yaml` are merged in.

It then renders the tree top-down. Each node is rendered by the template
registered for its tag: an inline one first, otherwise `{tag}.j2` on the
template search path. A template can print attributes and the renders of
the node's children. A node with a `coral-to` attribute also writes its
text to that file. An attribute a node does not define is looked up in its
ancestors.

The model has one module per concern:

- `Tree` (node.dfy): the node, attribute lookup through the ancestors, and
  the constructor.
- `Builders` (builders.dfy): the XML and JSON builders, including Python's
  whitespace `strip`.
- `Visitors` (visitors.dfy): the pre-order traversal and the composite
  visitor.
- `SearchPath` (search_path.dfy): the first-directory-wins file search.
- `Resolution` (resolution.dfy): the attribute renderer and the attribute
  file visitor.
- `Render` (render.dfy): template selection, rendering, `void`, `coral-to`
  and the whole generator.
- `GeneratorExamples` (generator_examples.dfy): the whole generator on a
  worked example with an attribute file and a file template.
- `Utils` (utils.dfy): `flatten`.
- `Wrappers` (wrappers.dfy): `Option` and `Result`.

Modelling decisions:

- **Nodes.** Nodes are immutable values. The parent back-pointer becomes an
  explicit scope: the attribute maps from the root down to the node, with
  the node's own map last. A visitor returns the node's new attribute map,
  and the traversal rebuilds the tree.
- **Exceptions.** A Python exception becomes an `Err` of `Tree.Error`, and
  a traversal or render stops at the first one. A render that fails keeps
  the files it wrote before failing.
- **Parameters for what the model does not compute.** These are passed in.
  The general properties hold whatever they do; the worked examples state
  what they assume of them:
  - the Jinja engine for inline attribute templates (`StringRenderer`);
  - the YAML parser (`YamlParser`);
  - Python's `str()` of a non-string value (`show`);
  - a dict's iteration order (`KeyOrder`).
- **Files.** The file system is a map from (directory, file name) to
  content. Template files are held already parsed.
- **Templates.** Templates used for code generation are a small datatype:
  - literal text;
  - `{{ node.key }}`;
  - the trimmed loop `{% for child in node.children %}{{ render(child) }}{% endfor %}`.

  The built-in `void` template is exactly that loop.

## Model

| member | source | states |
|---|---|---|
| Tree.Lookup | src/coral/__init__.py:48-56 | `node.attr` succeeds iff the node or some ancestor defines the key; the value is the nearest definer's (the node's own first, so it shadows its ancestors); otherwise it fails with the missing key |
| Tree.LookupWalk | src/coral/__init__.py:48-56 | the loop that climbs parent by parent computes exactly the recursive lookup |
| Tree.LookupNearest | src/coral/__init__.py:48-56 | if entry i defines the key and no entry below it does, lookup returns entry i's value |
| Tree.LookupIn | src/coral/__init__.py:48-53 | `__getattr__` on a node: its own attribute when it has one, otherwise whatever the parent's lookup gives |
| Tree.Construct | src/coral/__init__.py:41-46 | `Node(**attributes, children=...)` fails exactly when `children` or `self` is among the keyword attributes: `children` clashes with the explicit keyword where the call is made, so it is the error when both are present; `self` clashes with the constructor's first parameter |
| Tree.ConstructAdopts | src/coral/__init__.py:41-46 | the new node has no `children` or `self` attribute and keeps the children in order; as a root (parent None) it resolves exactly its own keys; each child resolves a key it lacks through the new node |
| Tree.ChildDelegatesToParent | src/coral/__init__.py:48-56 | at any position, a child resolves a key it defines to its own value, and any other key to whatever its parent resolves |
| Tree.InheritedNameExample | tests/test_coral.py:123-130 | the root and `child1` resolve their own `name`; the empty second child resolves the root's |
| Builders.Strip | src/coral/__init__.py:109 | `str.strip()`: the result is a slice of the input with only whitespace cut off either end, and it neither starts nor ends with whitespace |
| Builders.StripAllSpace | src/coral/__init__.py:109 | text made only of whitespace strips to "" |
| Builders.BuildXml | src/coral/__init__.py:104-111 | succeeds iff no element has a `children` or a `self` XML attribute; a failure is one of those two clashes, and it is the `children` clash when no element has `self`, the `self` clash when no element has `children`; the attributes are the XML attributes plus `tag` and `text`; one child per child element, in document order; every node defines `tag` and `text` |
| Builders.XmlAttributes | src/coral/__init__.py:106-110 | the keys are the XML attributes' plus `tag` and `text`; `tag` is the element's tag and `text` its stripped text (or ""), overriding XML attributes of those names; every other XML attribute keeps its string value |
| Builders.BuildXmlList | src/coral/__init__.py:105 | the child elements are built left to right, one node each; the list builds iff no element in it has a `children` or `self` attribute, and the error kinds are as for one element |
| Builders.XmlExample | tests/test_coral.py:150-166 | the root's whitespace-only text becomes ""; `child1` keeps its own `name`; `child2` takes the root's and keeps its own tag |
| Builders.BuildJson | src/coral/__init__.py:90-95 | a non-object gives no node; an object gives a node whose attributes are its keys other than `children`; children come from the `children` array in order, none when it is absent; a `children` value that is not iterable fails first; then a `self` key fails; then a non-object entry fails |
| Builders.BuildJsonList | src/coral/__init__.py:93 | the `children` entries are built in order; the result is Ok iff each entry builds |
| Builders.Adopt | src/coral/__init__.py:94 | the constructor call succeeds iff the object has no `self` key and every entry built a node; the `self` clash is reported before a non-object entry, because the keywords are bound before the body adopts the children; the node keeps the object's keys other than `children` and the built children in order |
| Builders.JsonRoundTrip | src/coral/__init__.py:90-95 | building from the JSON form (children under `children`) of a tree that uses neither `children` nor `self` as an attribute gives the tree back |
| Builders.JsonExample | tests/test_coral.py:133-147 | the `{}` child resolves the root's `name`; `child1` resolves its own |
| Visitors.Traverse | src/coral/__init__.py:69-72 | a successful traversal keeps the node's child count, and its root holds what the visit returned |
| Visitors.TraverseAll | src/coral/__init__.py:71-72 | the children's traversals succeed iff each one does, with results in order; a failure is the first failing child's |
| Visitors.VisitsInPreOrder | src/coral/__init__.py:69-72 | a successful traversal calls `visit` exactly once per node, in pre-order (node before descendants, children left to right), and every call succeeds |
| Visitors.VisitsInPreOrderAll | src/coral/__init__.py:71-72 | the same for a list of siblings: their pre-orders concatenated |
| Visitors.StopsAtFirstFailure | src/coral/__init__.py:69-72 | a failed traversal ends at the first failing visit; every earlier visit succeeded, and the error is that visit's |
| Visitors.StopsAtFirstFailureAll | src/coral/__init__.py:71-72 | the same for a list of siblings |
| Visitors.TraverseKeepsShape | src/coral/__init__.py:69-72 | visiting changes attributes only, never the tree's shape |
| Visitors.VisitSeesUpdatedAncestors | src/coral/__init__.py:69-72 | every node is visited after its ancestors, and its visit sees their already-updated attributes |
| Visitors.TraverseKeepsKey | src/coral/__init__.py:69-72 | with a visitor that never removes `key`, every node still defines `key` after the traversal |
| Visitors.TraverseSparesKey | src/coral/__init__.py:69-72 | with a visitor that never fails with `err` on a node defining `key`, a traversal of a tree whose nodes all define `key` never fails with `err` |
| Visitors.CompositeKeepsKey | src/coral/__init__.py:79-81 | the composite of key-keeping visitors keeps `key` defined on every node |
| Visitors.CompositeSparesKey | src/coral/__init__.py:79-81 | the composite of such visitors never fails with `err` on such a tree |
| Visitors.CompositeSplit | src/coral/__init__.py:79-81 | running a list of visitors is running its first part, then its second part on the tree the first part left |
| Visitors.PassesRunInOrder | src/coral/__init__.py:79-81 | visitor i's whole traversal is the i-th block of the composite's calls; it runs on the tree visitors 0..i-1 left, after all their visits and before any of visitor i+1's |
| Visitors.RestLength | src/coral/__init__.py:79-81 | a successful composite makes one visit per node per visitor |
| Visitors.Composite | src/coral/__init__.py:79-81 | each visitor's whole traversal runs on the tree the previous one left; the resulting tree has the original's shape |
| SearchPath.FirstDir | src/coral/__init__.py:156-158 | the index of the first directory holding the file, or none when no directory does |
| SearchPath.Find | src/coral/__init__.py:156-161 | a file is found iff some directory holds it, and its content is the first such directory's |
| SearchPath.FirstDirectoryWins | src/coral/__init__.py:156-172 | directories after the first one holding the file are never consulted |
| Resolution.RenderKeys | src/coral/__init__.py:141-146 | the key set is kept; non-string values and unlisted keys are unchanged; string values stay strings; a failure is the engine's |
| Resolution.RenderKeysInOrder | src/coral/__init__.py:141-146 | each string attribute becomes the rendering of its original text against the node; the keys before it are already rendered, the keys after it are not yet |
| Resolution.RenderedVisit | src/coral/__init__.py:140-146 | one visit keeps the key set, leaves non-string values alone, and replaces each string value by its rendering against the node |
| Resolution.RendererKeepsKeys | src/coral/__init__.py:140-146 | the renderer never removes an attribute |
| Resolution.RendererSparesKeys | src/coral/__init__.py:140-146 | the renderer fails only when the engine does, never for a missing attribute |
| Resolution.AttributeRenderer | src/coral/__init__.py:140-146 | a visit keeps the node's key set, leaves every non-string value as it was, and fails only with the engine's failure |
| Resolution.UnchangedWhenFixed | src/coral/__init__.py:141-146 | attributes whose strings all render to themselves come out unchanged |
| Resolution.InheritedTemplateExample | tests/test_coral.py:185-200 | `"{{ node.name }}'s child"` under a root named "root" becomes "root's child" (with an engine that resolves `node.name` through lookup) |
| Resolution.Merge | src/coral/__init__.py:170-171 | `update` with each mapping in list order: the keys are the union; a key takes its value from the last mapping that has it, otherwise it keeps its old value |
| Resolution.YamlVisit | src/coral/__init__.py:155-172 | with no directories the node is unchanged and `tag` is never read; the visit never removes a key; a failure is a missing tag, the engine's failure, or a malformed file |
| Resolution.YamlVisitCases | src/coral/__init__.py:155-172 | `tag` names the file; no file leaves the node alone; only the first directory's file counts; its text is rendered against the node and parsed; empty content leaves the node alone; mappings are merged over the attributes |
| Resolution.YamlKeepsKeys | src/coral/__init__.py:170-171 | the attribute-file visitor never removes an attribute |
| Resolution.YamlSparesTag | src/coral/__init__.py:157 | a node with its own `tag` never fails for want of one |
| Resolution.YamlAttributes | src/coral/__init__.py:150-172 | a visit never removes an attribute, never fails for want of a tag on a node with its own, and with no directories changes nothing |
| Render.Registry | src/coral/__init__.py:197-200 | the caller's templates with the built-in `void` installed, replacing any caller-supplied `void`; every other entry is kept |
| Render.SelectTemplate | src/coral/__init__.py:209-215 | a string tag in the inline table selects its inline template; a list or mapping tag cannot be a table key; otherwise, with an empty search path the engine has no file loader and fails; with a search path, `{tag}.j2` comes from the first directory holding it, or the render fails naming it |
| Render.FileName | src/coral/__init__.py:215 | the template file for a string tag is the tag followed by `.j2`; every template file name ends in `.j2` |
| Render.RenderNode | src/coral/__init__.py:206-224 | a node whose tag cannot be found, or whose template cannot be selected, fails before anything is written; a node with `coral-to` that renders wrote its text to that path as the last write |
| Render.EvalPiece | src/coral/__init__.py:206-213 | literal text prints itself; `{{ node.key }}` writes nothing and prints the node's own value, or else the ancestors' value, or fails with the missing key |
| Render.EvalConcatenates | src/coral/__init__.py:206-213 | a template succeeds iff each piece does, and then prints the pieces' texts back to back with their writes in order; otherwise it fails as its first failing piece does |
| Render.SequenceSucceeds | src/coral/__init__.py:198-200 | outcomes run one after another succeed iff each does; the result is their texts and writes concatenated (`Flatten`) |
| Render.SequenceFails | src/coral/__init__.py:198-200 | a failed run fails as its first failing outcome does, keeping the writes up to and including that one's |
| Render.Passes | src/coral/__init__.py:184-191 | the generator runs two passes; neither removes an attribute, and neither fails for want of a tag on a node that has its own |
| Render.ChildrenConcatenate | src/coral/__init__.py:198-200 | rendering the children is each child's render, concatenated in order (texts and writes); the first failing child's error ends it |
| Render.VoidConcatenates | src/coral/__init__.py:197-200 | with `void` as registered by the generator, whatever the caller supplied under that name, a node without its own `coral-to` renders as the concatenation of its children's renders, writes included |
| Render.CoralToWritesLast | src/coral/__init__.py:206-224 | with an own `coral-to` path, a successful render returns the text it wrote; that write is the last one, after every write its template made (its children's among them); a non-path `coral-to` fails; without `coral-to` the node writes nothing itself |
| Render.InlineIgnoresFiles | src/coral/__init__.py:209-215 | when every tag has an inline template, the `.j2` files and the search path do not affect the render |
| Render.TagAlwaysFound | src/coral/__init__.py:209 | a tree whose every node has its own `tag` never fails for want of one |
| Render.Generate | src/coral/__init__.py:176-228 | an XML `children` or `self` attribute fails the generator before anything is written, with the `children` clash when no element has `self` and the `self` clash when no element has `children` |
| Render.GenerateFindsTags | src/coral/__init__.py:176-228 | generation never fails for a missing `tag`, because every XML element carries its tag and neither resolution pass drops or misses it |
| GeneratorExamples.AttributeFileExample | tests/test_coral.py:231-243 | `<person name="Mauro">` with `person.yaml` holding `- age: 37` and a `person.j2` printing name and age generates "My name is Mauro and I am 37 years old." and writes no file |
| Utils.FlattenLoop | src/coral/utils.py:15 | the nested comprehension loop computes exactly `Flatten` |
| Utils.FlattenLength | src/coral/utils.py:15 | the result is as long as all inner lists together |
| Utils.FlattenAppend | src/coral/utils.py:15 | `flatten(a + b) == flatten(a) + flatten(b)` |
| Utils.FlattenSkipsEmpty | src/coral/utils.py:15 | the empty outer list flattens to nothing, and an empty inner list contributes nothing |
| Utils.FlattenMembership | src/coral/utils.py:15 | an element occurs in the result iff it occurs in some inner list |
| Utils.FlattenExample | src/coral/utils.py:11-13 | `[[1, 2], [3, 4], [5]]` becomes `[1, 2, 3, 4, 5]`, and `[[1, 2, 3], [4, 5, 6]]` becomes `[1, ..., 6]` |

## Left out

- Jinja itself is not modelled: expression evaluation, filters, whitespace control, and how it treats a failed attribute lookup.
  - Inline attribute templates are an uninterpreted `StringRenderer`.
  - Code-generation templates are the three-piece `Template` datatype.
  - A missing attribute in an `Attr` piece is modelled as an error; Jinja may render it otherwise.
- Parsing and file I/O are replaced by parsed inputs, a file map and a write log, because they are foreign code. That covers:
  - `ET.fromstring`, `ET.parse`, `json.load` and `yaml.safe_load`;
  - `os.path.exists` and `open`;
  - `mkdir` and `write_text`.
  - The "Saved to" print is not modelled.
- `build_from_file` on both builders is left out: it only parses a file and calls `build`.
- `prepare_paths`, `apply_functions`, `remove_dups`, `iter_tree` and `map_func` are left out.
  - `Path.resolve()` depends on the file system and the working directory.
  - The search path is a parameter shared by the attribute files and the templates.
- `Settings`, `PrintNodeVisitor` and `Node.__str__` are left out: they are debug output or trivial.
- Python's `str()` of non-string values is the `show` parameter, and dict iteration order is the `KeyOrder` parameter. Maps do not record insertion order.
- Resolution.AttributeRenderer: the key order (`KeyOrder`) depends only on the attribute map's contents. Two nodes with equal maps whose XML attributes came in different orders are rendered in the same key order. Python renders them in their own orders, so when one attribute's template reads another (`<a x="{{ node.y }}" y="Y{{ node.x }}"/>` against `<a y="Y{{ node.x }}" x="{{ node.y }}"/>`), Python can give the two nodes different results where the model gives the same.
- Floating-point attribute values are left out; numbers are integers.
- `os.path.join` with an absolute tag, and the template loader's name checks, are not modelled. File names are joined as the pair (directory, name).
- A `coral-to` value is written as given. `Path` normalisation and the error for an empty or directory path are not modelled.
- Tree.Lookup: a node reaches only its ancestors' attribute maps, not sibling nodes through `parent.children`. Attributes named `attributes`, `children` or `parent`, and method names, which Python resolves before `__getattr__`, are not modelled.
- Tree.ConstructAdopts: a child node is a value, so one node cannot be adopted by two parents. In Python, a node passed to two constructors keeps the parent it was given last (`child.parent = self`) and then resolves missing keys through that parent. This is not modelled.
- Visitors that restructure `children` are not modelled; a visitor returns only the node's new attribute map.
- Render.Generate: the side effect of installing `void` into the caller's own template dict is not modelled.
- Resolution.InheritedTemplateExample assumes an engine that resolves `{{ node.name }}` by attribute lookup. It does not claim how Jinja evaluates it.
