/**
 * The page components of the OpenWorld documentation generator (`docsgen/docs.py`):
 * the breadcrumb trail of a page, the code block that shows how a class is
 * constructed, and the choice a class page makes of the constructor it shows.
 */
module OwDocsgenDocs {
  import opened Wrappers
  import opened Text
  import opened DocsgenUtil
  import opened OwDocsgenModels

  const BREADCRUMB_SEPARATOR := " / "
  const MARKDOWN_CODE_BLOCK_PREFIX := "```python "
  const MARKDOWN_CODE_BLOCK_SUFFIX := "```"
  const OPENING_PARANTHESIS := "("
  const CLOSING_PARANTHESIS := ")"
  const INIT := "__init__"
  const ENUM := "Enum"

  /* ------------------------------------------------------------- breadcrumbs */

  /** `Breadcrumbs(current, previous)`: the previous levels and then the current one, joined by ` / `. */
  function Breadcrumbs(current: string, previous: seq<string>): string {
    Join(previous + [current], BREADCRUMB_SEPARATOR)
  }

  /** The trail ends with the current level, after the previous levels and one separator when there are any. */
  lemma BreadcrumbsShape(current: string, previous: seq<string>)
    ensures previous == [] ==> Breadcrumbs(current, previous) == current
    ensures previous != [] ==>
              Breadcrumbs(current, previous) == Join(previous, BREADCRUMB_SEPARATOR) + BREADCRUMB_SEPARATOR + current
    ensures EndsWith(Breadcrumbs(current, previous), current)
  {
    var r := Breadcrumbs(current, previous);
    if previous != [] {
      JoinSnoc(previous, current, BREADCRUMB_SEPARATOR);
    } else {
      assert previous + [current] == [current];
    }
    assert r[|r| - |current|..] == current;
  }

  /* ------------------------------------------------------------- constructor */

  /** A constructor parameter as the component shows it. */
  datatype Param = Param(name: string, typeHint: string)

  /** `ConstructorComponent(classname, params)` */
  datatype Constructor = Constructor(classname: string, params: seq<Param>)

  function ParamLine(p: Param): string {
    "\t" + p.name + ": " + p.typeHint + ","
  }

  function ParamLines(params: seq<Param>): (r: seq<string>)
    ensures |r| == |params|
    ensures forall i :: 0 <= i < |params| ==> r[i] == ParamLine(params[i])
  {
    seq(|params|, i requires 0 <= i < |params| => ParamLine(params[i]))
  }

  /** The lines `ConstructorComponent.__str__` joins. */
  function ConstructorLines(c: Constructor): seq<string> {
    if c.params != [] then
      [MARKDOWN_CODE_BLOCK_PREFIX, c.classname + OPENING_PARANTHESIS] + ParamLines(c.params)
      + [CLOSING_PARANTHESIS, MARKDOWN_CODE_BLOCK_SUFFIX]
    else
      [MARKDOWN_CODE_BLOCK_PREFIX, c.classname + OPENING_PARANTHESIS + CLOSING_PARANTHESIS, MARKDOWN_CODE_BLOCK_SUFFIX]
  }

  /** `ConstructorComponent.__str__` */
  function ConstructorText(c: Constructor): string {
    Join(ConstructorLines(c), "\n")
  }

  /** Without parameters the code block holds the single line `Name()`. */
  lemma ConstructorWithoutParams(c: Constructor)
    requires c.params == []
    ensures ConstructorText(c) == MARKDOWN_CODE_BLOCK_PREFIX + "\n" + c.classname + "()" + "\n" + MARKDOWN_CODE_BLOCK_SUFFIX
  {
    var lines := ConstructorLines(c);
    JoinCons(lines[0], lines[1..], "\n");
    JoinCons(lines[1], lines[2..], "\n");
    assert lines[1..] == [lines[1]] + lines[2..];
    assert lines == [lines[0]] + lines[1..];
  }

  /**
   * With parameters, splitting the rendered block at its newlines gives back the
   * fence, `Name(`, one `\tname: type,` line per parameter in order, `)` and the
   * closing fence, as long as no name or type holds a newline.
   */
  lemma ConstructorWithParams(c: Constructor)
    requires c.params != []
    requires '\n' !in c.classname
    requires forall i :: 0 <= i < |c.params| ==> '\n' !in c.params[i].name && '\n' !in c.params[i].typeHint
    ensures var lines := Split(ConstructorText(c), '\n');
      && |lines| == |c.params| + 4
      && lines[0] == MARKDOWN_CODE_BLOCK_PREFIX && lines[1] == c.classname + OPENING_PARANTHESIS
      && (forall i :: 0 <= i < |c.params| ==> lines[i + 2] == ParamLine(c.params[i]))
      && lines[|lines| - 2] == CLOSING_PARANTHESIS && lines[|lines| - 1] == MARKDOWN_CODE_BLOCK_SUFFIX
  {
    var lines := ConstructorLines(c);
    forall i | 0 <= i < |lines| ensures '\n' !in lines[i] {
      if 2 <= i < |lines| - 2 {
        var p := c.params[i - 2];
        assert lines[i] == "\t" + p.name + ": " + p.typeHint + ",";
      }
    }
    SplitOfJoin(lines, '\n');
  }

  /* ----------------------------------------------------------- class page */

  /** `ClassComponent`: the page of one class. */
  datatype ClassComponent = ClassComponent(name: string, ctor: Constructor, breadcrumbs: string,
                                           file: string, class_: Class)

  /** The index of the first method named `__init__`, or -1. */
  function InitIndex(methods: seq<Method>): (k: int)
    ensures -1 <= k < |methods|
    ensures k >= 0 ==> methods[k].name == INIT
    ensures forall j :: 0 <= j < |methods| && (k < 0 || j < k) ==> methods[j].name != INIT
  {
    if methods == [] then -1
    else if methods[0].name == INIT then 0
    else
      var k := InitIndex(methods[1..]);
      if k < 0 then -1 else k + 1
  }

  /** `init[0][1]` of the class page: the first `__init__` method, if any. */
  function FirstInit(methods: seq<Method>): Option<Method> {
    var k := InitIndex(methods);
    if k < 0 then None else Some(methods[k])
  }

  function ArgumentParams(args: seq<Argument>): (r: seq<Param>)
    ensures |r| == |args|
    ensures forall i :: 0 <= i < |args| ==> r[i] == Param(args[i].name, args[i].typeHint)
  {
    seq(|args|, i requires 0 <= i < |args| => Param(args[i].name, args[i].typeHint))
  }

  function AttributeParams(attrs: seq<Attribute>): (r: seq<Param>)
    ensures |r| == |attrs|
    ensures forall i :: 0 <= i < |attrs| ==> r[i] == Param(attrs[i].name, attrs[i].typeHint)
  {
    seq(|attrs|, i requires 0 <= i < |attrs| => Param(attrs[i].name, attrs[i].typeHint))
  }

  /** A link to a page: `[name](./file)`. */
  function PageLink(name: string, file: string): string {
    "[" + name + "](./" + file + ")"
  }

  /**
   * `ClassComponent(class_, parent_breadcrumb)`: the page file, the trail under the
   * parent's, the constructor shown (the first `__init__`'s arguments, else the
   * attributes; none for an enum) and the class description, which an `__init__`
   * docstring replaces when the class has none.
   */
  function NewClassComponent(c: Class, parentBreadcrumbs: string): ClassComponent {
    var name := c.name;
    var file := name + MARKDOWN_SUFFIX;
    var init := FirstInit(c.methods);
    var params := if init.Some? then ArgumentParams(init.value.arguments) else AttributeParams(c.attributes);
    var shown := if ENUM in c.bases then Constructor(c.name, []) else Constructor(name, params);
    var docstrings :=
      if init.Some? && init.value.docstrings != "" && (c.docstrings == EMPTY_DESCRIPTION_DOCSTRING || c.docstrings == "")
      then init.value.docstrings else c.docstrings;
    ClassComponent(name, shown, Breadcrumbs(PageLink(name, file), [parentBreadcrumbs]), file,
                   c.(docstrings := docstrings))
  }

  /**
   * The class page is `Name.md`, its trail is the parent's followed by a link to
   * that page, an enum shows an empty constructor, otherwise the first `__init__`
   * decides the parameters and the attributes serve only when there is none; the
   * description is replaced by the `__init__` docstring exactly when it is empty or
   * `---` and that docstring is not empty, and nothing else of the class changes.
   */
  lemma ClassComponentShape(c: Class, parentBreadcrumbs: string)
    ensures var r := NewClassComponent(c, parentBreadcrumbs);
      && r.name == c.name && r.file == c.name + MARKDOWN_SUFFIX
      && r.breadcrumbs == parentBreadcrumbs + BREADCRUMB_SEPARATOR + "[" + c.name + "](./" + c.name + ".md)"
      && r.ctor.classname == c.name
      && (ENUM in c.bases ==> r.ctor.params == [])
      && (ENUM !in c.bases && FirstInit(c.methods).Some? ==>
            r.ctor.params == ArgumentParams(FirstInit(c.methods).value.arguments))
      && (ENUM !in c.bases && (forall i :: 0 <= i < |c.methods| ==> c.methods[i].name != INIT) ==>
            r.ctor.params == AttributeParams(c.attributes))
      && (r.class_.docstrings != c.docstrings ==>
            (c.docstrings == EMPTY_DESCRIPTION_DOCSTRING || c.docstrings == "")
            && FirstInit(c.methods).Some? && r.class_.docstrings == FirstInit(c.methods).value.docstrings != "")
      && (FirstInit(c.methods).Some? && FirstInit(c.methods).value.docstrings != ""
          && (c.docstrings == EMPTY_DESCRIPTION_DOCSTRING || c.docstrings == "") ==>
            r.class_.docstrings == FirstInit(c.methods).value.docstrings)
      && r.class_.name == c.name && r.class_.attributes == c.attributes
      && r.class_.methods == c.methods && r.class_.bases == c.bases
  {
    var link := PageLink(c.name, c.name + MARKDOWN_SUFFIX);
    BreadcrumbsShape(link, [parentBreadcrumbs]);
    assert Join([parentBreadcrumbs], BREADCRUMB_SEPARATOR) == parentBreadcrumbs;
  }
}
