/**
 * The documented entities of the ExpediaGroup docs generator: breadcrumb trails,
 * attributes and classes built from parsed sources, modules with their submodules,
 * and the choice of the modules the master document lists.
 */
module EgDocsgenModel {
  import opened Wrappers
  import opened Text
  import opened PyDict
  import opened EgDocsgenUtil

  const OPTIONAL := "Optional"
  const INIT_METHOD := "__init__"
  const NULL_DESCRIPTION := "..."
  const NEW_LINE := "\n"
  /** `str(typing.Any)` */
  const ANY := "typing.Any"

  /* ---------------------------------------------------------------- breadcrumbs */

  /** A breadcrumb: the document's name and the breadcrumb of its parent document. */
  datatype Breadcrumbs = Breadcrumbs(documentName: string, parent: Option<Breadcrumbs>, alias: Option<string>)

  /** The document names from the root of the chain down to `node`, root first. */
  function ChainOf(node: Option<Breadcrumbs>): (r: seq<string>)
    ensures node.Some? ==> |r| > 0 && r[|r| - 1] == node.value.documentName
    decreases node
  {
    match node
    case None => []
    case Some(b) => ChainOf(b.parent) + [b.documentName]
  }

  function Chain(b: Breadcrumbs): seq<string> { ChainOf(Some(b)) }

  /** The breadcrumb at the top of the chain. */
  function Root(b: Breadcrumbs): Breadcrumbs
    decreases b
  {
    if b.parent.None? then b else Root(b.parent.value)
  }

  /** The markdown references of the names, in order. */
  function Refs(names: seq<string>): (r: seq<string>)
    ensures |r| == |names|
    ensures forall i :: 0 <= i < |names| ==> r[i] == ToMarkdownFileRef(names[i])
  {
    if names == [] then [] else [ToMarkdownFileRef(names[0])] + Refs(names[1..])
  }

  const TRAIL_SEPARATOR := " / "

  /** The trail: a reference to every document of the chain, root first, joined by " / ". */
  function Trail(b: Breadcrumbs): string { Join(Refs(Chain(b)), TRAIL_SEPARATOR) }

  /**
   * `Breadcrumbs.__str__`: starts from a reference to the document itself and walks up
   * the parent chain, putting each ancestor's reference in front.
   */
  method BreadcrumbsString(b: Breadcrumbs) returns (r: string)
    ensures r == Trail(b)
  {
    r := ToMarkdownFileRef(b.documentName);
    var node := b.parent;
    ghost var done := [b.documentName];
    assert Refs(done) == [r];
    assert Chain(b) == ChainOf(node) + done;
    while node.Some?
      invariant done != [] && Chain(b) == ChainOf(node) + done
      invariant r == Join(Refs(done), TRAIL_SEPARATOR)
      decreases node
    {
      var n := node.value;
      ChainStep(n, done);
      RefsCons(n.documentName, done);
      JoinCons(ToMarkdownFileRef(n.documentName), Refs(done), TRAIL_SEPARATOR);
      r := ToMarkdownFileRef(n.documentName) + TRAIL_SEPARATOR + r;
      done := [n.documentName] + done;
      node := n.parent;
    }
    assert ChainOf(node) == [];
    assert Chain(b) == done;
  }

  lemma ChainStep(n: Breadcrumbs, done: seq<string>)
    ensures ChainOf(Some(n)) + done == ChainOf(n.parent) + ([n.documentName] + done)
  {
  }

  lemma RefsCons(x: string, names: seq<string>)
    ensures Refs([x] + names) == [ToMarkdownFileRef(x)] + Refs(names)
  {
    assert ([x] + names)[1..] == names;
  }

  lemma {:induction false} JoinStartsWithFirst(parts: seq<string>, sep: string)
    requires parts != []
    ensures StartsWith(Join(parts, sep), parts[0])
  {
  }

  lemma {:induction false} JoinSnoc(parts: seq<string>, last: string, sep: string)
    requires parts != []
    ensures Join(parts + [last], sep) == Join(parts, sep) + sep + last
    decreases |parts|
  {
    if |parts| > 1 {
      assert (parts + [last])[1..] == parts[1..] + [last];
      JoinSnoc(parts[1..], last, sep);
    }
  }

  lemma {:induction false} ChainStartsAtRoot(b: Breadcrumbs)
    ensures Chain(b)[0] == Root(b).documentName
    decreases b
  {
    var rest := ChainOf(b.parent);
    assert Chain(b) == rest + [b.documentName];
    if b.parent.Some? {
      ChainStartsAtRoot(b.parent.value);
      assert rest == Chain(b.parent.value);
      assert (rest + [b.documentName])[0] == rest[0];
    }
  }

  /**
   * The trail of a document without a parent is its own reference; the trail of a
   * child is its parent's trail, " / ", and its own reference.
   */
  lemma TrailExtends(name: string, parent: Option<Breadcrumbs>, alias: Option<string>)
    ensures parent.None? ==> Trail(Breadcrumbs(name, parent, alias)) == ToMarkdownFileRef(name)
    ensures parent.Some? ==>
              Trail(Breadcrumbs(name, parent, alias)) == Trail(parent.value) + TRAIL_SEPARATOR + ToMarkdownFileRef(name)
  {
    var b := Breadcrumbs(name, parent, alias);
    assert Chain(b) == ChainOf(parent) + [name];
    if parent.Some? {
      RefsSnoc(Chain(parent.value), name);
      JoinSnoc(Refs(Chain(parent.value)), ToMarkdownFileRef(name), TRAIL_SEPARATOR);
    } else {
      assert Refs([name]) == [ToMarkdownFileRef(name)];
    }
  }

  lemma RefsSnoc(names: seq<string>, x: string)
    ensures Refs(names + [x]) == Refs(names) + [ToMarkdownFileRef(x)]
  {
    assert forall i :: 0 <= i < |names| + 1 ==> Refs(names + [x])[i] == (Refs(names) + [ToMarkdownFileRef(x)])[i];
  }

  /** The trail starts with the root's reference and ends with the document's own. */
  lemma TrailEnds(b: Breadcrumbs)
    ensures StartsWith(Trail(b), ToMarkdownFileRef(Root(b).documentName))
    ensures EndsWith(Trail(b), ToMarkdownFileRef(b.documentName))
  {
    ChainStartsAtRoot(b);
    JoinStartsWithFirst(Refs(Chain(b)), TRAIL_SEPARATOR);
    TrailExtends(b.documentName, b.parent, b.alias);
  }

  /* ----------------------------------------------------------------- attributes */

  /** A `docspec.Variable` as the builders read it; `docstring` is its content. */
  datatype DocspecVariable = DocspecVariable(name: string, dataType: Option<string>, value: Option<string>,
                                             docstring: Option<string>)

  /** An attribute or argument of the documentation; `dataType` is the source's `datatype`. */
  datatype Attribute = Attribute(name: string, description: string, dataType: string, isOptional: bool,
                                 defaultValue: Option<string>)

  /** The builder on a variable that is present. */
  function AttributeOf(v: DocspecVariable): Attribute
  {
    var dataType := if v.dataType.None? || v.dataType == Some("") then ANY else v.dataType.value;
    Attribute(v.name, v.docstring.GetOr(NULL_DESCRIPTION), dataType, StartsWith(dataType, OPTIONAL), v.value)
  }

  /**
   * `Attribute.from_`: `None` raises `ValueError("None")`; a missing or empty datatype
   * becomes `typing.Any`, and the attribute is optional exactly when its datatype
   * starts with "Optional".
   */
  function AttributeFrom(other: Option<DocspecVariable>): (r: Result<Attribute, string>)
    ensures other.None? <==> r == Err("None")
    ensures r.Ok? ==> r.value.name == other.value.name && r.value.defaultValue == other.value.value
    ensures r.Ok? ==> (r.value.isOptional <==> other.value.dataType.Some? && StartsWith(other.value.dataType.value, OPTIONAL))
    ensures r.Ok? && (other.value.dataType.None? || other.value.dataType == Some("")) ==> r.value.dataType == ANY
    ensures r.Ok? && other.value.dataType.Some? && other.value.dataType != Some("") ==>
              r.value.dataType == other.value.dataType.value
  {
    if other.None? then Err("None")
    else
      assert !StartsWith(ANY, OPTIONAL) by { assert ANY[0] != OPTIONAL[0]; }
      Ok(AttributeOf(other.value))
  }

  /* ------------------------------------------------------------ stable sorting */

  predicate SortedByName(s: seq<Attribute>) {
    forall i, j :: 0 <= i < j < |s| ==> StrLe(s[i].name, s[j].name)
  }

  lemma SortedTail(s: seq<Attribute>)
    requires SortedByName(s) && s != []
    ensures SortedByName(s[1..])
  {
    forall i, j | 0 <= i < j < |s| - 1 ensures StrLe(s[1..][i].name, s[1..][j].name) {
      assert s[1..][i] == s[i + 1] && s[1..][j] == s[j + 1];
    }
  }

  /** The attributes named `k`, in order. */
  function WithName(s: seq<Attribute>, k: string): seq<Attribute>
  {
    if s == [] then [] else (if s[0].name == k then [s[0]] else []) + WithName(s[1..], k)
  }

  /** Puts `x` after every attribute whose name is not greater than its own. */
  function Insert(x: Attribute, s: seq<Attribute>): seq<Attribute>
  {
    if s == [] then [x]
    else if StrLe(s[0].name, x.name) then [s[0]] + Insert(x, s[1..])
    else [x] + s
  }

  lemma {:induction false} InsertPermutes(x: Attribute, s: seq<Attribute>)
    ensures multiset(Insert(x, s)) == multiset(s) + multiset{x}
    decreases |s|
  {
    if s != [] {
      assert s == [s[0]] + s[1..];
      if StrLe(s[0].name, x.name) {
        InsertPermutes(x, s[1..]);
      }
    }
  }

  lemma {:induction false} InsertSorted(x: Attribute, s: seq<Attribute>)
    requires SortedByName(s)
    ensures SortedByName(Insert(x, s))
    decreases |s|
  {
    if s != [] {
      if StrLe(s[0].name, x.name) {
        SortedTail(s);
        InsertSorted(x, s[1..]);
        InsertPermutes(x, s[1..]);
        var t := Insert(x, s[1..]);
        forall j | 0 <= j < |t| ensures StrLe(s[0].name, t[j].name) {
          assert t[j] in multiset(t);
          if t[j] != x {
            assert t[j] in s[1..];
          }
        }
        SortedCons(s[0], t);
      } else {
        StrLeTotal(s[0].name, x.name);
        forall j | 0 <= j < |s| ensures StrLe(x.name, s[j].name) {
          if j > 0 {
            StrLeTrans(x.name, s[0].name, s[j].name);
          }
        }
        SortedCons(x, s);
      }
    }
  }

  lemma SortedCons(a: Attribute, t: seq<Attribute>)
    requires SortedByName(t) && forall j :: 0 <= j < |t| ==> StrLe(a.name, t[j].name)
    ensures SortedByName([a] + t)
  {
    var r := [a] + t;
    forall i, j | 0 <= i < j < |r| ensures StrLe(r[i].name, r[j].name) {
      assert r[j] == t[j - 1];
      if i > 0 {
        assert r[i] == t[i - 1];
      }
    }
  }

  lemma {:induction false} WithNameConcat(a: seq<Attribute>, b: seq<Attribute>, k: string)
    ensures WithName(a + b, k) == WithName(a, k) + WithName(b, k)
    decreases |a|
  {
    if a != [] {
      assert (a + b)[0] == a[0];
      assert (a + b)[1..] == a[1..] + b;
      assert WithName(a + b, k) == (if a[0].name == k then [a[0]] else []) + WithName(a[1..] + b, k);
      WithNameConcat(a[1..], b, k);
    } else {
      assert a + b == b;
    }
  }

  lemma {:induction false} WithNameNone(s: seq<Attribute>, k: string)
    requires forall i :: 0 <= i < |s| ==> s[i].name != k
    ensures WithName(s, k) == []
    decreases |s|
  {
    if s != [] {
      WithNameNone(s[1..], k);
    }
  }

  /** `x` lands after every attribute of its own name. */
  lemma {:induction false} InsertStable(x: Attribute, s: seq<Attribute>, k: string)
    requires SortedByName(s)
    ensures WithName(Insert(x, s), k) == WithName(s, k) + WithName([x], k)
    decreases |s|
  {
    if s == [] {
      assert WithName(s, k) == [];
    } else if StrLe(s[0].name, x.name) {
      var t := Insert(x, s[1..]);
      SortedTail(s);
      InsertStable(x, s[1..], k);
      assert Insert(x, s) == [s[0]] + t;
      WithNameCons(s[0], t, s[1..], [x], k);
      assert [s[0]] + s[1..] == s;
    } else {
      assert Insert(x, s) == [x] + s;
      WithNameConcat([x], s, k);
      if x.name == k {
        NoneNamedBelow(x, s);
      } else {
        assert WithName([x], k) == [];
      }
    }
  }

  lemma WithNameCons(a: Attribute, t: seq<Attribute>, u: seq<Attribute>, v: seq<Attribute>, k: string)
    requires WithName(t, k) == WithName(u, k) + WithName(v, k)
    ensures WithName([a] + t, k) == WithName([a] + u, k) + WithName(v, k)
  {
    WithNameConcat([a], t, k);
    WithNameConcat([a], u, k);
  }

  /** No attribute of a sorted list that starts above `x`'s name carries that name. */
  lemma NoneNamedBelow(x: Attribute, s: seq<Attribute>)
    requires SortedByName(s) && s != [] && !StrLe(s[0].name, x.name)
    ensures WithName(s, x.name) == []
  {
    forall i | 0 <= i < |s| ensures s[i].name != x.name {
      if i == 0 {
        StrLeTotal(s[0].name, s[0].name);
      }
    }
    WithNameNone(s, x.name);
  }

  /** `list.sort(key=lambda a: a.name)`: a permutation of the input. */
  function SortByName(s: seq<Attribute>): (r: seq<Attribute>)
    ensures multiset(r) == multiset(s)
    decreases |s|
  {
    if s == [] then []
    else
      var n := |s| - 1;
      var t := SortByName(s[..n]);
      InsertPermutes(s[n], t);
      assert s == s[..n] + [s[n]];
      Insert(s[n], t)
  }

  /** The sort leaves the attributes ordered by name. */
  lemma {:induction false} SortByNameSorted(s: seq<Attribute>)
    ensures SortedByName(SortByName(s))
    decreases |s|
  {
    if s != [] {
      var n := |s| - 1;
      SortByNameSorted(s[..n]);
      InsertSorted(s[n], SortByName(s[..n]));
    }
  }

  /** The sort is stable: the attributes of any one name keep their order. */
  lemma {:induction false} SortStable(s: seq<Attribute>, k: string)
    ensures WithName(SortByName(s), k) == WithName(s, k)
    decreases |s|
  {
    if s != [] {
      var n := |s| - 1;
      var t := SortByName(s[..n]);
      assert SortByName(s) == Insert(s[n], t);
      SortStable(s[..n], k);
      SortByNameSorted(s[..n]);
      InsertStable(s[n], t, k);
      WithNameConcat(s[..n], [s[n]], k);
      assert s[..n] + [s[n]] == s;
    }
  }

  /* -------------------------------------------------------------------- classes */

  /** A documented method; what `Method.from_` makes of a function is taken as given. */
  datatype Method = Method(name: string, description: string, returnType: Option<string>, arguments: seq<Attribute>)

  /** A member of a `docspec.Class`. */
  datatype Member = FunctionMember(def: Method) | VariableMember(variable: DocspecVariable) | OtherMember

  /** A `docspec.Class`; `docstring` is its content. */
  datatype DocspecClass = DocspecClass(name: string, docstring: Option<string>, bases: seq<string>, members: seq<Member>)

  /** A documented class; `ctor` is its constructor. */
  datatype Class = Class(name: string, description: string, ctor: Method, bases: seq<string>,
                         attributes: seq<Attribute>, methods: seq<Method>)

  /** The methods among the members, in order. */
  function Functions(members: seq<Member>): (r: seq<Method>)
    ensures |r| <= |members|
  {
    if members == [] then []
    else (if members[0].FunctionMember? then [members[0].def] else []) + Functions(members[1..])
  }

  /** The attributes built from the variables among the members, in order. */
  function Attributes(members: seq<Member>): seq<Attribute>
  {
    if members == [] then []
    else (if members[0].VariableMember? then [AttributeOf(members[0].variable)] else []) + Attributes(members[1..])
  }

  /** The method's name contains "__init__". */
  predicate IsInit(m: Method) { Contains(m.name, INIT_METHOD) }

  /** The index of the first method whose name contains "__init__", or -1. */
  function FirstInit(methods: seq<Method>): (r: int)
    ensures -1 <= r < |methods|
    ensures r >= 0 ==> IsInit(methods[r])
    ensures forall i :: 0 <= i < |methods| && (r < 0 || i < r) ==> !IsInit(methods[i])
  {
    if methods == [] then -1
    else if IsInit(methods[0]) then 0
    else var k := FirstInit(methods[1..]); if k < 0 then -1 else k + 1
  }

  /**
   * `Class.from_`: the first method whose name contains "__init__" becomes the
   * constructor, renamed to the class and removed from the methods, its description
   * appended to the class's; without one the constructor takes the attributes, or
   * nothing for an Enum. The attributes are sorted by name.
   */
  function ClassFrom(other: Option<DocspecClass>): (r: Result<Class, string>)
    ensures other.None? <==> r == Err("None")
    ensures r.Ok? ==> r.value.name == other.value.name && r.value.bases == other.value.bases
    ensures r.Ok? ==> r.value.ctor.name == other.value.name
    ensures r.Ok? ==> multiset(r.value.attributes) == multiset(Attributes(other.value.members))
  {
    if other.None? then Err("None")
    else
      var c := other.value;
      var methods := Functions(c.members);
      var attributes := Attributes(c.members);
      var isEnum := "Enum" in c.bases;
      var description := c.docstring.GetOr("");
      var index := FirstInit(methods);
      if index >= 0 then
        var init := methods[index];
        var description := if init.description != "" then description + NEW_LINE + init.description else description;
        Ok(Class(c.name, description, init.(name := c.name), c.bases, SortByName(attributes),
                 methods[..index] + methods[index + 1..]))
      else
        var ctor := Method(c.name, "", Some(""), if isEnum then [] else attributes);
        Ok(Class(c.name, description, ctor, c.bases, SortByName(attributes), methods))
  }

  /** The class's attributes come out sorted by name. */
  lemma ClassAttributesSorted(c: DocspecClass)
    ensures SortedByName(ClassFrom(Some(c)).value.attributes)
  {
    SortByNameSorted(Attributes(c.members));
  }

  /**
   * The first method whose name contains "__init__" becomes the constructor and
   * leaves the methods; without one the methods stay and the constructor takes the
   * attributes, or nothing for an Enum.
   */
  lemma ClassConstructor(c: DocspecClass)
    ensures var r := ClassFrom(Some(c)).value;
      var fs := Functions(c.members);
      if exists i :: 0 <= i < |fs| && IsInit(fs[i]) then
        exists i :: 0 <= i < |fs| && IsInit(fs[i])
                    && (forall j :: 0 <= j < i ==> !IsInit(fs[j]))
                    && r.ctor == fs[i].(name := c.name)
                    && r.methods == fs[..i] + fs[i + 1..]
      else
        r.methods == fs
        && r.ctor.arguments == (if "Enum" in c.bases then [] else Attributes(c.members))
        && r.ctor.description == "" && r.ctor.returnType == Some("")
  {
    var fs := Functions(c.members);
    var index := FirstInit(fs);
    ClassFromByFirstInit(c);
    if index >= 0 {
      assert IsInit(fs[index]);
    }
  }

  /** `ClassFrom` in terms of the index `FirstInit` finds. */
  lemma ClassFromByFirstInit(c: DocspecClass)
    ensures var r := ClassFrom(Some(c)).value;
      var fs := Functions(c.members);
      var index := FirstInit(fs);
      && (index >= 0 ==> r.ctor == fs[index].(name := c.name) && r.methods == fs[..index] + fs[index + 1..])
      && (index < 0 ==> r.methods == fs
                        && r.ctor.arguments == (if "Enum" in c.bases then [] else Attributes(c.members))
                        && r.ctor.description == "" && r.ctor.returnType == Some(""))
  {
  }

  /** An Enum without an `__init__` method gets a constructor without arguments. */
  lemma EnumConstructorTakesNothing(c: DocspecClass)
    requires "Enum" in c.bases
    requires forall i :: 0 <= i < |c.members| && c.members[i].FunctionMember? ==> !IsInit(c.members[i].def)
    ensures ClassFrom(Some(c)).value.ctor.arguments == []
  {
    NoInitAmongFunctions(c.members);
  }

  lemma {:induction false} NoInitAmongFunctions(members: seq<Member>)
    requires forall i :: 0 <= i < |members| && members[i].FunctionMember? ==> !IsInit(members[i].def)
    ensures forall i :: 0 <= i < |Functions(members)| ==> !IsInit(Functions(members)[i])
    decreases |members|
  {
    if members != [] {
      NoInitAmongFunctions(members[1..]);
    }
  }

  /* -------------------------------------------------------------------- modules */

  /** A documented variable: `value` is the text of its right-hand side. */
  datatype Variable = Variable(name: string, description: string, value: Option<string>)

  /**
   * A documented module. Its name, classes and variables are set when it is built;
   * `submodules` is the list `sync_submodules` appends to.
   */
  class Module {
    const name: string
    const classes: seq<Class>
    const variables: seq<Variable>
    var submodules: seq<Module>

    constructor (name: string, classes: seq<Class>, variables: seq<Variable>)
      ensures this.name == name && this.classes == classes && this.variables == variables
      ensures submodules == []
    {
      this.name := name;
      this.classes := classes;
      this.variables := variables;
      submodules := [];
    }

    /** `sync_submodules`: appends, in order, every module of `modules` that is a direct child of this one. */
    method SyncSubmodules(modules: seq<Module>)
      modifies this
      ensures submodules == old(submodules) + Submodules(modules, name)
    {
      for i := 0 to |modules|
        invariant submodules == old(submodules) + Submodules(modules[..i], name)
      {
        var m := modules[i];
        assert modules[..i + 1][..i] == modules[..i];
        if m.name == name {
          continue;
        }
        if BeforeLast(m.name, '.') == name {
          submodules := submodules + [m];
        }
      }
      assert modules[..|modules|] == modules;
    }
  }

  /** `m` is not `parent` itself and its name up to the last dot is `parent`. */
  predicate IsSubmodule(m: Module, parent: string) {
    m.name != parent && BeforeLast(m.name, '.') == parent
  }

  /** The modules of `ms` that are direct children of `parent`, in order. */
  function Submodules(ms: seq<Module>, parent: string): seq<Module>
  {
    if ms == [] then []
    else Submodules(ms[..|ms| - 1], parent) + (if IsSubmodule(ms[|ms| - 1], parent) then [ms[|ms| - 1]] else [])
  }

  /** A direct child is named `parent` + "." + a name without dots, and nothing else is. */
  lemma SubmoduleName(m: Module, parent: string)
    ensures IsSubmodule(m, parent) <==> exists x :: '.' !in x && m.name == parent + "." + x
  {
    if IsSubmodule(m, parent) {
      SubmoduleHasDot(m, parent);
    }
    if x :| '.' !in x && m.name == parent + "." + x {
      DottedIsSubmodule(m, parent, x);
    }
  }

  lemma SubmoduleHasDot(m: Module, parent: string)
    requires IsSubmodule(m, parent)
    ensures exists x :: '.' !in x && m.name == parent + "." + x
  {
    assert '.' in m.name;
    var x :| m.name == parent + "." + x && '.' !in x;
  }

  lemma DottedIsSubmodule(m: Module, parent: string, x: string)
    requires '.' !in x && m.name == parent + "." + x
    ensures IsSubmodule(m, parent)
  {
    var s := m.name;
    assert s[|parent|] == '.';
    forall k | |parent| < k < |s| ensures s[k] != '.' {
      assert s[k] == x[k - |parent| - 1];
    }
    LastIndexOfAt(s, '.', |parent|);
    assert s[..|parent|] == parent;
    assert |s| > |parent|;
  }

  lemma {:induction false} SubmodulesExactly(ms: seq<Module>, parent: string)
    ensures forall m :: m in Submodules(ms, parent) <==> m in ms && IsSubmodule(m, parent)
    ensures forall m :: m in Submodules(ms, parent) ==> m.name != parent
    decreases |ms|
  {
    if ms != [] {
      var n := |ms| - 1;
      SubmodulesExactly(ms[..n], parent);
      assert ms == ms[..n] + [ms[n]];
    }
  }

  /* ------------------------------------------------------------- master modules */

  /** `{module.name: module for module in modules}`: the last module of each name, at the name's first position. */
  function ByName(ms: seq<Module>): (r: Dict<string, Module>)
    ensures KeysDistinct(r)
  {
    if ms == [] then []
    else
      var d := ByName(ms[..|ms| - 1]);
      SetKeepsDistinct(d, ms[|ms| - 1].name, ms[|ms| - 1]);
      Set(d, ms[|ms| - 1].name, ms[|ms| - 1])
  }

  /** The `has_parent` entries for the keys `ks` of `d`: whether the module's parent name is a key. */
  function ParentFlags(d: Dict<string, Module>, ks: seq<string>): (r: Dict<string, bool>)
    ensures Keys(r) == ks
  {
    if ks == [] then []
    else
      var n := |ks| - 1;
      ParentFlags(d, ks[..n]) + [(ks[n], Get(d, BeforeLast(ks[n], '.')).Some?)]
  }

  /** The modules of `d` whose entry in `flags` is true, in the order of `flags`. */
  function Picked(d: Dict<string, Module>, flags: Dict<string, bool>): seq<Module>
  {
    if flags == [] then []
    else
      var rest := Picked(d, flags[..|flags| - 1]);
      var (k, keep) := flags[|flags| - 1];
      if keep && Get(d, k).Some? then rest + [Get(d, k).value] else rest
  }

  function MasterModules(ms: seq<Module>): seq<Module>
  {
    var d := ByName(ms);
    Picked(d, ParentFlags(d, Keys(d)))
  }

  /**
   * `Master.parse_master_modules`: the modules keyed by name, a flag per name saying
   * whether the name's parent (the name up to its last dot, or the name itself) is a
   * module too, and the flagged modules in the order of their names.
   */
  method ParseMasterModules(modules: seq<Module>) returns (r: seq<Module>)
    ensures r == MasterModules(modules)
  {
    var byName := IndexByName(modules);
    var hasParent := FlagParents(byName);
    r := PickFlagged(byName, hasParent);
  }

  /** The dict comprehension of `parse_master_modules`. */
  method IndexByName(modules: seq<Module>) returns (byName: Dict<string, Module>)
    ensures byName == ByName(modules)
  {
    byName := [];
    for i := 0 to |modules|
      invariant byName == ByName(modules[..i])
    {
      assert modules[..i + 1][..i] == modules[..i];
      byName := Set(byName, modules[i].name, modules[i]);
    }
    assert modules[..|modules|] == modules;
  }

  /** The first loop of `parse_master_modules`, filling `has_parent`. */
  method FlagParents(byName: Dict<string, Module>) returns (hasParent: Dict<string, bool>)
    requires KeysDistinct(byName)
    ensures hasParent == ParentFlags(byName, Keys(byName))
  {
    var names := Keys(byName);
    hasParent := [];
    for i := 0 to |names|
      invariant hasParent == ParentFlags(byName, names[..i])
    {
      var parentModuleName := BeforeLast(names[i], '.');
      assert names[i] !in names[..i] by {
        forall j | 0 <= j < i ensures names[j] != names[i] {
          assert names[j] == byName[j].0;
        }
      }
      assert names[..i + 1][..i] == names[..i];
      hasParent := Set(hasParent, names[i], Get(byName, parentModuleName).Some?);
    }
    assert names[..|names|] == names;
  }

  /** The second loop of `parse_master_modules`, over the `has_parent` items. */
  method PickFlagged(byName: Dict<string, Module>, hasParent: Dict<string, bool>) returns (r: seq<Module>)
    ensures r == Picked(byName, hasParent)
  {
    r := [];
    for i := 0 to |hasParent|
      invariant r == Picked(byName, hasParent[..i])
    {
      assert hasParent[..i + 1][..i] == hasParent[..i];
      var (moduleName, parentDoesExist) := hasParent[i];
      if parentDoesExist && Get(byName, moduleName).Some? {
        r := r + [Get(byName, moduleName).value];
      }
    }
    assert hasParent[..|hasParent|] == hasParent;
  }

  /** A module's dict entry holds the last module of its name in `ms`. */
  predicate LastOfName(ms: seq<Module>, m: Module) {
    exists i :: 0 <= i < |ms| && ms[i] == m && forall j :: i < j < |ms| ==> ms[j].name != m.name
  }

  /** Some module of `ms` is named `n`. */
  predicate Named(ms: seq<Module>, n: string) {
    exists i :: 0 <= i < |ms| && ms[i].name == n
  }

  lemma NamedSnoc(ms: seq<Module>, n: string)
    requires ms != []
    ensures Named(ms, n) <==> Named(ms[..|ms| - 1], n) || ms[|ms| - 1].name == n
  {
    var p := ms[..|ms| - 1];
    if Named(p, n) {
      var i :| 0 <= i < |p| && p[i].name == n;
      assert ms[i] == p[i];
    }
  }

  lemma {:induction false} ByNameKeys(ms: seq<Module>, n: string)
    ensures n in Keys(ByName(ms)) <==> Named(ms, n)
    decreases |ms|
  {
    if ms != [] {
      ByNameKeys(ms[..|ms| - 1], n);
      NamedSnoc(ms, n);
    }
  }

  lemma {:induction false} ByNameValue(ms: seq<Module>, n: string)
    requires Get(ByName(ms), n).Some?
    ensures Get(ByName(ms), n).value.name == n && LastOfName(ms, Get(ByName(ms), n).value)
    decreases |ms|
  {
    var k := |ms| - 1;
    var p := ms[..k];
    ByNameStep(ms, n);
    if n == ms[k].name {
      LastIsLastOfName(ms);
    } else {
      ByNameValue(p, n);
      LastOfNameSnoc(ms, Get(ByName(p), n).value);
    }
  }

  lemma LastIsLastOfName(ms: seq<Module>)
    requires ms != []
    ensures LastOfName(ms, ms[|ms| - 1])
  {
  }

  lemma LastOfNameSnoc(ms: seq<Module>, m: Module)
    requires ms != [] && LastOfName(ms[..|ms| - 1], m) && ms[|ms| - 1].name != m.name
    ensures LastOfName(ms, m)
  {
    var k := |ms| - 1;
    var p := ms[..k];
    var i :| 0 <= i < |p| && p[i] == m && forall j :: i < j < |p| ==> p[j].name != m.name;
    assert ms[i] == m;
    forall j | i < j < |ms| ensures ms[j].name != m.name {
      if j < k { assert ms[j] == p[j]; }
    }
  }

  /** The last module decides its name's entry; every other name keeps the entry it had. */
  lemma ByNameStep(ms: seq<Module>, n: string)
    requires ms != []
    ensures n == ms[|ms| - 1].name ==> Get(ByName(ms), n) == Some(ms[|ms| - 1])
    ensures n != ms[|ms| - 1].name ==> Get(ByName(ms), n) == Get(ByName(ms[..|ms| - 1]), n)
  {
    var k := |ms| - 1;
    assert ByName(ms) == Set(ByName(ms[..k]), ms[k].name, ms[k]);
  }

  /** `d` holds `m` under `k`, and `k`'s parent name is a key of `d`. */
  predicate Listed(d: Dict<string, Module>, k: string, m: Module) {
    Get(d, k) == Some(m) && Get(d, BeforeLast(k, '.')).Some?
  }

  lemma PickedSnoc(d: Dict<string, Module>, flags: Dict<string, bool>, k: string, keep: bool)
    ensures Picked(d, flags + [(k, keep)])
            == Picked(d, flags) + (if keep && Get(d, k).Some? then [Get(d, k).value] else [])
  {
    assert (flags + [(k, keep)])[..|flags|] == flags;
  }

  /** Some key among `ks` lists `m`. */
  predicate AnyListed(d: Dict<string, Module>, ks: seq<string>, m: Module) {
    exists i :: 0 <= i < |ks| && Listed(d, ks[i], m)
  }

  lemma AnyListedSnoc(d: Dict<string, Module>, ks: seq<string>, m: Module)
    requires ks != []
    ensures AnyListed(d, ks, m) <==> AnyListed(d, ks[..|ks| - 1], m) || Listed(d, ks[|ks| - 1], m)
  {
    var p := ks[..|ks| - 1];
    if AnyListed(d, ks, m) {
      var i :| 0 <= i < |ks| && Listed(d, ks[i], m);
      if i < |p| {
        assert p[i] == ks[i];
        assert AnyListed(d, p, m);
      }
    }
    if AnyListed(d, p, m) {
      var i :| 0 <= i < |p| && Listed(d, p[i], m);
      assert ks[i] == p[i];
      assert AnyListed(d, ks, m);
    }
    if Listed(d, ks[|ks| - 1], m) {
      assert AnyListed(d, ks, m);
    }
  }

  /** A module is picked exactly when some key lists it. */
  lemma {:induction false} PickedEntries(d: Dict<string, Module>, ks: seq<string>, m: Module)
    ensures m in Picked(d, ParentFlags(d, ks)) <==> AnyListed(d, ks, m)
    decreases |ks|
  {
    if ks != [] {
      var n := |ks| - 1;
      var p := ks[..n];
      PickedEntries(d, p, m);
      PickedSnoc(d, ParentFlags(d, p), ks[n], Get(d, BeforeLast(ks[n], '.')).Some?);
      AnyListedSnoc(d, ks, m);
    }
  }

  /**
   * The master document lists exactly the last module of each name whose parent name
   * is a module's name, the module's own name counting as its parent when it has no
   * dot.
   */
  lemma MasterModulesExactly(ms: seq<Module>)
    ensures forall m :: m in MasterModules(ms) <==> LastOfName(ms, m) && Named(ms, BeforeLast(m.name, '.'))
  {
    forall m ensures m in MasterModules(ms) <==> LastOfName(ms, m) && Named(ms, BeforeLast(m.name, '.')) {
      MasterModuleEntry(ms, m);
    }
  }

  lemma MasterModuleEntry(ms: seq<Module>, m: Module)
    ensures m in MasterModules(ms) <==> LastOfName(ms, m) && Named(ms, BeforeLast(m.name, '.'))
  {
    var d := ByName(ms);
    var ks := Keys(d);
    PickedEntries(d, ks, m);
    if m in MasterModules(ms) {
      var i :| 0 <= i < |ks| && Listed(d, ks[i], m);
      ByNameValue(ms, ks[i]);
      ByNameKeys(ms, BeforeLast(ks[i], '.'));
    }
    if LastOfName(ms, m) && Named(ms, BeforeLast(m.name, '.')) {
      MasterModuleListed(ms, m);
    }
  }

  lemma MasterModuleListed(ms: seq<Module>, m: Module)
    requires LastOfName(ms, m) && Named(ms, BeforeLast(m.name, '.'))
    ensures exists i :: 0 <= i < |Keys(ByName(ms))| && Listed(ByName(ms), Keys(ByName(ms))[i], m)
  {
    var d := ByName(ms);
    var ks := Keys(d);
    ByNameKeys(ms, m.name);
    ByNameKeys(ms, BeforeLast(m.name, '.'));
    var t :| 0 <= t < |ks| && ks[t] == m.name;
    ByNameValue(ms, m.name);
    LastOfNameUnique(ms, Get(d, m.name).value, m);
    assert Listed(d, ks[t], m);
  }

  lemma LastOfNameUnique(ms: seq<Module>, a: Module, b: Module)
    requires LastOfName(ms, a) && LastOfName(ms, b) && a.name == b.name
    ensures a == b
  {
    var i :| 0 <= i < |ms| && ms[i] == a && forall j :: i < j < |ms| ==> ms[j].name != a.name;
    var i' :| 0 <= i' < |ms| && ms[i'] == b && forall j :: i' < j < |ms| ==> ms[j].name != b.name;
  }

  /** The module names of `ms`, each once, in the order of its first occurrence. */
  function FirstNames(ms: seq<Module>): seq<string>
  {
    if ms == [] then []
    else
      var init := ms[..|ms| - 1];
      FirstNames(init) + (if Named(init, ms[|ms| - 1].name) then [] else [ms[|ms| - 1].name])
  }

  /** The last module of `ms` named `n`, if there is one. */
  function LastNamed(ms: seq<Module>, n: string): Option<Module>
  {
    if ms == [] then None
    else if ms[|ms| - 1].name == n then Some(ms[|ms| - 1])
    else LastNamed(ms[..|ms| - 1], n)
  }

  /**
   * For each of `names` in turn whose parent name (up to the last dot) names a module
   * of `ms`, the last module of that name.
   */
  function MastersOf(ms: seq<Module>, names: seq<string>): seq<Module>
  {
    if names == [] then []
    else
      var n := names[|names| - 1];
      MastersOf(ms, names[..|names| - 1])
        + (if LastNamed(ms, n).Some? && LastNamed(ms, BeforeLast(n, '.')).Some? then [LastNamed(ms, n).value] else [])
  }

  /** The keys of the name index are the module names in the order of their first occurrence. */
  lemma {:induction false} ByNameKeysInOrder(ms: seq<Module>)
    ensures Keys(ByName(ms)) == FirstNames(ms)
    decreases |ms|
  {
    if ms != [] {
      var init := ms[..|ms| - 1];
      ByNameKeysInOrder(init);
      ByNameKeys(init, ms[|ms| - 1].name);
    }
  }

  /** The name index holds, under each name, the last module of that name. */
  lemma {:induction false} ByNameIsLastNamed(ms: seq<Module>, n: string)
    ensures Get(ByName(ms), n) == LastNamed(ms, n)
    decreases |ms|
  {
    if ms != [] {
      ByNameStep(ms, n);
      ByNameIsLastNamed(ms[..|ms| - 1], n);
    }
  }

  lemma {:induction false} PickedInOrder(ms: seq<Module>, ks: seq<string>)
    ensures Picked(ByName(ms), ParentFlags(ByName(ms), ks)) == MastersOf(ms, ks)
    decreases |ks|
  {
    if ks != [] {
      var n := |ks| - 1;
      var d := ByName(ms);
      PickedInOrder(ms, ks[..n]);
      PickedSnoc(d, ParentFlags(d, ks[..n]), ks[n], Get(d, BeforeLast(ks[n], '.')).Some?);
      ByNameIsLastNamed(ms, ks[n]);
      ByNameIsLastNamed(ms, BeforeLast(ks[n], '.'));
    }
  }

  /**
   * The master modules, in order: the module names taken once each in the order of
   * their first occurrence, kept when their parent name is a module name, each given
   * as the last module of that name.
   */
  lemma MasterModulesInOrder(ms: seq<Module>)
    ensures MasterModules(ms) == MastersOf(ms, FirstNames(ms))
  {
    ByNameKeysInOrder(ms);
    PickedInOrder(ms, FirstNames(ms));
  }

  /** A module whose name has no dot is always listed, unless a later module takes its name. */
  lemma TopLevelListed(ms: seq<Module>, m: Module)
    requires LastOfName(ms, m) && '.' !in m.name
    ensures m in MasterModules(ms)
  {
    MasterModulesExactly(ms);
    var i :| 0 <= i < |ms| && ms[i] == m && forall j :: i < j < |ms| ==> ms[j].name != m.name;
    assert Named(ms, BeforeLast(m.name, '.'));
  }
}
