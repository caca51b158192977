/**
 * The definition models of the OpenWorld documentation generator
 * (`docsgen/models.py`): attributes, arguments, methods, classes, type aliases and
 * modules, built from parsed docstrings and from the syntax tree of the SDK.
 * The Python constructors deep-copy their inputs, so each model is a value here.
 */
module OwDocsgenModels {
  import opened Wrappers
  import opened Text
  import opened DocsgenUtil

  const EMPTY_DESCRIPTION_DOCSTRING := "---"
  const IGNORE_METHODS: seq<string> := ["__str__", "__dict__"]
  const UNION_PREFIX := "Union["
  const UNION_SUFFIX := "]"

  /** One parameter entry of a parsed docstring. */
  datatype DocParam = DocParam(argName: string, description: string, typeName: string, isOptional: bool)

  /** A docstring as the docstring parser splits it. */
  datatype Docstring = Docstring(short: Option<string>, long: Option<string>, params: seq<DocParam>)

  /** An `ast.FunctionDef` as the builders read it: its name, parsed docstring and printed return annotation. */
  datatype FunctionDef = FunctionDef(name: string, doc: Docstring, annotation: Option<string>)

  datatype Attribute = Attribute(name: string, docstrings: string, typeHint: string, optional: bool)
  datatype Argument = Argument(name: string, docstrings: string, typeHint: string, optional: bool)
  datatype Method = Method(name: string, docstrings: string, arguments: seq<Argument>, returnType: Option<string>)
  datatype Class = Class(name: string, docstrings: string, attributes: seq<Attribute>,
                         methods: seq<Method>, bases: seq<string>)
  datatype Alias = Alias(name: string, docstrings: string, oneOf: seq<string>)
  datatype Module = Module(name: string, classes: seq<Class>, functions: seq<Method>,
                           aliases: seq<Alias>, file: string)

  /** A Python string that is neither `None` nor empty. */
  predicate Truthy(s: Option<string>) {
    s.Some? && s.value != ""
  }

  /* -------------------------------------------------------------- attributes */

  /** `Attribute(...)`: the docstring is stored processed, so it has no newline and no padding. */
  function NewAttribute(name: string, docstrings: string, typeHint: string, optional: bool): (a: Attribute)
    ensures '\n' !in a.docstrings && Trimmed(a.docstrings)
    ensures a.docstrings == NewLinesProcessed(docstrings)
  {
    ProcessedEnds(docstrings);
    Attribute(name, NewLinesProcessed(docstrings), typeHint, optional)
  }

  /** `Attribute.from_`: one attribute per docstring parameter. */
  function AttributeFrom(p: DocParam): Attribute {
    NewAttribute(p.argName, p.description, p.typeName, p.isOptional)
  }

  /**
   * `Argument(...)` processes the docstring and hands it to the `Attribute`
   * constructor, which processes it again; since the processing is idempotent the
   * stored docstring is the docstring processed once.
   */
  function NewArgument(name: string, docstrings: string, typeHint: string, optional: bool): (a: Argument)
    ensures a.docstrings == NewLinesProcessed(docstrings)
    ensures a.name == name && a.typeHint == typeHint && a.optional == optional
  {
    NewLinesProcessedIdempotent(docstrings);
    var base := NewAttribute(name, NewLinesProcessed(docstrings), typeHint, optional);
    Argument(base.name, base.docstrings, base.typeHint, base.optional)
  }

  /** `Argument.from_`: the description is processed a third time, still to the same text. */
  function ArgumentFrom(p: DocParam): (a: Argument)
    ensures a == Argument(p.argName, NewLinesProcessed(p.description), p.typeName, p.isOptional)
  {
    NewLinesProcessedIdempotent(p.description);
    NewArgument(p.argName, NewLinesProcessed(p.description), p.typeName, p.isOptional)
  }

  function ArgumentsFrom(params: seq<DocParam>): (r: seq<Argument>)
    ensures |r| == |params|
    ensures forall i :: 0 <= i < |params| ==> r[i].name == params[i].argName
  {
    seq(|params|, i requires 0 <= i < |params| => ArgumentFrom(params[i]))
  }

  /* ----------------------------------------------------------------- methods */

  /** The description a method gets: the long description, else the short one, else `---`. */
  function Description(d: Docstring): (r: string)
    ensures r != ""
    ensures Truthy(d.long) ==> r == d.long.value
    ensures !Truthy(d.long) && Truthy(d.short) ==> r == d.short.value
    ensures !Truthy(d.long) && !Truthy(d.short) ==> r == EMPTY_DESCRIPTION_DOCSTRING
  {
    if Truthy(d.long) then d.long.value
    else if Truthy(d.short) then d.short.value
    else EMPTY_DESCRIPTION_DOCSTRING
  }

  /** `Method(...)`: the docstring is stored processed. */
  function NewMethod(name: string, docstrings: string, arguments: seq<Argument>, returnType: Option<string>): (m: Method)
    ensures '\n' !in m.docstrings && Trimmed(m.docstrings)
  {
    ProcessedEnds(docstrings);
    Method(name, NewLinesProcessed(docstrings), arguments, returnType)
  }

  /** `Method.from_function_def`: the description is processed, then processed again by the constructor. */
  function MethodFromFunctionDef(def: FunctionDef): (m: Method)
    ensures m.name == def.name && m.returnType == Some("")
    ensures m.docstrings == NewLinesProcessed(Description(def.doc))
    ensures m.arguments == ArgumentsFrom(def.doc.params)
  {
    NewLinesProcessedIdempotent(Description(def.doc));
    NewMethod(def.name, NewLinesProcessed(Description(def.doc)), ArgumentsFrom(def.doc.params), Some(""))
  }

  /** The method `from_class_def` appends for one function definition it does not skip. */
  function MethodOf(def: FunctionDef): (m: Method)
    ensures m.name == def.name && m.returnType == def.annotation
    ensures m.docstrings == NewLinesProcessed(Description(def.doc))
  {
    NewLinesProcessedIdempotent(Description(def.doc));
    NewMethod(def.name, NewLinesProcessed(Description(def.doc)), ArgumentsFrom(def.doc.params), def.annotation)
  }

  /** The methods `from_class_def` collects from the function definitions of a class, in order. */
  function ClassMethods(defs: seq<FunctionDef>): seq<Method>
  {
    if defs == [] then []
    else
      var init := ClassMethods(defs[..|defs| - 1]);
      var def := defs[|defs| - 1];
      if def.name in IGNORE_METHODS then init else init + [MethodOf(def)]
  }

  /** `Method.from_class_def`: every function definition except `__str__` and `__dict__` becomes a method. */
  method FromClassDef(defs: seq<FunctionDef>) returns (methods: seq<Method>)
    ensures methods == ClassMethods(defs)
  {
    methods := [];
    for i := 0 to |defs|
      invariant methods == ClassMethods(defs[..i])
    {
      assert defs[..i + 1][..i] == defs[..i];
      if defs[i].name in IGNORE_METHODS {
        continue;
      }
      methods := methods + [MethodOf(defs[i])];
    }
    assert defs[..|defs|] == defs;
  }

  /** Every collected method comes from a definition whose name is not ignored. */
  lemma {:induction false} ClassMethodsSound(defs: seq<FunctionDef>)
    ensures |ClassMethods(defs)| <= |defs|
    ensures forall m :: m in ClassMethods(defs) ==>
              m.name !in IGNORE_METHODS && exists d :: d in defs && d.name !in IGNORE_METHODS && m == MethodOf(d)
  {
    if defs != [] {
      var init := defs[..|defs| - 1];
      var def := defs[|defs| - 1];
      ClassMethodsSound(init);
      forall m | m in ClassMethods(defs)
        ensures m.name !in IGNORE_METHODS && exists d :: d in defs && d.name !in IGNORE_METHODS && m == MethodOf(d)
      {
        if m in ClassMethods(init) {
          var d :| d in init && d.name !in IGNORE_METHODS && m == MethodOf(d);
          assert d in defs;
        } else {
          assert m == MethodOf(def) && def in defs;
        }
      }
    }
  }

  /** Every definition whose name is not ignored yields a collected method. */
  lemma {:induction false} ClassMethodsComplete(defs: seq<FunctionDef>, d: FunctionDef)
    requires d in defs && d.name !in IGNORE_METHODS
    ensures MethodOf(d) in ClassMethods(defs)
  {
    var init := defs[..|defs| - 1];
    var def := defs[|defs| - 1];
    if d != def {
      assert defs == init + [def];
      ClassMethodsComplete(init, d);
    }
  }

  /* ----------------------------------------------------------------- classes */

  /** The description a class gets: a short description reading `None` does not count. */
  function ClassDescription(d: Docstring): string {
    if Truthy(d.long) then d.long.value
    else if Truthy(d.short) && d.short.value != "None" then d.short.value
    else EMPTY_DESCRIPTION_DOCSTRING
  }

  function AttributesFrom(params: seq<DocParam>): seq<Attribute> {
    seq(|params|, i requires 0 <= i < |params| => AttributeFrom(params[i]))
  }

  /** `Class.from_` on a class definition with the given name, docstring, base names and function definitions. */
  function ClassFrom(name: string, doc: Docstring, baseIds: seq<string>, defs: seq<FunctionDef>): Class {
    Class(name, ClassDescription(doc), AttributesFrom(doc.params), ClassMethods(defs),
          ["object"] + baseIds + [name])
  }

  /**
   * The bases start with `object`, list the declared bases in order and end with the
   * class itself; the description is the long one, else a short one other than
   * `None`, else `---`, and is stored without newline processing; each docstring
   * parameter becomes one attribute with its docstring processed.
   */
  lemma ClassFromShape(name: string, doc: Docstring, baseIds: seq<string>, defs: seq<FunctionDef>)
    ensures var c := ClassFrom(name, doc, baseIds, defs);
      && |c.bases| == |baseIds| + 2 && c.bases[0] == "object" && c.bases[|c.bases| - 1] == name
      && c.bases[1..|c.bases| - 1] == baseIds
      && (Truthy(doc.long) ==> c.docstrings == doc.long.value)
      && (!Truthy(doc.long) && Truthy(doc.short) && doc.short.value != "None" ==> c.docstrings == doc.short.value)
      && (!Truthy(doc.long) && (!Truthy(doc.short) || doc.short.value == "None") ==>
            c.docstrings == EMPTY_DESCRIPTION_DOCSTRING)
      && |c.attributes| == |doc.params|
      && (forall i :: 0 <= i < |doc.params| ==>
            c.attributes[i].name == doc.params[i].argName
            && c.attributes[i].docstrings == NewLinesProcessed(doc.params[i].description))
  {
    var c := ClassFrom(name, doc, baseIds, defs);
    assert c.bases[1..|c.bases| - 1] == baseIds;
  }

  /* ----------------------------------------------------------------- aliases */

  function Strips(parts: seq<string>): (r: seq<string>)
    ensures |r| == |parts|
    ensures forall i :: 0 <= i < |parts| ==> r[i] == Strip(parts[i])
  {
    seq(|parts|, i requires 0 <= i < |parts| => Strip(parts[i]))
  }

  /**
   * `Alias.from_assign` on the printed assignment: unpacking `text.split("=")` into two
   * names fails unless the text holds exactly one `=`; the members are the right-hand
   * side without a leading `Union[` and a trailing `]`, split on commas and stripped.
   */
  function FromAssign(text: string): (r: Result<Alias, string>)
    ensures r.Ok? <==> multiset(text)['='] == 1
    ensures r.Ok? ==> r.value.docstrings == "" && Trimmed(r.value.name)
  {
    SplitCount(text, '=');
    var pieces := Split(text, '=');
    if |pieces| != 2 then Err("ValueError: expected exactly one '=' in the assignment")
    else
      var oneOf := RemoveSuffix(RemovePrefix(pieces[1], UNION_PREFIX), UNION_SUFFIX);
      Ok(Alias(Strip(pieces[0]), "", Strips(Split(oneOf, ','))))
  }

  /** The right-hand side astor prints for `Union[...]` of the joined members. */
  function RhsText(j: string): string {
    " " + UNION_PREFIX + j + UNION_SUFFIX + "\n"
  }

  /** The source text astor prints for the assignment `name = Union[models...]`. */
  function AssignText(name: string, models: seq<string>): string {
    (name + " ") + "=" + RhsText(Join(models, ", "))
  }

  lemma RhsFree(j: string)
    requires '=' !in j
    ensures '=' !in RhsText(j)
  {
  }

  lemma StripTrailingSpace(name: string)
    requires Trimmed(name)
    ensures Strip(name + " ") == name
  {
    StripPadded("", name, " ");
    assert "" + name + " " == name + " ";
  }

  /** With one `=` between `lhs` and `rhs`, both parses reduce to the operations on the two sides. */
  lemma FromAssignParts(lhs: string, rhs: string)
    requires '=' !in lhs && '=' !in rhs
    ensures FromAssign(lhs + "=" + rhs) ==
            Ok(Alias(Strip(lhs), "", Strips(Split(RemoveSuffix(RemovePrefix(rhs, UNION_PREFIX), UNION_SUFFIX), ','))))
    ensures FromAssignCorrected(lhs + "=" + rhs) ==
            Ok(Alias(Strip(lhs), "", Strips(Split(RemoveSuffix(RemovePrefix(Strip(rhs), UNION_PREFIX), UNION_SUFFIX), ','))))
  {
    SplitAtFirst(lhs, rhs, '=');
    SplitNone(rhs, '=');
  }

  /**
   * As written, the right-hand side still starts with a space when the prefix is
   * removed and ends with a newline when the suffix is, so for two members
   * (`Pet = Union[Cat, Dog]` gives `Union[Cat` and `Dog]`) `Union[` stays on the
   * first member and `]` on the last.
   */
  lemma FromAssignKeepsUnion(name: string, a: string, b: string)
    requires Trimmed(name) && '=' !in name
    requires Trimmed(a) && Trimmed(b) && '=' !in a && '=' !in b && ',' !in a && ',' !in b
    ensures var r := FromAssign(AssignText(name, [a, b]));
      r.Ok? && r.value.name == name && |r.value.oneOf| == 2
      && r.value.oneOf[0] == UNION_PREFIX + a && r.value.oneOf[1] == b + UNION_SUFFIX
  {
    var rhs := RhsText(Join([a, b], ", "));
    PairRhs(a, b);
    FromAssignParts(name + " ", rhs);
    StripTrailingSpace(name);
  }

  /** What the as-written parse does to the right-hand side of a two-member alias. */
  lemma PairRhs(a: string, b: string)
    requires Trimmed(a) && Trimmed(b) && '=' !in a && '=' !in b && ',' !in a && ',' !in b
    ensures var rhs := RhsText(Join([a, b], ", "));
      && '=' !in rhs
      && RemoveSuffix(RemovePrefix(rhs, UNION_PREFIX), UNION_SUFFIX) == rhs
      && var members := Strips(Split(rhs, ','));
         |members| == 2 && members[0] == UNION_PREFIX + a && members[1] == b + UNION_SUFFIX
  {
    var rhs := RhsText(Join([a, b], ", "));
    RhsOfPair(a, b);
    JoinFree([a, b], ", ", '=');
    RhsFree(Join([a, b], ", "));
    WrapperKept(rhs);
    SplitPair(" " + (UNION_PREFIX + a), " " + (b + UNION_SUFFIX) + "\n", ',');
    WrappedTrimmed(a, b);
    KeptPieces(UNION_PREFIX + a, b + UNION_SUFFIX, Split(rhs, ','));
  }

  lemma RhsOfPair(a: string, b: string)
    ensures RhsText(Join([a, b], ", ")) == (" " + (UNION_PREFIX + a)) + [','] + (" " + (b + UNION_SUFFIX) + "\n")
  {
    JoinCons(a, [b], ", ");
    assert ", " == [','] + " ";
  }

  /** A right-hand side that starts with a space and ends with a newline keeps its wrapper. */
  lemma WrapperKept(rhs: string)
    requires |rhs| > 0 && rhs[0] == ' ' && rhs[|rhs| - 1] == '\n'
    ensures RemoveSuffix(RemovePrefix(rhs, UNION_PREFIX), UNION_SUFFIX) == rhs
  {
    assert !StartsWith(rhs, UNION_PREFIX) by {
      if |UNION_PREFIX| <= |rhs| {
        assert rhs[..|UNION_PREFIX|][0] == ' ';
      }
    }
    assert !EndsWith(rhs, UNION_SUFFIX) by {
      if |UNION_SUFFIX| <= |rhs| {
        assert rhs[|rhs| - |UNION_SUFFIX|..][0] == '\n';
      }
    }
  }

  lemma KeptPieces(x: string, y: string, pieces: seq<string>)
    requires Trimmed(x) && Trimmed(y)
    requires |pieces| == 2 && pieces[0] == " " + x && pieces[1] == " " + y + "\n"
    ensures |Strips(pieces)| == 2 && Strips(pieces)[0] == x && Strips(pieces)[1] == y
  {
    StripPrefixed(x);
    StripSurrounded(y);
  }

  lemma WrappedTrimmed(a: string, b: string)
    requires Trimmed(a) && Trimmed(b)
    ensures Trimmed(UNION_PREFIX + a) && Trimmed(b + UNION_SUFFIX)
  {
  }

  lemma SplitPair(first: string, second: string, c: char)
    requires c !in first && c !in second
    ensures var r := Split(first + [c] + second, c); |r| == 2 && r[0] == first && r[1] == second
  {
    SplitAtFirst(first, second, c);
    SplitNone(second, c);
  }

  lemma StripPrefixed(x: string)
    requires Trimmed(x)
    ensures Strip(" " + x) == x
  {
    StripPadded(" ", x, "");
    assert " " + x + "" == " " + x;
  }

  lemma StripSurrounded(x: string)
    requires Trimmed(x)
    ensures Strip(" " + x + "\n") == x
  {
    StripPadded(" ", x, "\n");
  }

  /** `from_assign` with the right-hand side stripped before `Union[` and `]` are removed. */
  function FromAssignCorrected(text: string): (r: Result<Alias, string>)
    ensures r.Ok? <==> multiset(text)['='] == 1
    ensures r.Ok? ==> r.value.docstrings == "" && Trimmed(r.value.name)
  {
    SplitCount(text, '=');
    var pieces := Split(text, '=');
    if |pieces| != 2 then Err("ValueError: expected exactly one '=' in the assignment")
    else
      var oneOf := RemoveSuffix(RemovePrefix(Strip(pieces[1]), UNION_PREFIX), UNION_SUFFIX);
      Ok(Alias(Strip(pieces[0]), "", Strips(Split(oneOf, ','))))
  }

  /** The members as `", ".join` lays them out, seen as `",".join` of members with a leading space. */
  function Spaced(models: seq<string>): (r: seq<string>)
    ensures |r| == |models|
  {
    seq(|models|, i requires 0 <= i < |models| => if i == 0 then models[0] else " " + models[i])
  }

  lemma JoinSpaceHead(x: string, rest: seq<string>)
    ensures Join([" " + x] + rest, ",") == " " + Join([x] + rest, ",")
  {
    if rest != [] {
      JoinCons(" " + x, rest, ",");
      JoinCons(x, rest, ",");
    }
  }

  lemma {:induction false} JoinSpaced(models: seq<string>)
    requires models != []
    ensures Join(models, ", ") == Join(Spaced(models), ",")
  {
    if |models| > 1 {
      var tail := models[1..];
      JoinSpaced(tail);
      var s := Spaced(models);
      assert s == [models[0]] + s[1..];
      assert s[1..] == [" " + tail[0]] + Spaced(tail)[1..];
      assert Spaced(tail) == [tail[0]] + Spaced(tail)[1..];
      JoinSpaceHead(tail[0], Spaced(tail)[1..]);
      JoinCons(models[0], s[1..], ",");
      JoinCons(models[0], tail, ", ");
      assert [models[0]] + tail == models;
    }
  }

  lemma SpacedPieces(models: seq<string>)
    requires forall i :: 0 <= i < |models| ==> Trimmed(models[i]) && ',' !in models[i]
    ensures forall i :: 0 <= i < |models| ==> ',' !in Spaced(models)[i]
    ensures Strips(Spaced(models)) == models
  {
    var sp := Spaced(models);
    forall i | 0 <= i < |sp| ensures Strip(sp[i]) == models[i] {
      if i == 0 {
        StripPadded("", models[0], "");
        assert "" + models[0] + "" == models[0];
      } else {
        StripPadded(" ", models[i], "");
        assert " " + models[i] + "" == sp[i];
      }
    }
  }

  /** Splitting the joined members on commas and stripping each piece gives the members back. */
  lemma MembersRoundTrip(models: seq<string>)
    requires models != []
    requires forall i :: 0 <= i < |models| ==> Trimmed(models[i]) && ',' !in models[i]
    ensures Strips(Split(Join(models, ", "), ',')) == models
  {
    JoinSpaced(models);
    SpacedPieces(models);
    SplitOfJoin(Spaced(models), ',');
  }

  /** Stripping the printed right-hand side and removing the wrapper leaves the joined members. */
  lemma UnwrapUnion(j: string)
    ensures RemoveSuffix(RemovePrefix(Strip(RhsText(j)), UNION_PREFIX), UNION_SUFFIX) == j
  {
    var body := UNION_PREFIX + j + UNION_SUFFIX;
    assert RhsText(j) == " " + body + "\n";
    assert Trimmed(body) by {
      assert body[0] == 'U' && body[|body| - 1] == ']';
    }
    StripSurrounded(body);
    UnwrapBody(j);
  }

  lemma UnwrapBody(j: string)
    ensures RemoveSuffix(RemovePrefix(UNION_PREFIX + j + UNION_SUFFIX, UNION_PREFIX), UNION_SUFFIX) == j
  {
    var body := UNION_PREFIX + j + UNION_SUFFIX;
    assert StartsWith(body, UNION_PREFIX) && body[|UNION_PREFIX|..] == j + UNION_SUFFIX;
    assert EndsWith(j + UNION_SUFFIX, UNION_SUFFIX) && (j + UNION_SUFFIX)[..|j|] == j;
  }

  /**
   * The corrected parse reads back the name and the members of the assignment it is
   * given, provided names and members are trimmed and hold no `=` and no comma.
   */
  lemma FromAssignRoundTrip(name: string, models: seq<string>)
    requires Trimmed(name) && '=' !in name
    requires models != []
    requires forall i :: 0 <= i < |models| ==> Trimmed(models[i]) && '=' !in models[i] && ',' !in models[i]
    ensures FromAssignCorrected(AssignText(name, models)) == Ok(Alias(name, "", models))
  {
    JoinFree(models, ", ", '=');
    RhsFree(Join(models, ", "));
    FromAssignParts(name + " ", RhsText(Join(models, ", ")));
    StripTrailingSpace(name);
    UnwrapUnion(Join(models, ", "));
    MembersRoundTrip(models);
  }

  /* ----------------------------------------------------------------- modules */

  /** `Module(...)`: the documentation file of a module is its name with the Markdown suffix. */
  function NewModule(name: string, classes: seq<Class>, functions: seq<Method>, aliases: seq<Alias>): (m: Module)
    ensures EndsWith(m.file, MARKDOWN_SUFFIX) && RemoveSuffix(m.file, MARKDOWN_SUFFIX) == name
    ensures m.name == name && m.classes == classes && m.functions == functions && m.aliases == aliases
  {
    var file := name + MARKDOWN_SUFFIX;
    assert file[..|file| - |MARKDOWN_SUFFIX|] == name;
    Module(name, classes, functions, aliases, file)
  }
}
