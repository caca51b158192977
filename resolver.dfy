/**
 * The resolvers of the ExpediaGroup docs generator: the type-alias resolver puts the
 * value of a module variable in place of its name, over and over until nothing
 * changes; the cross-reference resolver then turns class names into links to the
 * classes' documents.
 *
 * Both replace words with the corrected `replace_word`, which never raises. Python's
 * recursion limit is the `fuel` parameter: a resolution that needs more nested calls
 * than `fuel` allows ends in `RecursionError`.
 */
module EgDocsgenResolver {
  import opened Wrappers
  import opened Text
  import opened EgDocsgenUtil
  import opened EgDocsgenModel

  /** The `RecursionError` of a resolution that keeps changing the text. */
  datatype ResolveError = RecursionError

  /** Where one pass over the variables (or classes) ends: an early return, or the text and the changed-flag. */
  datatype Pass = Exact(value: string) | Done(text: string, changed: bool)

  /** `replace_word(text, word, replacement)`, corrected. */
  function Replaced(text: string, word: string, replacement: string): (r: string)
    ensures Ok(r) == ReplaceWordResult(text, word, replacement, true)
  {
    CorrectedNeverFails(text, word, replacement);
    ReplaceWordResult(text, word, replacement, true).value
  }

  /** A variable the resolver uses: one whose value is neither `None` nor empty. */
  predicate Valued(v: Variable) { v.value.Some? && v.value.value != "" }

  /* ------------------------------------------------------------ type aliases */

  /**
   * The inner loop of `TypeAliasResolver.resolve` over the variables `vs`, from the
   * current text and flag. The flag ends false only if it started false and the text
   * never changed.
   */
  function VarsPass(vs: seq<Variable>, text: string, changed: bool): (r: Pass)
    ensures r.Done? && !r.changed ==> !changed && r.text == text
    ensures r.Done? && changed ==> r.changed
  {
    if vs == [] then Done(text, changed)
    else if !Valued(vs[0]) then VarsPass(vs[1..], text, changed)
    else if vs[0].name == text then Exact(vs[0].value.value)
    else
      var t := Replaced(text, vs[0].name, vs[0].value.value);
      VarsPass(vs[1..], t, changed || t != text)
  }

  /** The rest of a pass over the modules `ms`, after a pass over one module's variables ended in `p`. */
  function ThenVars(p: Pass, ms: seq<Module>): Pass
    decreases |ms|, 1
  {
    match p
    case Exact(v) => p
    case Done(t, c) => ModulesPass(ms, t, c)
  }

  /** The nested loops of `TypeAliasResolver.resolve`, over every module's variables in turn. */
  function ModulesPass(ms: seq<Module>, text: string, changed: bool): Pass
    decreases |ms|, 0
  {
    if ms == [] then Done(text, changed) else ThenVars(VarsPass(ms[0].variables, text, changed), ms[1..])
  }

  /** The variables of all the modules, module by module. */
  function AllVariables(ms: seq<Module>): seq<Variable>
  {
    if ms == [] then [] else ms[0].variables + AllVariables(ms[1..])
  }

  /**
   * `TypeAliasResolver.resolve(text)`: a variable whose name is the whole text
   * resolves to its value, resolved again; otherwise every variable's name is
   * replaced by its value and, if that changed the text, the result is resolved again.
   */
  function AliasResolution(ms: seq<Module>, text: string, fuel: nat): Result<string, ResolveError>
    decreases fuel
  {
    if fuel == 0 then Err(RecursionError)
    else match ModulesPass(ms, text, false)
      case Exact(v) => AliasResolution(ms, v, fuel - 1)
      case Done(t, c) => if c then AliasResolution(ms, t, fuel - 1) else Ok(t)
  }

  /** A pass over two runs of variables is the pass over the first, then over the second. */
  lemma {:induction false} VarsPassConcat(a: seq<Variable>, b: seq<Variable>, text: string, changed: bool)
    ensures VarsPass(a + b, text, changed) ==
            match VarsPass(a, text, changed)
            case Exact(v) => Exact(v)
            case Done(t, c) => VarsPass(b, t, c)
    decreases |a|
  {
    if a == [] {
      assert a + b == b;
    } else {
      assert (a + b)[0] == a[0] && (a + b)[1..] == a[1..] + b;
      if Valued(a[0]) && a[0].name != text {
        VarsPassConcat(a[1..], b, Replaced(text, a[0].name, a[0].value.value), changed || Replaced(text, a[0].name, a[0].value.value) != text);
      } else if !Valued(a[0]) {
        VarsPassConcat(a[1..], b, text, changed);
      }
    }
  }

  /** The nested loops do what one loop over all the variables, module by module, does. */
  lemma {:induction false} ModulesPassFlat(ms: seq<Module>, text: string, changed: bool)
    ensures ModulesPass(ms, text, changed) == VarsPass(AllVariables(ms), text, changed)
    decreases |ms|
  {
    if ms != [] {
      VarsPassConcat(ms[0].variables, AllVariables(ms[1..]), text, changed);
      match VarsPass(ms[0].variables, text, changed)
      case Exact(v) =>
      case Done(t, c) => ModulesPassFlat(ms[1..], t, c);
    }
  }

  /** The variables with a value, in order. */
  function ValuedOnly(vs: seq<Variable>): (r: seq<Variable>)
    ensures forall v :: v in r ==> v in vs && Valued(v)
  {
    if vs == [] then [] else (if Valued(vs[0]) then [vs[0]] else []) + ValuedOnly(vs[1..])
  }

  /** Variables whose value is `None` or empty play no part in a pass. */
  lemma {:induction false} EmptyValuesIgnored(vs: seq<Variable>, text: string, changed: bool)
    ensures VarsPass(vs, text, changed) == VarsPass(ValuedOnly(vs), text, changed)
    decreases |vs|
  {
    if vs != [] {
      var rest := ValuedOnly(vs[1..]);
      if Valued(vs[0]) {
        assert ([vs[0]] + rest)[0] == vs[0] && ([vs[0]] + rest)[1..] == rest;
        if vs[0].name != text {
          var t := Replaced(text, vs[0].name, vs[0].value.value);
          EmptyValuesIgnored(vs[1..], t, changed || t != text);
        }
      } else {
        assert [] + rest == rest;
        EmptyValuesIgnored(vs[1..], text, changed);
      }
    }
  }

  /**
   * Modules with the same valued variables, in the same order, resolve every text
   * alike: variables with an empty value are skipped.
   */
  lemma {:induction false} AliasResolutionIgnoresEmpty(ms: seq<Module>, ms': seq<Module>, text: string, fuel: nat)
    requires ValuedOnly(AllVariables(ms)) == ValuedOnly(AllVariables(ms'))
    ensures AliasResolution(ms, text, fuel) == AliasResolution(ms', text, fuel)
    decreases fuel
  {
    if fuel > 0 {
      SamePass(ms, ms', text);
      match ModulesPass(ms, text, false)
      case Exact(v) => AliasResolutionIgnoresEmpty(ms, ms', v, fuel - 1);
      case Done(t, c) => if c { AliasResolutionIgnoresEmpty(ms, ms', t, fuel - 1); }
    }
  }

  /** Modules with the same valued variables, in the same order, make the same pass. */
  lemma SamePass(ms: seq<Module>, ms': seq<Module>, text: string)
    requires ValuedOnly(AllVariables(ms)) == ValuedOnly(AllVariables(ms'))
    ensures ModulesPass(ms, text, false) == ModulesPass(ms', text, false)
  {
    ModulesPassFlat(ms, text, false);
    ModulesPassFlat(ms', text, false);
    EmptyValuesIgnored(AllVariables(ms), text, false);
    EmptyValuesIgnored(AllVariables(ms'), text, false);
  }

  /**
   * A variable whose name is the whole text, with no earlier valued variable's name
   * occurring in the text, makes the pass return its value.
   */
  lemma {:induction false} VarsPassExact(vs: seq<Variable>, text: string, changed: bool, i: int)
    requires 0 <= i < |vs| && Valued(vs[i]) && vs[i].name == text
    requires forall j :: 0 <= j < i && Valued(vs[j]) ==> !Contains(text, vs[j].name)
    ensures VarsPass(vs, text, changed) == Exact(vs[i].value.value)
    decreases i
  {
    if i > 0 {
      if Valued(vs[0]) {
        assert !Contains(text, vs[0].name);
        assert |vs[0].name| > 0 by { assert OccursAt(text, vs[0].name, 0) ==> false; }
        AbsentWordUnchanged(text, vs[0].name, vs[0].value.value, true);
      }
      VarsPassExact(vs[1..], text, changed, i - 1);
    }
  }

  /**
   * Type-alias resolution of the exact name of a variable resolves that variable's
   * value (with one call fewer), when no valued variable before it has a name that
   * occurs in the text.
   */
  lemma ExactNameResolvesToValue(ms: seq<Module>, text: string, fuel: nat, i: int)
    requires fuel > 0
    requires 0 <= i < |AllVariables(ms)| && Valued(AllVariables(ms)[i]) && AllVariables(ms)[i].name == text
    requires forall j :: 0 <= j < i && Valued(AllVariables(ms)[j]) ==> !Contains(text, AllVariables(ms)[j].name)
    ensures AliasResolution(ms, text, fuel) == AliasResolution(ms, AllVariables(ms)[i].value.value, fuel - 1)
  {
    ModulesPassFlat(ms, text, false);
    VarsPassExact(AllVariables(ms), text, false, i);
  }

  /** A pass over variables none of whose names occur in the text leaves it unchanged. */
  lemma {:induction false} VarsPassUntouched(vs: seq<Variable>, text: string, changed: bool)
    requires forall j :: 0 <= j < |vs| && Valued(vs[j]) ==> !Contains(text, vs[j].name)
    ensures VarsPass(vs, text, changed) == Done(text, changed)
    decreases |vs|
  {
    if vs != [] {
      if Valued(vs[0]) {
        assert |vs[0].name| > 0 by { assert OccursAt(text, vs[0].name, 0) ==> false; }
        AbsentWordUnchanged(text, vs[0].name, vs[0].value.value, true);
      }
      VarsPassUntouched(vs[1..], text, changed);
    }
  }

  /** A text in which no valued variable's name occurs resolves to itself. */
  lemma NoAliasIsFixpoint(ms: seq<Module>, text: string, fuel: nat)
    requires fuel > 0
    requires forall j :: 0 <= j < |AllVariables(ms)| && Valued(AllVariables(ms)[j]) ==>
                           !Contains(text, AllVariables(ms)[j].name)
    ensures AliasResolution(ms, text, fuel) == Ok(text)
  {
    ModulesPassFlat(ms, text, false);
    VarsPassUntouched(AllVariables(ms), text, false);
  }

  /**
   * Resolution calls itself again only when a replacement changed the text;
   * otherwise it returns the text it was given.
   */
  lemma RecursesOnlyOnChange(ms: seq<Module>, text: string, fuel: nat)
    requires fuel > 0 && ModulesPass(ms, text, false).Done?
    ensures var p := ModulesPass(ms, text, false);
      (!p.changed ==> p.text == text && AliasResolution(ms, text, fuel) == Ok(text)) &&
      (p.changed ==> AliasResolution(ms, text, fuel) == AliasResolution(ms, p.text, fuel - 1))
  {
    ModulesPassFlat(ms, text, false);
  }

  /* --------------------------------------------------------- cross references */

  /** The link to a class's document. */
  function Reference(name: string): (r: string)
    ensures r == ToMarkdownFileRef(name)
  {
    "[" + name + "](" + name + ".md)"
  }

  /** The inner loop of `CrossReferenceResolver.resolve` over the classes `cs`. */
  function ClassesPass(cs: seq<Class>, text: string): Pass
  {
    if cs == [] then Done(text, false)
    else if cs[0].name == text then Exact(Reference(cs[0].name))
    else ClassesPass(cs[1..], Replaced(text, cs[0].name, Reference(cs[0].name)))
  }

  function ThenClasses(p: Pass, ms: seq<Module>): Pass
    decreases |ms|, 1
  {
    match p
    case Exact(v) => p
    case Done(t, _) => RefModulesPass(ms, t)
  }

  /** The nested loops of `CrossReferenceResolver.resolve`. */
  function RefModulesPass(ms: seq<Module>, text: string): Pass
    decreases |ms|, 0
  {
    if ms == [] then Done(text, false) else ThenClasses(ClassesPass(ms[0].classes, text), ms[1..])
  }

  /** The classes of all the modules, module by module. */
  function AllClasses(ms: seq<Module>): seq<Class>
  {
    if ms == [] then [] else ms[0].classes + AllClasses(ms[1..])
  }

  /** `CrossReferenceResolver.resolve(text)`: type aliases first, then class names become links. */
  function CrossReference(ms: seq<Module>, text: string, fuel: nat): Result<string, ResolveError>
  {
    match AliasResolution(ms, text, fuel)
    case Err(e) => Err(e)
    case Ok(t) =>
      match RefModulesPass(ms, t)
      case Exact(r) => Ok(r)
      case Done(t', _) => Ok(t')
  }

  lemma {:induction false} ClassesPassConcat(a: seq<Class>, b: seq<Class>, text: string)
    ensures ClassesPass(a + b, text) ==
            match ClassesPass(a, text)
            case Exact(v) => Exact(v)
            case Done(t, _) => ClassesPass(b, t)
    decreases |a|
  {
    if a == [] {
      assert a + b == b;
    } else {
      assert (a + b)[0] == a[0] && (a + b)[1..] == a[1..] + b;
      if a[0].name != text {
        ClassesPassConcat(a[1..], b, Replaced(text, a[0].name, Reference(a[0].name)));
      }
    }
  }

  lemma {:induction false} RefModulesPassFlat(ms: seq<Module>, text: string)
    ensures RefModulesPass(ms, text) == ClassesPass(AllClasses(ms), text)
    decreases |ms|
  {
    if ms != [] {
      ClassesPassConcat(ms[0].classes, AllClasses(ms[1..]), text);
      match ClassesPass(ms[0].classes, text)
      case Exact(v) =>
      case Done(t, _) => RefModulesPassFlat(ms[1..], t);
    }
  }

  lemma {:induction false} ClassesPassExact(cs: seq<Class>, text: string, i: int)
    requires 0 <= i < |cs| && cs[i].name == text
    requires forall j :: 0 <= j < i ==> !Contains(text, cs[j].name)
    ensures ClassesPass(cs, text) == Exact(ToMarkdownFileRef(text))
    decreases i
  {
    if i > 0 {
      assert |cs[0].name| > 0 by { assert OccursAt(text, cs[0].name, 0) ==> false; }
      AbsentWordUnchanged(text, cs[0].name, Reference(cs[0].name), true);
      ClassesPassExact(cs[1..], text, i - 1);
    }
  }

  /**
   * Cross-reference resolution of a class's exact name, when type-alias resolution
   * leaves the name alone and no class before it has a name occurring in it, is the
   * link "[Name](Name.md)".
   */
  lemma ExactClassNameLinks(ms: seq<Module>, text: string, fuel: nat, i: int)
    requires AliasResolution(ms, text, fuel) == Ok(text)
    requires 0 <= i < |AllClasses(ms)| && AllClasses(ms)[i].name == text
    requires forall j :: 0 <= j < i ==> !Contains(text, AllClasses(ms)[j].name)
    ensures CrossReference(ms, text, fuel) == Ok("[" + text + "](" + text + ".md)")
  {
    RefModulesPassFlat(ms, text);
    ClassesPassExact(AllClasses(ms), text, i);
  }

  /* ------------------------------------------------------------------ classes */

  /** `Resolver.resolve(*args)` of the base class: it returns `None`. */
  function BaseResolve(args: seq<string>): (r: Option<string>)
    ensures r.None?
  {
    None
  }

  /** `TypeAliasResolver` over a list of documented modules. */
  class TypeAliasResolver {
    const modules: seq<Module>

    constructor (modules: seq<Module>)
      ensures this.modules == modules
    {
      this.modules := modules;
    }

    /** `resolve(text)` with at most `fuel` nested calls. */
    method Resolve(text: string, fuel: nat) returns (r: Result<string, ResolveError>)
      ensures r == AliasResolution(modules, text, fuel)
      decreases fuel
    {
      if fuel == 0 {
        return Err(RecursionError);
      }
      var current := text;
      var hasResolvedText := false;
      for i := 0 to |modules|
        invariant ModulesPass(modules, text, false) == ModulesPass(modules[i..], current, hasResolvedText)
      {
        var variables := modules[i].variables;
        assert modules[i..][0] == modules[i] && modules[i..][1..] == modules[i + 1..];
        for j := 0 to |variables|
          invariant ModulesPass(modules, text, false) ==
                    ThenVars(VarsPass(variables[j..], current, hasResolvedText), modules[i + 1..])
        {
          assert variables[j..][0] == variables[j] && variables[j..][1..] == variables[j + 1..];
          var v := variables[j];
          if v.value.None? || v.value.value == "" {
            continue;
          }
          if v.name == current {
            r := Resolve(v.value.value, fuel - 1);
            return;
          }
          var originalText := current;
          current := ReplaceWordCorrected(current, v.name, v.value.value);
          hasResolvedText := hasResolvedText || current != originalText;
        }
      }
      if hasResolvedText {
        r := Resolve(current, fuel - 1);
      } else {
        r := Ok(current);
      }
    }
  }

  /** `CrossReferenceResolver` over a list of documented modules, with its own type-alias resolver. */
  class CrossReferenceResolver {
    const modules: seq<Module>
    const typeAliasResolver: TypeAliasResolver

    constructor (modules: seq<Module>)
      ensures this.modules == modules && typeAliasResolver.modules == modules
    {
      this.modules := modules;
      typeAliasResolver := new TypeAliasResolver(modules);
    }

    /** `resolve(text)`, the type-alias resolution having at most `fuel` nested calls. */
    method Resolve(text: string, fuel: nat) returns (r: Result<string, ResolveError>)
      requires typeAliasResolver.modules == modules
      ensures r == CrossReference(modules, text, fuel)
    {
      var resolved := typeAliasResolver.Resolve(text, fuel);
      if resolved.Err? {
        return Err(resolved.error);
      }
      var current := resolved.value;
      for i := 0 to |modules|
        invariant RefModulesPass(modules, resolved.value) == RefModulesPass(modules[i..], current)
      {
        var classes := modules[i].classes;
        assert modules[i..][0] == modules[i] && modules[i..][1..] == modules[i + 1..];
        for j := 0 to |classes|
          invariant RefModulesPass(modules, resolved.value) == ThenClasses(ClassesPass(classes[j..], current), modules[i + 1..])
        {
          assert classes[j..][0] == classes[j] && classes[j..][1..] == classes[j + 1..];
          var reference := "[" + classes[j].name + "](" + classes[j].name + ".md)";
          if classes[j].name == current {
            return Ok(reference);
          }
          current := ReplaceWordCorrected(current, classes[j].name, reference);
        }
      }
      return Ok(current);
    }
  }
}
