/**
 * The `get_sdk` visitors of the two client generators. From the namespace and the
 * version read from `sdk.config` they derive the names the templates use: the
 * client class name, the lower-case namespace, the distribution id and the package.
 * The configuration file itself is not read here: its two values are parameters.
 */
module SdkInfo {
  import opened Text

  /** The dictionary `get_sdk` returns. */
  datatype Info = Info(api: string, version: string, classname: string, namespace: string,
                       package: string, id: string)

  const CLIENT_SUFFIX := "Client"
  const EG_ID_PREFIX := "expediagroup-sdk-python-"
  const EG_PACKAGE_PREFIX := "expediagroup.sdk."
  const OW_ID_PREFIX := "openworld-sdk-python-"
  const OW_PACKAGE_PREFIX := "openworld.sdk."

  /* ------------------------------------------------------------ expediagroup */

  /** A run with its first character upper-cased and the rest kept as it is. */
  function UpperFirst(w: string): (r: string)
    requires |w| > 0
  {
    [UpperChar(w[0])] + w[1..]
  }

  /** The runs, each with its first character upper-cased, joined without a separator. */
  function UpperFirsts(runs: seq<string>): string
    requires forall i :: 0 <= i < |runs| ==> |runs[i]| > 0
  {
    if runs == [] then [] else UpperFirst(runs[0]) + UpperFirsts(runs[1..])
  }

  /** The expediagroup class name: the alphanumeric runs of the namespace, each starting upper-case. */
  function EgClassname(ns: string): string
  {
    UpperFirsts(FindRuns(ns, AlnumClass))
  }

  /**
   * Against the runs joined as they are, upper-casing first characters changes
   * no length and no character other than by upper-casing it, and the first
   * character of a non-empty result is never lower-case.
   */
  lemma {:induction false} UpperFirstsChars(runs: seq<string>)
    requires forall i :: 0 <= i < |runs| ==> |runs[i]| > 0
    ensures var c, a := UpperFirsts(runs), Join(runs, "");
      && |c| == |a|
      && (forall i :: 0 <= i < |c| ==> c[i] == a[i] || c[i] == UpperChar(a[i]))
      && (c != [] ==> !IsLower(c[0]))
  {
    if runs != [] {
      UpperFirstsChars(runs[1..]);
      JoinNoSepCons(runs[0], runs[1..]);
      var w := runs[0];
      var c, a := UpperFirsts(runs), Join(runs, "");
      assert c == UpperFirst(w) + UpperFirsts(runs[1..]);
      assert a == w + Join(runs[1..], "");
      forall i | 0 <= i < |c| ensures c[i] == a[i] || c[i] == UpperChar(a[i]) {
        if i >= |w| {
          assert c[i] == UpperFirsts(runs[1..])[i - |w|] && a[i] == Join(runs[1..], "")[i - |w|];
        } else if i > 0 {
          assert c[i] == w[i] == a[i];
        }
      }
    }
  }

  /** Lower-casing undoes upper-casing on the characters `UpperFirstsChars` relates. */
  lemma LowerOfUpperCased(c: string, a: string)
    requires |c| == |a|
    requires forall i :: 0 <= i < |c| ==> c[i] == a[i] || c[i] == UpperChar(a[i])
    ensures Lower(c) == Lower(a)
  {
    forall i | 0 <= i < |c| ensures Lower(c)[i] == Lower(a)[i] {
      if c[i] != a[i] {
        LowerUpperChar(a[i]);
      }
    }
  }

  lemma LowerUpperChar(x: char)
    ensures LowerChar(UpperChar(x)) == LowerChar(x)
  {
  }

  /**
   * The class name is the alphanumeric characters of the namespace, in order,
   * each kept or upper-cased, starting with a character that is not lower-case.
   */
  lemma EgClassnameLetters(ns: string)
    ensures var c, a := EgClassname(ns), ClassOnly(ns, AlnumClass);
      && |c| == |a|
      && (forall i :: 0 <= i < |c| ==> (c[i] == a[i] || c[i] == UpperChar(a[i])) && IsAlnum(c[i]))
      && (c != [] ==> !IsLower(c[0]))
      && Lower(c) == Lower(a)
  {
    var c, a := EgClassname(ns), ClassOnly(ns, AlnumClass);
    FindRunsJoin(ns, AlnumClass);
    UpperFirstsChars(FindRuns(ns, AlnumClass));
    LowerOfUpperCased(c, a);
    forall i | 0 <= i < |c| ensures IsAlnum(c[i]) {
      assert InClass(a[i], AlnumClass);
    }
  }

  /** Every character after the first, with a space before each upper-case letter. */
  function SpacedRest(s: string): (r: string)
    ensures forall j :: 0 <= j < |r| && IsUpper(r[j]) ==> j > 0 && r[j - 1] == ' '
    ensures ' ' !in s ==> forall j :: 0 <= j < |r| && r[j] == ' ' ==> j + 1 < |r| && IsUpper(r[j + 1])
  {
    if s == [] then []
    else
      var t := SpacedRest(s[1..]);
      assert ' ' in s ==> ' ' == s[0] || ' ' in s[1..];
      if IsUpper(s[0]) then
        assert forall j :: 2 <= j < 2 + |t| ==> ([' ', s[0]] + t)[j] == t[j - 2];
        [' ', s[0]] + t
      else
        assert forall j :: 1 <= j < 1 + |t| ==> ([s[0]] + t)[j] == t[j - 1];
        [s[0]] + t
  }

  /** `api`: the class name with a space before each upper-case letter that is not its first character. */
  function Spaced(c: string): (r: string)
    ensures c != [] ==> r != [] && r[0] == c[0]
    ensures forall j :: 0 < j < |r| && IsUpper(r[j]) ==> r[j - 1] == ' '
    ensures ' ' !in c ==> forall j :: 0 <= j < |r| && r[j] == ' ' ==> 0 < j && j + 1 < |r| && IsUpper(r[j + 1])
  {
    if c == [] then []
    else
      var t := SpacedRest(c[1..]);
      assert ' ' !in c ==> c[0] != ' ' && ' ' !in c[1..];
      assert forall j :: 1 <= j < 1 + |t| ==> ([c[0]] + t)[j] == t[j - 1];
      [c[0]] + t
  }

  /** Removing the spaces from a text that starts with one character removes that one when it is a space. */
  lemma RemoveSpaceCons(x: char, t: string)
    ensures Replace([x] + t, " ", "") == (if x == ' ' then [] else [x]) + Replace(t, " ", "")
  {
    assert ([x] + t)[..1] == [x] && ([x] + t)[1..] == t;
  }

  lemma {:induction false} SpacedRestRemoved(s: string)
    requires ' ' !in s
    ensures Replace(SpacedRest(s), " ", "") == s
  {
    if s != [] {
      assert ' ' !in s[1..];
      SpacedRestRemoved(s[1..]);
      var t := SpacedRest(s[1..]);
      RemoveSpaceCons(s[0], t);
      if IsUpper(s[0]) {
        RemoveSpaceCons(' ', [s[0]] + t);
        assert [' ', s[0]] + t == [' '] + ([s[0]] + t);
      }
    }
  }

  /** Removing the spaces of `api` gives the class name back. */
  lemma SpacedRemoved(c: string)
    requires ' ' !in c
    ensures PyRemove(Spaced(c), " ") == c
  {
    if c != [] {
      SpacedRestRemoved(c[1..]);
      RemoveSpaceCons(c[0], SpacedRest(c[1..]));
    }
  }

  /**
   * `get_sdk` of the expediagroup generator, for the configured namespace and version:
   * the class name is built from the alphanumeric runs, `api` is the class name spaced
   * out at its upper-case letters, and the namespace is the class name lower-cased.
   */
  function EgGetSdk(ns: string, version: string): (r: Info)
    ensures r.classname == EgClassname(ns) + CLIENT_SUFFIX
    ensures r.api == Spaced(EgClassname(ns))
    ensures r.classname == PyRemove(r.api, " ") + CLIENT_SUFFIX
    ensures forall j :: 0 < j < |r.api| && IsUpper(r.api[j]) ==> r.api[j - 1] == ' '
    ensures r.namespace == Lower(EgClassname(ns)) == Lower(ClassOnly(ns, AlnumClass))
    ensures forall i :: 0 <= i < |r.namespace| ==> IsLower(r.namespace[i]) || IsDigit(r.namespace[i])
    ensures r.id == EG_ID_PREFIX + r.namespace && r.package == EG_PACKAGE_PREFIX + r.namespace
    ensures r.version == version
  {
    var classname := EgClassname(ns);
    EgClassnameLetters(ns);
    assert ' ' !in classname by {
      forall i | 0 <= i < |classname| ensures classname[i] != ' ' {
        assert IsAlnum(classname[i]);
      }
    }
    SpacedRemoved(classname);
    var namespace := Lower(classname);
    Info(Spaced(classname), version, classname + CLIENT_SUFFIX, namespace,
         EG_PACKAGE_PREFIX + namespace, EG_ID_PREFIX + namespace)
  }

  /* --------------------------------------------------------------- openworld */

  /** `"".join(word.capitalize() for word in words)` */
  function Capitalized(words: seq<string>): string
  {
    if words == [] then [] else Capitalize(words[0]) + Capitalized(words[1..])
  }

  /** Capitalising changes only the case: lower-cased, the words read as they were. */
  lemma {:induction false} CapitalizedLower(words: seq<string>)
    ensures Lower(Capitalized(words)) == Lower(Join(words, ""))
  {
    if words != [] {
      var w := words[0];
      CapitalizedLower(words[1..]);
      JoinNoSepCons(w, words[1..]);
      LowerConcat(Capitalize(w), Capitalized(words[1..]));
      LowerConcat(w, Join(words[1..], ""));
      CapitalizeLower(w);
    }
  }

  /** Capitalising one word changes only the case of its characters. */
  lemma CapitalizeLower(w: string)
    ensures Lower(Capitalize(w)) == Lower(w)
  {
    forall i | 0 <= i < |w| ensures Lower(Capitalize(w))[i] == Lower(w)[i] {
      if i == 0 {
        LowerUpperChar(w[0]);
      } else {
        assert Capitalize(w)[i] == Lower(w[1..])[i - 1];
      }
    }
  }

  /** Lower-cased letters are lower-case letters. */
  lemma LowerOfLetters(s: string)
    requires forall i :: 0 <= i < |s| ==> IsAlpha(s[i])
    ensures forall i :: 0 <= i < |Lower(s)| ==> IsLower(Lower(s)[i])
  {
  }

  /**
   * `get_sdk` of the openworld generator: `api` is the configured namespace itself,
   * the class name joins its letter runs capitalised, and the namespace is the
   * letters of `api` lower-cased, so it holds lower-case ASCII letters only.
   */
  function OwGetSdk(api: string, version: string): (r: Info)
    ensures r.api == api && r.version == version
    ensures r.namespace == Lower(ClassOnly(api, AlphaClass))
    ensures forall i :: 0 <= i < |r.namespace| ==> IsLower(r.namespace[i])
    ensures r.classname == Capitalized(FindRuns(api, AlphaClass)) + CLIENT_SUFFIX
    ensures r.id == OW_ID_PREFIX + r.namespace && r.package == OW_PACKAGE_PREFIX + r.namespace
  {
    var classname := Capitalized(FindRuns(api, AlphaClass));
    CapitalizedLower(FindRuns(api, AlphaClass));
    FindRunsJoin(api, AlphaClass);
    LowerOfLetters(ClassOnly(api, AlphaClass));
    var namespace := Lower(classname);
    Info(api, version, classname + CLIENT_SUFFIX, namespace, OW_PACKAGE_PREFIX + namespace, OW_ID_PREFIX + namespace)
  }
}
