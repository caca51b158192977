/**
 * The text helpers of the OpenWorld documentation generator (`docsgen/util.py`):
 * newline handling in docstrings, the stripping of typing wrappers from a type hint,
 * Markdown links to the classes a hint names, and Markdown headers and bullet lists.
 */
module DocsgenUtil {
  import opened Wrappers
  import opened Text

  const NL2 := "\n\n"
  const NL := "\n"
  const BR := "<br/>"

  /** Each run of newlines of `s` shrunk to a single newline. */
  function CollapseNewlines(s: string): (r: string)
    ensures |r| <= |s|
    decreases |s|
  {
    if |s| < 2 then s
    else if s[0] == '\n' && s[1] == '\n' then CollapseNewlines(s[1..])
    else [s[0]] + CollapseNewlines(s[1..])
  }

  /** Prepending one character to a collapsed text merges it into a leading newline run. */
  lemma CollapseCons(c: char, t: string)
    ensures CollapseNewlines([c] + t) ==
            if c == '\n' && |t| > 0 && t[0] == '\n' then CollapseNewlines(t) else [c] + CollapseNewlines(t)
  {
    assert ([c] + t)[1..] == t;
  }

  lemma {:induction false} ReplaceShorter(s: string, pat: string, rep: string)
    requires |rep| < |pat| && Contains(s, pat)
    ensures |Replace(s, pat, rep)| < |s|
    decreases |s|
  {
    var i :| 0 <= i <= |s| && OccursAt(s, pat, i);
    if s[..|pat|] == pat {
      ReplaceNotLonger(s[|pat|..], pat, rep);
    } else {
      assert i > 0;
      OccursShift(s, pat, i - 1);
      ReplaceShorter(s[1..], pat, rep);
    }
  }

  /** Merging one pair of newlines keeps the first character of a text a newline or not. */
  lemma ReplaceHead(s: string)
    ensures |Replace(s, NL2, NL)| > 0 <==> |s| > 0
    ensures |s| > 0 ==> (Replace(s, NL2, NL)[0] == '\n' <==> s[0] == '\n')
  {
  }

  /** `text.replace("\n\n", "\n")` leaves the collapsed form of `text` as it was. */
  lemma {:induction false} ReplaceKeepsCollapse(s: string)
    ensures CollapseNewlines(Replace(s, NL2, NL)) == CollapseNewlines(s)
    decreases |s|
  {
    if |s| >= 2 {
      if s[..2] == NL2 {
        var q := s[2..];
        ReplaceKeepsCollapse(q);
        ReplaceHead(q);
        assert Replace(s, NL2, NL) == [NL[0]] + Replace(q, NL2, NL);
        CollapseCons('\n', Replace(q, NL2, NL));
        CollapseCons('\n', q);
        assert s[1..] == [NL[0]] + q;
      } else {
        ReplaceKeepsCollapse(s[1..]);
        ReplaceHead(s[1..]);
        assert Replace(s, NL2, NL) == [s[0]] + Replace(s[1..], NL2, NL);
        CollapseCons(s[0], Replace(s[1..], NL2, NL));
        assert [s[0]] + s[1..] == s;
        CollapseCons(s[0], s[1..]);
      }
    }
  }

  /** A text without two newlines in a row is its own collapsed form. */
  lemma {:induction false} CollapseFixed(s: string)
    requires !Contains(s, NL2)
    ensures CollapseNewlines(s) == s
    decreases |s|
  {
    if |s| >= 2 {
      assert !OccursAt(s, NL2, 0);
      assert !(s[0] == '\n' && s[1] == '\n');
      assert !Contains(s[1..], NL2) by {
        forall i | 0 <= i <= |s[1..]| && OccursAt(s[1..], NL2, i) ensures false {
          OccursShift(s, NL2, i);
        }
      }
      CollapseFixed(s[1..]);
    }
  }

  /** The collapsed form never holds two newlines in a row. */
  lemma {:induction false} CollapseSingle(s: string)
    ensures !Contains(CollapseNewlines(s), NL2)
    decreases |s|
  {
    var r := CollapseNewlines(s);
    if |s| >= 2 {
      CollapseSingle(s[1..]);
      if !(s[0] == '\n' && s[1] == '\n') {
        var t := CollapseNewlines(s[1..]);
        assert r == [s[0]] + t;
        assert |t| > 0 && t[0] == s[1] by {
          CollapseHead(s[1..]);
        }
        forall i | 0 <= i <= |r| ensures !OccursAt(r, NL2, i) {
          if i == 0 {
            assert r[0] == s[0] && (|r| < 2 || r[1] == s[1]);
          } else {
            OccursShift(r, NL2, i - 1);
            assert r[1..] == t;
          }
        }
      }
    } else {
      forall i | 0 <= i <= |r| ensures !OccursAt(r, NL2, i) { }
    }
  }

  lemma CollapseHead(s: string)
    requires |s| > 0
    ensures |CollapseNewlines(s)| > 0 && CollapseNewlines(s)[0] == s[0]
    decreases |s|
  {
    if |s| >= 2 && s[0] == '\n' && s[1] == '\n' {
      CollapseHead(s[1..]);
    }
  }

  /** After `replace("\n", "<br/>")` no newline is left. */
  lemma {:induction false} NoNewlineLeft(s: string)
    ensures '\n' !in Replace(s, NL, BR)
    decreases |s|
  {
    if |s| >= 1 {
      if s[..1] == NL {
        NoNewlineLeft(s[1..]);
      } else {
        NoNewlineLeft(s[1..]);
        assert s[0] != '\n' by { assert s[..1] == [s[0]]; }
      }
    }
  }

  /**
   * What `process_new_lines(text)` returns: the text stripped, each run of newlines
   * merged into one and each remaining newline written as `<br/>`; no newline is left.
   */
  function NewLinesProcessed(text: string): (r: string)
    ensures '\n' !in r
  {
    NoNewlineLeft(CollapseNewlines(Strip(text)));
    Replace(CollapseNewlines(Strip(text)), NL, BR)
  }

  /** `process_new_lines(text)`: merges newline pairs until none is left, then writes `<br/>`. */
  method ProcessNewLines(text: string) returns (r: string)
    ensures r == NewLinesProcessed(text)
  {
    var t := Strip(text);
    while Contains(t, NL2)
      invariant CollapseNewlines(t) == CollapseNewlines(Strip(text))
      decreases |t|
    {
      ReplaceShorter(t, NL2, NL);
      ReplaceKeepsCollapse(t);
      t := Replace(t, NL2, NL);
    }
    CollapseFixed(t);
    r := Replace(t, NL, BR);
  }

  lemma {:induction false} CollapseLast(s: string)
    requires |s| > 0
    ensures |CollapseNewlines(s)| > 0 && CollapseNewlines(s)[|CollapseNewlines(s)| - 1] == s[|s| - 1]
    decreases |s|
  {
    if |s| >= 2 {
      CollapseLast(s[1..]);
    }
  }

  /** Writing newlines as `<br/>` keeps a first and a last character that are not newlines. */
  lemma {:induction false} ReplaceNewlineEnds(s: string)
    requires |s| > 0 && s[0] != '\n' && s[|s| - 1] != '\n'
    ensures var r := Replace(s, NL, BR); |r| > 0 && r[0] == s[0] && r[|r| - 1] == s[|s| - 1]
    decreases |s|
  {
    assert s[..1] != NL by { assert s[..1][0] == s[0]; }
    var rest := s[1..];
    if |rest| > 0 {
      if rest[0] == '\n' {
        var r := Replace(s, NL, BR);
        assert r == [s[0]] + Replace(rest, NL, BR);
        ReplaceNewlineLast(rest);
      } else {
        ReplaceNewlineEnds(rest);
      }
    }
  }

  lemma {:induction false} ReplaceNewlineLast(s: string)
    requires |s| > 0 && s[|s| - 1] != '\n'
    ensures var r := Replace(s, NL, BR); |r| > 0 && r[|r| - 1] == s[|s| - 1]
    decreases |s|
  {
    if |s| > 1 {
      ReplaceNewlineLast(s[1..]);
    } else {
      assert s[..1] != NL by { assert s[..1][0] == s[0]; }
    }
  }

  lemma NewlineFreeLacks(r: string, sub: string)
    requires '\n' !in r && |sub| > 0 && sub[0] == '\n'
    ensures !Contains(r, sub)
  {
    forall i | 0 <= i <= |r| ensures !OccursAt(r, sub, i) {
      if i + |sub| <= |r| {
        assert r[i..i + |sub|][0] == r[i] != '\n';
      }
    }
  }

  /** A text without newlines has nothing for either the merging or the `<br/>` step to change. */
  lemma NoNewlineFixed(r: string)
    requires '\n' !in r
    ensures CollapseNewlines(r) == r && Replace(r, NL, BR) == r
  {
    NewlineFreeLacks(r, NL2);
    NewlineFreeLacks(r, NL);
    CollapseFixed(r);
    ReplaceAbsent(r, NL, BR);
  }

  /** A text with no whitespace at either end is its own stripped form. */
  lemma StripFixed(s: string)
    requires Trimmed(s)
    ensures Strip(s) == s
  {
    assert LStrip(s) == s;
  }

  lemma CollapseTrimmed(u: string)
    requires Trimmed(u)
    ensures Trimmed(CollapseNewlines(u))
  {
    if |u| > 0 {
      CollapseHead(u);
      CollapseLast(u);
    }
  }

  lemma ReplaceTrimmed(c: string)
    requires Trimmed(c)
    ensures Trimmed(Replace(c, NL, BR))
  {
    if |c| > 0 {
      ReplaceNewlineEnds(c);
    }
  }

  /** The processed text has no whitespace at either end. */
  lemma ProcessedEnds(text: string)
    ensures Trimmed(NewLinesProcessed(text))
  {
    CollapseTrimmed(Strip(text));
    ReplaceTrimmed(CollapseNewlines(Strip(text)));
  }

  /** A text with trimmed ends and no newline is its own processed form. */
  lemma ProcessedFixed(r: string)
    requires Trimmed(r) && '\n' !in r
    ensures NewLinesProcessed(r) == r
  {
    StripFixed(r);
    NoNewlineFixed(r);
  }

  /**
   * `process_new_lines` is idempotent: processing an already processed docstring
   * again, as the model constructors of the documentation generator do, changes nothing.
   */
  lemma NewLinesProcessedIdempotent(text: string)
    ensures NewLinesProcessed(NewLinesProcessed(text)) == NewLinesProcessed(text)
  {
    ProcessedEnds(text);
    ProcessedFixed(NewLinesProcessed(text));
  }

  const CONSTR := "constr"

  /**
   * `__remove_constr(datatype)`: without `constr` the text is returned as it is.
   * Otherwise the span from the first `constr(` to the last `)` is cut out wherever
   * it occurs. With `constr` but no `constr(`, `find` gives -1 and the slice starts
   * at the last character: only when the text ends with `)` is it cut, which removes
   * every `)`.
   */
  method RemoveConstr(hint: string) returns (r: string)
    ensures !Contains(hint, CONSTR) ==> r == hint
    ensures Contains(hint, CONSTR) ==>
              var left := Find(hint, CONSTR + "(");
              var right := LastIndexOf(hint, ')');
              (left >= 0 ==> r == if right > left then PyRemove(hint, hint[left..right + 1]) else hint) &&
              (left < 0 ==> r == if right == |hint| - 1 then PyRemove(hint, ")") else hint)
    ensures |r| <= |hint|
  {
    if !Contains(hint, CONSTR) {
      return hint;
    }
    assert |hint| >= |CONSTR|;
    var leftIndex := Find(hint, CONSTR + "(");
    var rightIndex := ScanToClose(hint, leftIndex);
    if leftIndex == rightIndex {
      return hint;
    }
    SliceOfSpan(hint, leftIndex, rightIndex);
    r := PyRemove(hint, PySlice(hint, leftIndex, rightIndex + 1));
  }

  /** The slice `datatype[left : right + 1]` for a span found by the scan, `left` being -1 when `find` failed. */
  lemma SliceOfSpan(hint: string, left: int, right: int)
    requires -1 <= left < right < |hint|
    requires right == LastIndexOf(hint, ')')
    ensures left >= 0 ==> PySlice(hint, left, right + 1) == hint[left..right + 1]
    ensures left < 0 && right == |hint| - 1 ==> PySlice(hint, left, right + 1) == ")"
    ensures left < 0 && right < |hint| - 1 ==> PySlice(hint, left, right + 1) == ""
  {
    if left < 0 && right == |hint| - 1 {
      assert hint[|hint| - 1..|hint|] == [hint[|hint| - 1]];
    }
  }

  /**
   * The `while` loop of `__remove_constr`: from the end of the text back to the last
   * `)`, stopping at `left` if there is none after it.
   */
  method ScanToClose(hint: string, left: int) returns (right: int)
    requires -1 <= left < |hint| && |hint| > 0
    ensures left <= right < |hint|
    ensures right > left ==> right == LastIndexOf(hint, ')')
    ensures right == left ==> LastIndexOf(hint, ')') <= left
  {
    right := |hint| - 1;
    while PyIndex(hint, right) != ')' && right > left
      invariant left <= right <= |hint| - 1
      invariant forall k :: right < k < |hint| ==> hint[k] != ')'
      decreases right - left
    {
      right := right - 1;
    }
    if right > left {
      LastIndexOfAt(hint, ')', right);
    } else {
      LastIndexOfAtMost(hint, ')', right);
    }
  }

  /** The `typing` wrappers `remove_builtin_type_aliases` peels off a hint. */
  const BUILTIN_TYPE_ALIASES := ["Optional", "Union", "Set", "Dict", "List", "ChainMap", "Counter", "DefaultDict",
                                 "OrderedDict", "FrozenSet", "NamedTuple", "TypedDict", "Generator", "Literal"]

  /** The names that never get a reference. */
  const GENERIC_DATATYPES := ["None", "Any", "AnyUrl", "Enum", "BaseModel", "ClientConfig"]

  /** A name worth a reference: not empty, upper case first, not a generic type. */
  predicate Qualifies(name: string) {
    name != "" && name !in GENERIC_DATATYPES && IsUpper(name[0])
  }

  /** A prefix of a text that does not start with `p` does not start with `p` either. */
  lemma StartsWithPrefix(t: string, m: nat, p: string)
    requires m <= |t|
    ensures StartsWith(t[..m], p) ==> StartsWith(t, p)
  {
    if StartsWith(t[..m], p) {
      assert t[..m][..|p|] == t[..|p|];
    }
  }

  /**
   * One run of the `for type_alias in builtin_type_aliases` loop: every wrapper
   * name followed by `[` at the front is removed (and the run reports it), and
   * otherwise any trailing `]` are removed. A run that removes no wrapper leaves a
   * text that starts with none of them and does not end with `]`.
   */
  method AliasPass(hint: string) returns (r: string, removed: bool)
    ensures |r| <= |hint|
    ensures removed ==> |r| < |hint|
    ensures !removed ==> !EndsWith(r, "]")
    ensures !removed ==> forall a :: a in BUILTIN_TYPE_ALIASES ==> !StartsWith(r, a + "[")
  {
    r, removed := hint, false;
    for i := 0 to |BUILTIN_TYPE_ALIASES|
      invariant |r| <= |hint| && (removed ==> |r| < |hint|)
      invariant !removed ==> r == hint[..|r|]
      invariant !removed && i > 0 ==> !EndsWith(r, "]")
      invariant !removed ==> forall a :: a in BUILTIN_TYPE_ALIASES[..i] ==> !StartsWith(r, a + "[")
    {
      var typeAlias := BUILTIN_TYPE_ALIASES[i];
      assert BUILTIN_TYPE_ALIASES[..i + 1] == BUILTIN_TYPE_ALIASES[..i] + [typeAlias];
      if StartsWith(r, typeAlias + "[") {
        removed := true;
        r := r[|typeAlias + "["|..];
      } else if EndsWith(r, "]") {
        ghost var before := r;
        while EndsWith(r, "]")
          invariant |r| <= |before| && r == before[..|r|]
          decreases |r|
        {
          r := r[..|r| - 1];
        }
        forall a | a in BUILTIN_TYPE_ALIASES[..i + 1] ensures !removed ==> !StartsWith(r, a + "[") {
          StartsWithPrefix(before, |r|, a + "[");
        }
        assert !removed ==> r == hint[..|r|] by {
          if !removed { assert before[..|r|] == hint[..|before|][..|r|]; }
        }
      }
    }
    assert BUILTIN_TYPE_ALIASES[..|BUILTIN_TYPE_ALIASES|] == BUILTIN_TYPE_ALIASES;
  }

  /**
   * `remove_builtin_type_aliases(datatype)`: the names of a type hint that may get a
   * reference. Spaces go, the wrappers are peeled until none is left at the front, a
   * `constr(...)` is cut out, and a comma-separated hint is handled piece by piece,
   * keeping the first name of each piece. Every name returned starts with an upper
   * case letter, is not a generic type and holds no comma.
   */
  method RemoveBuiltinTypeAliases(hint: string) returns (result: seq<string>)
    ensures forall x :: x in result ==> Qualifies(x) && ',' !in x
    decreases |hint|, 1
  {
    var d := Strip(hint);
    ReplaceNotLonger(d, " ", "");
    d := Replace(d, " ", "");
    d := PeelAliases(d);
    if Contains(d, CONSTR) {
      d := RemoveConstr(d);
    }
    if ',' in d {
      result := FirstNamesOfPieces(d);
    } else {
      result := if Qualifies(d) then [d] else [];
    }
  }

  /** The `while has_type_alias` loop: runs until one removes no wrapper. */
  method PeelAliases(hint: string) returns (d: string)
    ensures |d| <= |hint|
    ensures !EndsWith(d, "]") && forall a :: a in BUILTIN_TYPE_ALIASES ==> !StartsWith(d, a + "[")
  {
    d := hint;
    var hasTypeAlias := true;
    while hasTypeAlias
      invariant |d| <= |hint|
      invariant !hasTypeAlias ==> !EndsWith(d, "]") && forall a :: a in BUILTIN_TYPE_ALIASES ==> !StartsWith(d, a + "[")
      decreases |d|, hasTypeAlias
    {
      d, hasTypeAlias := AliasPass(d);
    }
  }

  /** The comma branch: each piece processed on its own, then the qualifying first names kept in order. */
  method FirstNamesOfPieces(d: string) returns (result: seq<string>)
    requires ',' in d
    ensures forall x :: x in result ==> Qualifies(x) && ',' !in x
    decreases |d|, 0
  {
    var pieces := Split(d, ',');
    SplitPiecesShorter(d, ',');
    ghost var original := pieces;
    for index := 0 to |pieces|
      invariant |pieces| == |original|
      invariant forall j :: index <= j < |pieces| ==> pieces[j] == original[j]
      invariant forall j :: 0 <= j < index ==> pieces[j] == "" || (Qualifies(pieces[j]) && ',' !in pieces[j])
    {
      assert original[index] in original;
      var processed := RemoveBuiltinTypeAliases(pieces[index]);
      pieces := pieces[index := if processed != [] then processed[0] else ""];
    }
    result := [];
    for j := 0 to |pieces|
      invariant forall x :: x in result ==> Qualifies(x) && ',' !in x
    {
      var value := pieces[j];
      if value != "" && value !in GENERIC_DATATYPES && IsUpper(value[0]) {
        result := result + [value];
      }
    }
  }

  const MARKDOWN_SUFFIX := ".md"

  /** The Markdown link to a class's page. */
  function Reference(name: string): (r: string)
    ensures |r| == 2 * |name| + 7
  {
    "[" + name + "](" + name + MARKDOWN_SUFFIX + ")"
  }

  /**
   * A match that `add_reference_to_datatype` accepts: the characters just before and
   * just after it, where they exist, are not letters.
   */
  predicate WholeWordAt(text: string, name: string, i: int) {
    OccursAt(text, name, i) &&
    (i == 0 || !IsAlpha(text[i - 1])) && (i + |name| == |text| || !IsAlpha(text[i + |name|]))
  }

  /** The `k`-th match is the first of `m` that stands as a whole word. */
  predicate FirstWholeWord(text: string, name: string, m: seq<int>, k: int) {
    0 <= k < |m| && WholeWordAt(text, name, m[k]) &&
    forall l :: 0 <= l < k ==> !WholeWordAt(text, name, m[l])
  }

  /** The text with the match at `i` replaced by the link. */
  function Linked(text: string, name: string, i: int): (r: string)
    requires OccursAt(text, name, i)
    ensures |r| == |text| + |name| + 7
  {
    text[..i] + Reference(name) + text[i + |name|..]
  }

  /**
   * `add_reference_to_datatype(datatype, to_add_reference)`: a text exactly as long
   * as the name becomes the link; otherwise the first match that stands as a whole
   * word is replaced by the link, and without one the text is returned unchanged.
   */
  method AddReferenceToDatatype(text: string, name: string) returns (r: string)
    ensures |text| == |name| ==> r == Reference(name)
    ensures |text| != |name| ==>
              var m := FindIter(text, name, 0);
              (r == text && forall k :: 0 <= k < |m| ==> !WholeWordAt(text, name, m[k])) ||
              (exists k :: FirstWholeWord(text, name, m, k) && r == Linked(text, name, m[k]))
    ensures |r| >= |text|
  {
    var reference := Reference(name);
    var length := |name|;
    if |text| == length {
      return reference;
    }
    var m := FindIter(text, name, 0);
    for k := 0 to |m|
      invariant forall l :: 0 <= l < k ==> !WholeWordAt(text, name, m[l])
    {
      var index := m[k];
      assert OccursAt(text, name, index);
      if index == 0 && !IsAlpha(text[length]) {
        r := reference + text[length..];
      } else if index + length == |text| && !IsAlpha(PyIndex(text, index - 1)) {
        r := text[..index] + reference;
      } else if !IsAlpha(PyIndex(text, index - 1)) && !IsAlpha(text[index + length]) {
        r := text[..index] + reference + text[index + length..];
      } else {
        continue;
      }
      assert WholeWordAt(text, name, index) && r == Linked(text, name, index);
      assert FirstWholeWord(text, name, m, k);
      assert exists k' :: FirstWholeWord(text, name, m, k') && r == Linked(text, name, m[k']);
      assert m == FindIter(text, name, 0);
      return;
    }
    return text;
  }

  /**
   * `get_datatype_reference(datatype)`: `None` for an empty hint; otherwise the hint
   * with a link added for each name `remove_builtin_type_aliases` finds in it, in
   * order. Links are only ever added: the result is never shorter than the hint.
   */
  method GetDatatypeReference(hint: string) returns (r: Option<string>)
    ensures r.None? <==> hint == ""
    ensures r.Some? ==> |r.value| >= |hint|
  {
    if hint == "" {
      return None;
    }
    var processed := RemoveBuiltinTypeAliases(hint);
    if processed == [] {
      return Some(hint);
    }
    var d := hint;
    for i := 0 to |processed|
      invariant |d| >= |hint|
    {
      d := AddReferenceToDatatype(d, processed[i]);
    }
    return Some(d);
  }

  /** A Markdown header of the given level: that many `#`, a space, the content. */
  function Header(level: nat, content: string): (r: string)
    ensures |r| == level + 1 + |content|
    ensures forall i :: 0 <= i < level ==> r[i] == '#'
    ensures r[level] == ' ' && r[level + 1..] == content
  {
    seq(level, _ => '#') + " " + content
  }

  /** `header1` */
  function Header1(content: string): string { "# " + content }
  /** `header2` */
  function Header2(content: string): string { "## " + content }
  /** `header3` */
  function Header3(content: string): string { "### " + content }
  /** `header4` */
  function Header4(content: string): string { "#### " + content }

  /** `header1` to `header4` are the headers of levels 1 to 4. */
  lemma HeaderLevels(content: string)
    ensures Header1(content) == Header(1, content)
    ensures Header2(content) == Header(2, content)
    ensures Header3(content) == Header(3, content)
    ensures Header4(content) == Header(4, content)
  {
    assert seq(1, _ => '#') == "#";
    assert seq(2, _ => '#') == "##";
    assert seq(3, _ => '#') == "###";
    assert seq(4, _ => '#') == "####";
  }

  function Bulleted(points: seq<string>): (r: seq<string>)
    ensures |r| == |points|
    ensures forall i :: 0 <= i < |points| ==> r[i] == "+ " + points[i]
  {
    if points == [] then [] else ["+ " + points[0]] + Bulleted(points[1..])
  }

  /** `bullet_points(points)`: one `+ point` line per point, joined by newlines. */
  function BulletPoints(points: seq<string>): (r: string)
    ensures points == [] ==> r == ""
  {
    Join(Bulleted(points), NL)
  }

  /** Cut at its newlines, a bullet list of single-line points is one `+ ` line per point. */
  lemma BulletLines(points: seq<string>)
    requires points != []
    requires forall i :: 0 <= i < |points| ==> '\n' !in points[i]
    ensures Split(BulletPoints(points), '\n') == Bulleted(points)
  {
    var b := Bulleted(points);
    forall i | 0 <= i < |b| ensures '\n' !in b[i] {
      assert b[i] == "+ " + points[i];
    }
    SplitOfJoin(b, '\n');
  }
}
