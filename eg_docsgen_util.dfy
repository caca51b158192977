/**
 * The text helpers of the ExpediaGroup documentation generator (`docsgen/util.py`):
 * Markdown file links, the choice between a docstring's short and long description,
 * and whole-word replacement, the step the resolvers are built on.
 */
module EgDocsgenUtil {
  import opened Wrappers
  import opened Text

  /** `to_markdown_file_ref(filename)`: the link `[filename](filename.md)`. */
  function ToMarkdownFileRef(filename: string): (r: string)
    ensures StartsWith(r, "[" + filename + "](") && EndsWith(r, ".md)")
    ensures r == "[" + filename + "](" + filename + ".md)"
  {
    "[" + filename + "](" + filename + ".md)"
  }

  /** A docstring as the Google-style parser splits it. */
  datatype Docstring = Docstring(shortDescription: Option<string>, longDescription: Option<string>)

  /**
   * `parse_method_description_docstrings(description)`: `""` for an empty or missing
   * description; otherwise the longer of the long and the short description (a
   * missing one counting as `""`), the long one on a tie, as `max(..., key=len)`
   * keeps the first of equals. The parse itself is foreign: `parsed` is its result.
   */
  function ParseMethodDescription(description: Option<string>, parsed: Docstring): (r: string)
    ensures description.None? || description == Some("") ==> r == ""
    ensures description.Some? && description.value != "" ==>
              var l := parsed.longDescription.GetOr("");
              var s := parsed.shortDescription.GetOr("");
              (r == l || r == s) && |r| >= |l| && |r| >= |s| && (|l| >= |s| ==> r == l)
  {
    if description.None? || description.value == "" then ""
    else
      var l := parsed.longDescription.GetOr("");
      var s := parsed.shortDescription.GetOr("");
      if |l| >= |s| then l else s
  }

  /** The error Python raises on an index outside the text. */
  datatype IndexError = IndexError

  /** `not s[i].isalnum()`, or the `IndexError` the index raises. */
  function NotAlnumAt(s: string, i: int): Result<bool, IndexError> {
    match PyAt(s, i)
    case None => Err(IndexError)
    case Some(c) => Ok(!IsAlnum(c))
  }

  /** `not s[i].isalpha()`, or the `IndexError` the index raises. */
  function NotAlphaAt(s: string, i: int): Result<bool, IndexError> {
    match PyAt(s, i)
    case None => Err(IndexError)
    case Some(c) => Ok(!IsAlpha(c))
  }

  /** Python's `a and b` on tests that may raise: `b` is evaluated only when `a` holds. */
  function AndThen(a: Result<bool, IndexError>, b: Result<bool, IndexError>): Result<bool, IndexError> {
    match a
    case Err(e) => Err(e)
    case Ok(x) => if x then b else Ok(false)
  }

  /** Python's `a or b` on tests that may raise: `b` is evaluated only when `a` fails. */
  function OrElse(a: Result<bool, IndexError>, b: Result<bool, IndexError>): Result<bool, IndexError> {
    match a
    case Err(e) => Err(e)
    case Ok(x) => if x then Ok(true) else b
  }

  /**
   * The `if`/`elif` chain of the `replace_word` loop at `index` in the current text
   * `t`: whether the match there is replaced, or the `IndexError` a test raises. As
   * written (`corrected` false) the first test reads one past the text when the word
   * is the whole text, and the middle test asks `isalpha` before the match but
   * `isalnum` after it. Corrected, a word that is the whole text is replaced and the
   * middle test asks `isalnum` on both sides.
   */
  function Replaces(t: string, n: nat, index: int, corrected: bool): Result<bool, IndexError> {
    var before := if corrected then NotAlnumAt(t, index - 1) else NotAlphaAt(t, index - 1);
    OrElse(Ok(corrected && index == 0 && n == |t|),
    OrElse(AndThen(Ok(index == 0), NotAlnumAt(t, n)),
    OrElse(AndThen(Ok(index + n == |t|), NotAlnumAt(t, index - 1)),
           AndThen(before, NotAlnumAt(t, index + n)))))
  }

  /**
   * `t[:index] + rep + t[index + n:]`. Each replacing branch builds this text: at the
   * start `t[:0]` is empty, at the end `t[index + n:]` is.
   */
  function Splice(t: string, index: int, n: nat, rep: string): string {
    PySlice(t, 0, index) + rep + PySlice(t, index + n, |t|)
  }

  /**
   * The body of the loop at `index` in the current text `t`: the new text when the
   * match there is replaced, `None` when it is kept.
   */
  function ReplaceStep(t: string, word: string, rep: string, index: int, corrected: bool)
    : Result<Option<string>, IndexError>
  {
    match Replaces(t, |word|, index, corrected)
    case Err(e) => Err(e)
    case Ok(b) => Ok(if b then Some(Splice(t, index, |word|, rep)) else None)
  }

  /** A loop body: from the current text and a moved match start, the replaced text, `None`, or an error. */
  type Step = (string, int) -> Result<Option<string>, IndexError>

  /** The body of the `replace_word` loop for `word` and `rep`. */
  function WordStep(word: string, rep: string, corrected: bool): Step {
    (t: string, index: int) => ReplaceStep(t, word, rep, index, corrected)
  }

  /** Where the loop stands: the current text and the length change of the replacements so far. */
  datatype Progress = Progress(text: string, offset: int)

  /** The progress after one step: raised, kept, or replaced with the length change `growth`. */
  function Advance(p: Progress, r: Result<Option<string>, IndexError>, growth: int): Result<Progress, IndexError> {
    match r
    case Err(e) => Err(e)
    case Ok(None) => Ok(p)
    case Ok(Some(t')) => Ok(Progress(t', p.offset + growth))
  }

  /**
   * The first `j` iterations of the loop over the match starts `m` of the original
   * text: each start is moved by the offset reached before it, and every replacement
   * changes the offset by `growth`.
   */
  function ReplacePrefix(text: string, m: seq<int>, j: nat, step: Step, growth: int): Result<Progress, IndexError>
    requires j <= |m|
  {
    if j == 0 then Ok(Progress(text, 0))
    else
      match ReplacePrefix(text, m, j - 1, step, growth)
      case Err(e) => Err(e)
      case Ok(p) => Advance(p, step(p.text, m[j - 1] + p.offset), growth)
  }

  /** The whole loop over the match starts `m`: the final text, or the error raised on the way. */
  function ReplaceMatches(text: string, m: seq<int>, step: Step, growth: int): Result<string, IndexError> {
    match ReplacePrefix(text, m, |m|, step, growth)
    case Err(e) => Err(e)
    case Ok(p) => Ok(p.text)
  }

  /** What `replace_word(text, word, replacement)` returns or raises. */
  function ReplaceWordResult(text: string, word: string, rep: string, corrected: bool): (r: Result<string, IndexError>)
    ensures |word| > |text| ==> r == Ok(text)
  {
    if |word| > |text| then Ok(text)
    else ReplaceMatches(text, FindIter(text, word, 0), WordStep(word, rep, corrected), |rep| - |word|)
  }

  /** Once the loop has raised, the rest of the matches do not matter. */
  lemma {:induction false} ErrorSticks(text: string, m: seq<int>, j: nat, i: nat, step: Step, growth: int)
    requires j <= i <= |m| && ReplacePrefix(text, m, j, step, growth).Err?
    ensures ReplacePrefix(text, m, i, step, growth) == ReplacePrefix(text, m, j, step, growth)
    decreases i
  {
    if i > j {
      ErrorSticks(text, m, j, i - 1, step, growth);
    }
  }

  /** `replace_word`, as written or corrected. */
  method ReplaceWordLoop(text: string, word: string, replacement: string, corrected: bool)
    returns (r: Result<string, IndexError>)
    ensures r == ReplaceWordResult(text, word, replacement, corrected)
  {
    if |word| > |text| {
      return Ok(text);
    }
    var m := FindIter(text, word, 0);
    var indexChangeRatio := |replacement| - |word|;
    r := ReplaceMatchesLoop(text, m, WordStep(word, replacement, corrected), indexChangeRatio);
  }

  /**
   * The `for` loop of `replace_word` over the match starts `m`: each start moved by
   * the offset, the body applied, and on a replacement the offset grown by `growth`.
   */
  method ReplaceMatchesLoop(text: string, m: seq<int>, step: Step, growth: int) returns (r: Result<string, IndexError>)
    ensures r == ReplaceMatches(text, m, step, growth)
  {
    var indexChangeValue := 0;
    var t := text;
    for k := 0 to |m|
      invariant ReplacePrefix(text, m, k, step, growth) == Ok(Progress(t, indexChangeValue))
    {
      var index := m[k] + indexChangeValue;
      match step(t, index) {
        case Err(e) =>
          ErrorSticks(text, m, k + 1, |m|, step, growth);
          return Err(e);
        case Ok(None) =>
        case Ok(Some(replaced)) =>
          t := replaced;
          indexChangeValue := indexChangeValue + growth;
      }
    }
    return Ok(t);
  }

  /** `replace_word(text, word, replacement)`, as written. */
  method ReplaceWord(text: string, word: string, replacement: string) returns (r: Result<string, IndexError>)
    ensures r == ReplaceWordResult(text, word, replacement, false)
  {
    r := ReplaceWordLoop(text, word, replacement, false);
  }

  /** `replace_word` with the two boundary tests corrected. */
  method ReplaceWordCorrected(text: string, word: string, replacement: string) returns (r: string)
    ensures Ok(r) == ReplaceWordResult(text, word, replacement, true)
  {
    var res := ReplaceWordLoop(text, word, replacement, true);
    CorrectedNeverFails(text, word, replacement);
    r := res.value;
  }

  /** `FindIter` from `start` on a text where `word` occurs at `j` and at no other index from `start`. */
  lemma {:induction false} FindIterUnique(s: string, word: string, start: nat, j: int)
    requires |word| > 0 && start <= j && OccursAt(s, word, j)
    requires forall i :: start <= i && OccursAt(s, word, i) ==> i == j
    ensures FindIter(s, word, start) == [j]
    decreases |s| - start
  {
    if start < j {
      assert !OccursAt(s, word, start);
      FindIterUnique(s, word, start + 1, j);
    } else {
      FindIterNone(s, word, j + |word|);
    }
  }

  lemma {:induction false} FindIterNone(s: string, word: string, start: nat)
    requires |word| > 0 && start <= |s|
    requires forall i :: start <= i && OccursAt(s, word, i) ==> false
    ensures FindIter(s, word, start) == []
    decreases |s| - start
  {
    if start + |word| <= |s| {
      assert !OccursAt(s, word, start);
      FindIterNone(s, word, start + 1);
    }
  }

  /** A text with no match is returned unchanged. */
  lemma AbsentWordUnchanged(text: string, word: string, rep: string, corrected: bool)
    requires |word| > 0 && !Contains(text, word)
    ensures ReplaceWordResult(text, word, rep, corrected) == Ok(text)
  {
    if |word| <= |text| {
      FindIterNone(text, word, 0);
    }
  }

  /** The only occurrence of `word` in `pre + word + post` is at `|pre|`. */
  ghost predicate OnlyOccurrence(pre: string, word: string, post: string) {
    OccursAt(pre + word + post, word, |pre|) &&
    forall i :: OccursAt(pre + word + post, word, i) ==> i == |pre|
  }

  /** With a single match at `i`, `replace_word` is that one step. */
  lemma SingleMatch(t: string, word: string, rep: string, i: int, corrected: bool)
    requires |word| > 0 && 0 <= i && OccursAt(t, word, i)
    requires forall j :: OccursAt(t, word, j) ==> j == i
    ensures ReplaceWordResult(t, word, rep, corrected) ==
            match ReplaceStep(t, word, rep, i, corrected)
            case Err(e) => Err(e)
            case Ok(None) => Ok(t)
            case Ok(Some(t')) => Ok(t')
  {
    FindIterUnique(t, word, 0, i);
    var step := WordStep(word, rep, corrected);
    assert step(t, i + 0) == ReplaceStep(t, word, rep, i, corrected);
    assert ReplacePrefix(t, [i], 1, step, |rep| - |word|) ==
           Advance(Progress(t, 0), ReplaceStep(t, word, rep, i, corrected), |rep| - |word|);
  }

  lemma SpliceAt(pre: string, word: string, post: string, rep: string)
    ensures Splice(pre + word + post, |pre|, |word|, rep) == pre + rep + post
  {
    var t := pre + word + post;
    assert PySlice(t, 0, |pre|) == pre by {
      if |pre| > 0 {
        assert t[0..|pre|] == pre;
      }
    }
    assert PySlice(t, |pre| + |word|, |t|) == post by {
      if |post| > 0 {
        assert t[|pre| + |word|..|t|] == post;
      }
    }
  }

  /** A word at the start, at the end or in the middle, with no letter or digit beside it, is replaced. */
  lemma WholeWordReplaced(pre: string, word: string, post: string, rep: string, corrected: bool)
    requires |word| > 0 && OnlyOccurrence(pre, word, post)
    requires pre != "" || post != ""
    requires pre == "" || !IsAlnum(pre[|pre| - 1])
    requires post == "" || !IsAlnum(post[0])
    ensures ReplaceWordResult(pre + word + post, word, rep, corrected) == Ok(pre + rep + post)
  {
    var t := pre + word + post;
    var i := |pre|;
    var n := |word|;
    SingleMatch(t, word, rep, i, corrected);
    SpliceAt(pre, word, post, rep);
    if pre != "" {
      assert t[i - 1] == pre[|pre| - 1];
    }
    if post != "" {
      assert t[i + n] == post[0];
    }
    assert Replaces(t, n, i, corrected) == Ok(true);
  }

  /** A word with a letter or digit on both sides is kept. */
  lemma EmbeddedWordKept(pre: string, word: string, post: string, rep: string, corrected: bool)
    requires |word| > 0 && OnlyOccurrence(pre, word, post)
    requires pre != "" && post != ""
    requires IsAlnum(pre[|pre| - 1]) && IsAlnum(post[0])
    ensures ReplaceWordResult(pre + word + post, word, rep, corrected) == Ok(pre + word + post)
  {
    var t := pre + word + post;
    SingleMatch(t, word, rep, |pre|, corrected);
    assert t[|pre| - 1] == pre[|pre| - 1];
    assert t[|pre| + |word|] == post[0];
    assert Replaces(t, |word|, |pre|, corrected) == Ok(false);
  }

  /** As written, replacing a word in a text that is exactly that word raises `IndexError`. */
  lemma WholeTextRaises(word: string, rep: string)
    requires |word| > 0
    ensures ReplaceWordResult(word, word, rep, false) == Err(IndexError)
  {
    SingleMatch(word, word, rep, 0, false);
    assert Replaces(word, |word|, 0, false) == Err(IndexError);
  }

  /** Corrected, a text that is exactly the word becomes the replacement. */
  lemma WholeTextReplaced(word: string, rep: string)
    requires |word| > 0
    ensures ReplaceWordResult(word, word, rep, true) == Ok(rep)
  {
    assert "" + word + "" == word && "" + rep + "" == rep;
    SingleMatch(word, word, rep, 0, true);
    SpliceAt("", word, "", rep);
    assert Replaces(word, |word|, 0, true) == Ok(true);
  }

  /**
   * As written, a word at the end of the text right after a digit raises `IndexError`:
   * the middle test lets the digit through and then reads past the end.
   */
  lemma DigitBeforeFinalWordRaises(pre: string, word: string, rep: string)
    requires |word| > 0 && OnlyOccurrence(pre, word, "")
    requires pre != "" && IsDigit(pre[|pre| - 1])
    ensures ReplaceWordResult(pre + word, word, rep, false) == Err(IndexError)
  {
    var t := pre + word;
    assert pre + word + "" == t;
    SingleMatch(t, word, rep, |pre|, false);
    assert t[|pre| - 1] == pre[|pre| - 1];
    assert Replaces(t, |word|, |pre|, false) == Err(IndexError);
  }

  /**
   * As written, a word inside the text right after a digit is still replaced, since
   * only a letter before it counts as joining it to a longer word.
   */
  lemma DigitBeforeMiddleWordReplaced(pre: string, word: string, post: string, rep: string)
    requires |word| > 0 && OnlyOccurrence(pre, word, post)
    requires pre != "" && IsDigit(pre[|pre| - 1])
    requires post != "" && !IsAlnum(post[0])
    ensures ReplaceWordResult(pre + word + post, word, rep, false) == Ok(pre + rep + post)
  {
    var t := pre + word + post;
    SingleMatch(t, word, rep, |pre|, false);
    SpliceAt(pre, word, post, rep);
    assert t[|pre| - 1] == pre[|pre| - 1];
    assert t[|pre| + |word|] == post[0];
    assert Replaces(t, |word|, |pre|, false) == Ok(true);
  }

  /** Corrected, such a word is embedded and kept. */
  lemma DigitBeforeFinalWordKept(pre: string, word: string, rep: string)
    requires |word| > 0 && OnlyOccurrence(pre, word, "")
    requires pre != "" && IsDigit(pre[|pre| - 1])
    ensures ReplaceWordResult(pre + word, word, rep, true) == Ok(pre + word)
  {
    var t := pre + word;
    assert pre + word + "" == t;
    SingleMatch(t, word, rep, |pre|, true);
    assert t[|pre| - 1] == pre[|pre| - 1];
    assert Replaces(t, |word|, |pre|, true) == Ok(false);
  }

  /** Corrected, a word inside the text right after a digit is embedded and kept too. */
  lemma DigitBeforeMiddleWordKept(pre: string, word: string, post: string, rep: string)
    requires |word| > 0 && OnlyOccurrence(pre, word, post)
    requires pre != "" && IsDigit(pre[|pre| - 1])
    requires post != ""
    ensures ReplaceWordResult(pre + word + post, word, rep, true) == Ok(pre + word + post)
  {
    var t := pre + word + post;
    SingleMatch(t, word, rep, |pre|, true);
    assert t[|pre| - 1] == pre[|pre| - 1];
    assert Replaces(t, |word|, |pre|, true) == Ok(false);
  }

  /** Match starts inside a text of length `len` that do not overlap. */
  ghost predicate InBounds(m: seq<int>, n: nat, len: int) {
    (forall k :: 0 <= k < |m| ==> 0 <= m[k] && m[k] + n <= len) &&
    (forall k, l :: 0 <= k < l < |m| ==> m[k] + n <= m[l])
  }

  /**
   * A loop body that never raises at a match of length `n` inside the text, and whose
   * replacements change the length by `growth`.
   */
  ghost predicate SafeStep(step: Step, n: nat, growth: int) {
    forall t: string, index: int {:trigger step(t, index)} :: 0 <= index && index + n <= |t| ==>
      step(t, index).Ok? && (step(t, index).value.Some? ==> |step(t, index).value.value| == |t| + growth)
  }

  /** The corrected body is such a step. */
  lemma CorrectedStepSafe(word: string, rep: string)
    ensures SafeStep(WordStep(word, rep, true), |word|, |rep| - |word|)
  {
    forall t: string, index: int | 0 <= index && index + |word| <= |t|
      ensures ReplaceStep(t, word, rep, index, true).Ok?
      ensures ReplaceStep(t, word, rep, index, true).value.Some? ==>
                |ReplaceStep(t, word, rep, index, true).value.value| == |t| + |rep| - |word|
    {
      CorrectedTestsSucceed(t, |word|, index);
      SpliceLength(t, index, |word|, rep);
    }
  }

  /** Corrected, the tests at a match inside the text never raise. */
  lemma CorrectedTestsSucceed(t: string, n: nat, index: int)
    requires 0 <= index && index + n <= |t|
    ensures Replaces(t, n, index, true).Ok?
  {
  }

  lemma SpliceLength(t: string, index: int, n: nat, rep: string)
    requires 0 <= index && index + n <= |t|
    ensures |Splice(t, index, n, rep)| == |t| + |rep| - n
  {
  }

  /**
   * With a safe step, the first `j` iterations do not raise; the current text is
   * longer than the original by the offset, and every later match, moved by it,
   * starts inside.
   */
  lemma {:induction false} SafePrefixSucceeds(text: string, m: seq<int>, j: nat, step: Step, n: nat, growth: int)
    requires InBounds(m, n, |text|) && j <= |m| && SafeStep(step, n, growth) && growth + n >= 0
    ensures ReplacePrefix(text, m, j, step, growth).Ok?
    ensures var p := ReplacePrefix(text, m, j, step, growth).value;
            |p.text| == |text| + p.offset && forall k :: j <= k < |m| ==> 0 <= m[k] + p.offset
    decreases j
  {
    if j > 0 {
      SafePrefixSucceeds(text, m, j - 1, step, n, growth);
      var p := ReplacePrefix(text, m, j - 1, step, growth).value;
      var r := step(p.text, m[j - 1] + p.offset);
      assert r.Ok?;
    }
  }

  /** The corrected `replace_word` never raises. */
  lemma CorrectedNeverFails(text: string, word: string, rep: string)
    ensures ReplaceWordResult(text, word, rep, true).Ok?
  {
    if |word| <= |text| {
      MatchesInBounds(text, word);
      CorrectedStepSafe(word, rep);
      SafeMatchesSucceed(text, FindIter(text, word, 0), WordStep(word, rep, true), |word|, |rep| - |word|);
    }
  }

  /** With a safe step, the whole loop over matches inside the text does not raise. */
  lemma SafeMatchesSucceed(text: string, m: seq<int>, step: Step, n: nat, growth: int)
    requires InBounds(m, n, |text|) && SafeStep(step, n, growth) && growth + n >= 0
    ensures ReplaceMatches(text, m, step, growth).Ok?
  {
    SafePrefixSucceeds(text, m, |m|, step, n, growth);
  }

  /** The match starts `re.finditer` yields lie inside the text and do not overlap. */
  lemma MatchesInBounds(text: string, word: string)
    ensures InBounds(FindIter(text, word, 0), |word|, |text|)
  {
    var m := FindIter(text, word, 0);
    forall k | 0 <= k < |m| ensures 0 <= m[k] && m[k] + |word| <= |text| {
      assert OccursAt(text, word, m[k]);
    }
  }
}
