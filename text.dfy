/**
 * The handful of Python `str` operations the SDK tools rely on, over `seq<char>`.
 * Character classes are the ASCII ones; Python's Unicode-aware classes agree with
 * them on ASCII input.
 */
module Text {
  import opened Wrappers

  predicate IsUpper(c: char) { 'A' <= c <= 'Z' }
  predicate IsLower(c: char) { 'a' <= c <= 'z' }
  predicate IsDigit(c: char) { '0' <= c <= '9' }
  predicate IsAlpha(c: char) { IsUpper(c) || IsLower(c) }
  predicate IsAlnum(c: char) { IsAlpha(c) || IsDigit(c) }

  /** Python's `str.isspace` on ASCII, plus the two Latin-1 spaces. */
  predicate IsSpace(c: char) {
    c == ' ' || c == '\t' || c == '\n' || c == '\r' || c == '\U{000B}' || c == '\U{000C}'
    || c == '\U{001C}' || c == '\U{001D}' || c == '\U{001E}' || c == '\U{001F}'
    || c == '\U{0085}' || c == ' '
  }

  function LowerChar(c: char): (r: char)
    ensures IsUpper(c) ==> IsLower(r) && r as int == c as int + 32
    ensures !IsUpper(c) ==> r == c
  {
    if IsUpper(c) then (c as int + 32) as char else c
  }

  function UpperChar(c: char): (r: char)
    ensures IsLower(c) ==> IsUpper(r) && r as int == c as int - 32
    ensures !IsLower(c) ==> r == c
  {
    if IsLower(c) then (c as int - 32) as char else c
  }

  /** `str.lower()` */
  function Lower(s: string): (r: string)
    ensures |r| == |s|
    ensures forall i :: 0 <= i < |s| ==> r[i] == LowerChar(s[i])
  {
    if s == [] then [] else [LowerChar(s[0])] + Lower(s[1..])
  }

  /** `str.upper()` */
  function Upper(s: string): (r: string)
    ensures |r| == |s|
    ensures forall i :: 0 <= i < |s| ==> r[i] == UpperChar(s[i])
  {
    if s == [] then [] else [UpperChar(s[0])] + Upper(s[1..])
  }

  /** `str.capitalize()`: first character upper case, the rest lower case. */
  function Capitalize(s: string): (r: string)
    ensures |r| == |s|
    ensures |s| > 0 ==> r[0] == UpperChar(s[0]) && r[1..] == Lower(s[1..])
  {
    if s == [] then [] else [UpperChar(s[0])] + Lower(s[1..])
  }

  predicate StartsWith(s: string, p: string) { |p| <= |s| && s[..|p|] == p }
  predicate EndsWith(s: string, p: string) { |p| <= |s| && s[|s| - |p|..] == p }

  /** `sub` occurs in `s` at index `i`. */
  predicate OccursAt(s: string, sub: string, i: int) {
    0 <= i <= |s| - |sub| && s[i..i + |sub|] == sub
  }

  /** `sub in s` */
  predicate Contains(s: string, sub: string) {
    exists i | 0 <= i <= |s| :: OccursAt(s, sub, i)
  }

  lemma OccursShift(s: string, sub: string, i: int)
    requires |s| > 0 && i >= 0
    ensures OccursAt(s[1..], sub, i) <==> OccursAt(s, sub, i + 1)
  {
    if 0 <= i <= |s[1..]| - |sub| {
      assert s[1..][i..i + |sub|] == s[i + 1..i + 1 + |sub|];
    }
  }

  /** `str.find(sub)`: the first index of `sub` in `s`, or -1. */
  function Find(s: string, sub: string): (r: int)
    ensures r == -1 || OccursAt(s, sub, r)
    ensures forall i :: OccursAt(s, sub, i) ==> r >= 0 && r <= i
    decreases |s|
  {
    if |s| < |sub| then -1
    else if s[..|sub|] == sub then assert OccursAt(s, sub, 0); 0
    else
      var k := Find(s[1..], sub);
      assert forall i :: OccursAt(s, sub, i) ==> i > 0 && OccursAt(s[1..], sub, i - 1) by {
        forall i | OccursAt(s, sub, i) ensures i > 0 && OccursAt(s[1..], sub, i - 1) {
          if i > 0 { OccursShift(s, sub, i - 1); }
        }
      }
      if k < 0 then -1 else OccursShift(s, sub, k); k + 1
  }

  function RemovePrefix(s: string, p: string): (r: string)
    ensures StartsWith(s, p) ==> p + r == s
    ensures !StartsWith(s, p) ==> r == s
  {
    if StartsWith(s, p) then s[|p|..] else s
  }

  function RemoveSuffix(s: string, p: string): (r: string)
    ensures EndsWith(s, p) ==> r + p == s
    ensures !EndsWith(s, p) ==> r == s
  {
    if EndsWith(s, p) then s[..|s| - |p|] else s
  }

  /** Drops leading whitespace. */
  function LStrip(s: string): (r: string)
    ensures |r| <= |s| && r == s[|s| - |r|..]
    ensures r == [] || !IsSpace(r[0])
    ensures forall i :: 0 <= i < |s| - |r| ==> IsSpace(s[i])
  {
    if s == [] || !IsSpace(s[0]) then s else LStrip(s[1..])
  }

  /** Drops trailing whitespace. */
  function RStrip(s: string): (r: string)
    ensures |r| <= |s| && r == s[..|r|]
    ensures r == [] || !IsSpace(r[|r| - 1])
    ensures forall i :: |r| <= i < |s| ==> IsSpace(s[i])
  {
    if s == [] || !IsSpace(s[|s| - 1]) then s else RStrip(s[..|s| - 1])
  }

  /** `str.strip()` */
  function Strip(s: string): (r: string)
    ensures r == [] || (!IsSpace(r[0]) && !IsSpace(r[|r| - 1]))
  {
    RStrip(LStrip(s))
  }

  /** Stripping only removes characters. */
  lemma StripKeeps(s: string, c: char)
    ensures c in Strip(s) ==> c in s
  {
    var l := LStrip(s);
    var r := RStrip(l);
    if c in r {
      var k :| 0 <= k < |r| && r[k] == c;
      assert l[k] == c;
      assert s[|s| - |l| + k] == c;
    }
  }

  /** `s.replace(pat, rep)`: every non-overlapping occurrence, scanned left to right. */
  function Replace(s: string, pat: string, rep: string): string
    requires |pat| > 0
    decreases |s|
  {
    if |s| < |pat| then s
    else if s[..|pat|] == pat then rep + Replace(s[|pat|..], pat, rep)
    else [s[0]] + Replace(s[1..], pat, rep)
  }

  lemma {:induction false} ReplaceAbsent(s: string, pat: string, rep: string)
    requires |pat| > 0 && !Contains(s, pat)
    ensures Replace(s, pat, rep) == s
    decreases |s|
  {
    if |s| >= |pat| {
      assert !OccursAt(s, pat, 0);
      assert s[0..|pat|] == s[..|pat|];
      assert !Contains(s[1..], pat) by {
        forall i | 0 <= i <= |s[1..]| && OccursAt(s[1..], pat, i) ensures false {
          OccursShift(s, pat, i);
        }
      }
      ReplaceAbsent(s[1..], pat, rep);
    }
  }

  /** `s[i]`, where a negative index counts from the end. */
  function PyIndex(s: string, i: int): char
    requires -|s| <= i < |s|
  {
    if i < 0 then s[|s| + i] else s[i]
  }

  /** A slice bound as Python normalises it: negative counts from the end, then clamped. */
  function SliceBound(n: int, i: int): (r: int)
    requires n >= 0
    ensures 0 <= r <= n
  {
    if i < 0 then (if i + n < 0 then 0 else i + n) else if i > n then n else i
  }

  /** `s[i:j]` */
  function PySlice(s: string, i: int, j: int): (r: string)
    ensures |r| <= |s|
  {
    var a := SliceBound(|s|, i);
    var b := SliceBound(|s|, j);
    if a >= b then "" else s[a..b]
  }

  /** `s.replace(pat, "")`: every occurrence removed; an empty pattern removes nothing. */
  function PyRemove(s: string, pat: string): (r: string)
    ensures |r| <= |s|
    ensures pat == "" ==> r == s
  {
    if pat == "" then s else ReplaceNotLonger(s, pat, ""); Replace(s, pat, "")
  }

  lemma {:induction false} ReplaceNotLonger(s: string, pat: string, rep: string)
    requires |rep| <= |pat| && |pat| > 0
    ensures |Replace(s, pat, rep)| <= |s|
    decreases |s|
  {
    if |s| >= |pat| {
      if s[..|pat|] == pat {
        ReplaceNotLonger(s[|pat|..], pat, rep);
      } else {
        ReplaceNotLonger(s[1..], pat, rep);
      }
    }
  }

  /**
   * The start of every match `re.finditer(pat, s)` yields from `start` on, with
   * the name read as literal text: non-overlapping, left to right; an empty pattern
   * matches at every position.
   */
  function FindIter(s: string, pat: string, start: nat): (r: seq<int>)
    requires start <= |s|
    ensures forall k :: 0 <= k < |r| ==> start <= r[k] && OccursAt(s, pat, r[k])
    ensures forall k, l :: 0 <= k < l < |r| ==> r[k] + |pat| <= r[l] && r[k] < r[l]
    decreases |s| - start
  {
    if |pat| == 0 then
      assert OccursAt(s, pat, start);
      [start] + (if start < |s| then FindIter(s, pat, start + 1) else [])
    else if start + |pat| > |s| then []
    else if OccursAt(s, pat, start) then [start] + FindIter(s, pat, start + |pat|)
    else FindIter(s, pat, start + 1)
  }

  /** `s[i]` where Python allows it, `None` where it raises `IndexError`. */
  function PyAt(s: string, i: int): (r: Option<char>)
    ensures r.Some? <==> -|s| <= i < |s|
    ensures 0 <= i < |s| ==> r == Some(s[i])
  {
    if -|s| <= i < |s| then Some(PyIndex(s, i)) else None
  }

  /** `sep.join(parts)` */
  function Join(parts: seq<string>, sep: string): string
  {
    if parts == [] then []
    else if |parts| == 1 then parts[0]
    else parts[0] + sep + Join(parts[1..], sep)
  }

  /** `s.split(c)` for a one-character separator: never empty. */
  function Split(s: string, c: char): (r: seq<string>)
    ensures |r| > 0
    decreases |s|
  {
    var k := IndexOf(s, c);
    if k < 0 then [s] else [s[..k]] + Split(s[k + 1..], c)
  }

  /** No piece of a split holds the separator. */
  lemma {:induction false} SplitPiecesFree(s: string, c: char)
    ensures forall p :: p in Split(s, c) ==> c !in p
    decreases |s|
  {
    var k := IndexOf(s, c);
    if k >= 0 {
      SplitPiecesFree(s[k + 1..], c);
    }
  }

  /** The first index of `c` in `s`, or -1. */
  function IndexOf(s: string, c: char): (r: int)
    ensures -1 <= r < |s|
    ensures r >= 0 ==> s[r] == c && c !in s[..r]
    ensures r < 0 ==> c !in s
  {
    if s == [] then -1
    else if s[0] == c then 0
    else var k := IndexOf(s[1..], c); if k < 0 then -1 else k + 1
  }

  /** The last index of `c` in `s`, or -1. */
  function LastIndexOf(s: string, c: char): (r: int)
    ensures -1 <= r < |s|
    ensures r >= 0 ==> s[r] == c && c !in s[r + 1..]
    ensures r < 0 ==> c !in s
  {
    if s == [] then -1
    else if s[|s| - 1] == c then |s| - 1
    else LastIndexOf(s[..|s| - 1], c)
  }

  /** `c` occurs at `j` and nowhere after it: `j` is the last index of `c`. */
  lemma LastIndexOfAt(s: string, c: char, j: int)
    requires 0 <= j < |s| && s[j] == c
    requires forall k :: j < k < |s| ==> s[k] != c
    ensures LastIndexOf(s, c) == j
  {
  }

  /** `c` occurs nowhere after `j`: its last index is at most `j`. */
  lemma LastIndexOfAtMost(s: string, c: char, j: int)
    requires -1 <= j < |s|
    requires forall k :: j < k < |s| ==> s[k] != c
    ensures LastIndexOf(s, c) <= j
  {
  }

  lemma JoinCons(a: string, rest: seq<string>, sep: string)
    requires rest != []
    ensures Join([a] + rest, sep) == a + sep + Join(rest, sep)
  {
    assert ([a] + rest)[1..] == rest;
  }

  /** Splitting and joining with the same separator gives the text back. */
  lemma {:induction false} SplitJoin(s: string, c: char)
    ensures Join(Split(s, c), [c]) == s
    decreases |s|
  {
    var k := IndexOf(s, c);
    if k >= 0 {
      SplitJoin(s[k + 1..], c);
      JoinAround(s, c, k, Split(s[k + 1..], c));
    }
  }

  /** The step of `SplitJoin`: the first piece, the separator, then the rest rejoined. */
  lemma JoinAround(s: string, c: char, k: int, rest: seq<string>)
    requires 0 <= k < |s| && s[k] == c && rest != []
    requires Join(rest, [c]) == s[k + 1..]
    ensures Join([s[..k]] + rest, [c]) == s
  {
    JoinCons(s[..k], rest, [c]);
    assert s == s[..k] + [s[k]] + s[k + 1..];
  }

  /** Splitting at a first separator that follows a separator-free piece. */
  lemma SplitAtFirst(a: string, b: string, c: char)
    requires c !in a
    ensures Split(a + [c] + b, c) == [a] + Split(b, c)
  {
    var s := a + [c] + b;
    var k := IndexOf(s, c);
    assert s[|a|] == c;
    assert s[..|a|] == a && s[|a| + 1..] == b;
  }

  lemma SplitNone(s: string, c: char)
    requires c !in s
    ensures Split(s, c) == [s]
  {
  }

  /** Joining separator-free pieces and splitting again gives the pieces back. */
  lemma {:induction false} SplitOfJoin(parts: seq<string>, c: char)
    requires parts != []
    requires forall i :: 0 <= i < |parts| ==> c !in parts[i]
    ensures Split(Join(parts, [c]), c) == parts
    decreases |parts|
  {
    if |parts| == 1 {
      SplitNone(parts[0], c);
    } else {
      var rest := parts[1..];
      assert forall i :: 0 <= i < |rest| ==> rest[i] == parts[i + 1];
      SplitOfJoin(rest, c);
      assert c !in parts[0];
      SplitJoinStep(parts[0], rest, c);
    }
  }

  /** The step of `SplitOfJoin`: the first piece comes back first. */
  lemma SplitJoinStep(a: string, rest: seq<string>, c: char)
    requires c !in a && rest != []
    requires Split(Join(rest, [c]), c) == rest
    ensures Split(Join([a] + rest, [c]), c) == [a] + rest
  {
    JoinCons(a, rest, [c]);
    SplitAtFirst(a, Join(rest, [c]), c);
  }

  /** Every piece of a split is no longer than the text, and shorter when the separator occurs. */
  lemma {:induction false} SplitPiecesShorter(s: string, c: char)
    ensures forall p :: p in Split(s, c) ==> |p| <= |s|
    ensures c in s ==> forall p :: p in Split(s, c) ==> |p| < |s|
    decreases |s|
  {
    var k := IndexOf(s, c);
    if k >= 0 {
      SplitPiecesShorter(s[k + 1..], c);
    }
  }

  /** `s.rsplit(c, maxsplit=1).pop(0)`: what precedes the last `c`, or `s` itself. */
  function BeforeLast(s: string, c: char): (r: string)
    ensures c !in s ==> r == s
    ensures c in s ==> exists t :: s == r + [c] + t && c !in t
  {
    var k := LastIndexOf(s, c);
    if k < 0 then s
    else
      assert s == s[..k] + [c] + s[k + 1..];
      s[..k]
  }

  /** `s.rsplit(c, maxsplit=1).pop()`: what follows the last `c`, or `s` itself. */
  function AfterLast(s: string, c: char): (r: string)
    ensures c !in r
    ensures c !in s ==> r == s
    ensures c in s ==> exists t :: s == t + [c] + r
  {
    var k := LastIndexOf(s, c);
    if k < 0 then s
    else
      assert s == s[..k] + [c] + s[k + 1..];
      s[k + 1..]
  }

  function DigitChar(d: nat): (c: char)
    requires d < 10
    ensures IsDigit(c)
  {
    ('0' as int + d) as char
  }

  predicate AllDigits(s: string) { forall i :: 0 <= i < |s| ==> IsDigit(s[i]) }

  /** The value of a decimal numeral, most significant digit first. */
  function DigitsValue(s: string): nat
    requires AllDigits(s)
  {
    if s == [] then 0 else 10 * DigitsValue(s[..|s| - 1]) + (s[|s| - 1] as int - '0' as int)
  }

  /** `str(n)` for a natural number. */
  function ShowNat(n: nat): (r: string)
    ensures |r| > 0 && AllDigits(r)
  {
    if n < 10 then [DigitChar(n)] else ShowNat(n / 10) + [DigitChar(n % 10)]
  }

  lemma {:induction false} ShowNatValue(n: nat)
    ensures DigitsValue(ShowNat(n)) == n
  {
    if n >= 10 {
      ShowNatValue(n / 10);
      var r := ShowNat(n);
      assert r[..|r| - 1] == ShowNat(n / 10);
    }
  }

  /** `str(n)` */
  function ShowInt(n: int): (r: string)
  {
    if n < 0 then "-" + ShowNat(-n) else ShowNat(n)
  }

  /** Python's digit grouping: digits, with single underscores only between two digits. */
  predicate IsGroupedDigits(s: string) {
    |s| > 0 && IsDigit(s[0]) && IsDigit(s[|s| - 1])
    && (forall i :: 0 <= i < |s| ==> IsDigit(s[i]) || s[i] == '_')
    && (forall i :: 0 <= i < |s| - 1 ==> !DoubleUnderscoreAt(s, i))
  }

  predicate DoubleUnderscoreAt(s: string, i: int)
    requires 0 <= i < |s| - 1
  {
    s[i] == '_' && s[i + 1] == '_'
  }

  function WithoutUnderscores(s: string): (r: string)
    ensures (forall i :: 0 <= i < |s| ==> IsDigit(s[i]) || s[i] == '_') ==> AllDigits(r)
  {
    if s == [] then [] else (if s[0] == '_' then [] else [s[0]]) + WithoutUnderscores(s[1..])
  }

  /**
   * `int(s)` on a string: surrounding whitespace, an optional sign and a decimal
   * numeral with optional digit grouping; `None` where Python raises ValueError.
   */
  function ParseInt(s: string): (r: Option<int>)
  {
    ParseStripped(Strip(s))
  }

  /** `int(t)` for a text without surrounding whitespace. */
  function ParseStripped(t: string): (r: Option<int>)
  {
    var neg := |t| > 0 && t[0] == '-';
    var body := if |t| > 0 && (t[0] == '-' || t[0] == '+') then t[1..] else t;
    if IsGroupedDigits(body) then
      var v: int := DigitsValue(WithoutUnderscores(body));
      Some(if neg then -v else v)
    else None
  }

  lemma {:induction false} WithoutUnderscoresOfDigits(s: string)
    requires AllDigits(s)
    ensures WithoutUnderscores(s) == s
  {
    if s != [] {
      assert IsDigit(s[0]);
      WithoutUnderscoresOfDigits(s[1..]);
    }
  }

  lemma StripUnpadded(t: string)
    requires |t| > 0 && !IsSpace(t[0]) && !IsSpace(t[|t| - 1])
    ensures Strip(t) == t
  {
    assert LStrip(t) == t;
    assert RStrip(t) == t;
  }

  lemma GroupedDigitsOfDigits(s: string)
    requires |s| > 0 && AllDigits(s)
    ensures IsGroupedDigits(s)
  {
    assert IsDigit(s[|s| - 1]);
  }

  /** A plain numeral parses to its value. */
  lemma ParseDigits(digits: string)
    requires |digits| > 0 && AllDigits(digits)
    ensures ParseStripped(digits) == Some(DigitsValue(digits) as int)
  {
    assert IsDigit(digits[0]);
    GroupedDigitsOfDigits(digits);
    WithoutUnderscoresOfDigits(digits);
  }

  /** A minus sign followed by a numeral parses to the negated value. */
  lemma ParseNegDigits(t: string, digits: string)
    requires |digits| > 0 && AllDigits(digits)
    requires |t| > 0 && t[0] == '-' && t[1..] == digits
    ensures ParseStripped(t) == Some(-(DigitsValue(digits) as int))
  {
    GroupedDigitsOfDigits(digits);
    WithoutUnderscoresOfDigits(digits);
  }

  /** A numeral, with or without a minus sign, parses to its signed value. */
  lemma ParseNumeral(t: string, digits: string, neg: bool)
    requires |digits| > 0 && AllDigits(digits)
    requires t == if neg then "-" + digits else digits
    ensures ParseInt(t) == Some(if neg then -(DigitsValue(digits) as int) else DigitsValue(digits) as int)
  {
    assert IsDigit(digits[0]) && IsDigit(digits[|digits| - 1]);
    assert t[|t| - 1] == digits[|digits| - 1];
    StripUnpadded(t);
    if neg {
      ParseNegDigits(t, digits);
    } else {
      ParseDigits(digits);
    }
  }

  /** `int(str(n)) == n` */
  lemma ParseShowInt(n: int)
    ensures ParseInt(ShowInt(n)) == Some(n)
  {
    var m: nat := if n < 0 then -n else n;
    ShowNatValue(m);
    ParseNumeral(ShowInt(n), ShowNat(m), n < 0);
  }

  /** Python's `a <= b` on `str`: lexicographic by code point, a prefix first. */
  predicate StrLe(a: string, b: string)
    decreases |a|
  {
    a == [] || (b != [] && (a[0] < b[0] || (a[0] == b[0] && StrLe(a[1..], b[1..]))))
  }

  lemma {:induction false} StrLeTotal(a: string, b: string)
    ensures StrLe(a, b) || StrLe(b, a)
    decreases |a|
  {
    if a != [] && b != [] && a[0] == b[0] {
      StrLeTotal(a[1..], b[1..]);
    }
  }

  lemma {:induction false} StrLeTrans(a: string, b: string, c: string)
    requires StrLe(a, b) && StrLe(b, c)
    ensures StrLe(a, c)
    decreases |a|
  {
    if a != [] && b != [] && c != [] && a[0] == b[0] == c[0] {
      StrLeTrans(a[1..], b[1..], c[1..]);
    }
  }

  lemma {:induction false} StrLeAntisymmetric(a: string, b: string)
    requires StrLe(a, b) && StrLe(b, a)
    ensures a == b
    decreases |a|
  {
    if a != [] {
      StrLeAntisymmetric(a[1..], b[1..]);
    }
  }

  /* ------------------------------------------------ regular expression classes */

  /** A bracketed character class of a regular expression: `[a-zA-Z0-9]`, `[a-zA-Z]`, `[0-9]` or `[A-Z]`. */
  datatype CharClass = AlnumClass | AlphaClass | DigitClass | UpperClass

  predicate InClass(c: char, k: CharClass) {
    match k
    case AlnumClass => IsAlnum(c)
    case AlphaClass => IsAlpha(c)
    case DigitClass => IsDigit(c)
    case UpperClass => IsUpper(c)
  }

  /** The characters of `s` in the class, in order. */
  function ClassOnly(s: string, k: CharClass): (r: string)
    ensures |r| <= |s|
    ensures forall i :: 0 <= i < |r| ==> InClass(r[i], k)
  {
    if s == [] then [] else (if InClass(s[0], k) then [s[0]] else []) + ClassOnly(s[1..], k)
  }

  /** The length of the longest prefix of `s` in the class. */
  function RunLength(s: string, k: CharClass): (n: nat)
    ensures n <= |s|
    ensures forall i :: 0 <= i < n ==> InClass(s[i], k)
    ensures n < |s| ==> !InClass(s[n], k)
  {
    if s == [] || !InClass(s[0], k) then 0 else 1 + RunLength(s[1..], k)
  }

  /** `re.findall("[...]+", s)`: the maximal runs of class characters, left to right. */
  function FindRuns(s: string, k: CharClass): (r: seq<string>)
    ensures forall i :: 0 <= i < |r| ==> |r[i]| > 0
    ensures forall i, j :: 0 <= i < |r| && 0 <= j < |r[i]| ==> InClass(r[i][j], k)
    decreases |s|
  {
    if s == [] then []
    else if !InClass(s[0], k) then FindRuns(s[1..], k)
    else
      var n := RunLength(s, k);
      [s[..n]] + FindRuns(s[n..], k)
  }

  /** A prefix of class characters is kept whole by `ClassOnly`. */
  lemma {:induction false} ClassOnlyPrefix(s: string, k: CharClass, n: nat)
    requires n <= |s| && forall i :: 0 <= i < n ==> InClass(s[i], k)
    ensures ClassOnly(s, k) == s[..n] + ClassOnly(s[n..], k)
  {
    if n > 0 {
      ClassOnlyPrefix(s[1..], k, n - 1);
      assert s[1..][n - 1..] == s[n..];
      assert s[..n] == [s[0]] + s[1..][..n - 1];
    }
  }

  /** Joined without a separator, the runs are exactly the class characters of the text. */
  lemma {:induction false} FindRunsJoin(s: string, k: CharClass)
    ensures Join(FindRuns(s, k), "") == ClassOnly(s, k)
    decreases |s|
  {
    if s != [] {
      if !InClass(s[0], k) {
        FindRunsJoin(s[1..], k);
      } else {
        FindRunsJoin(s[RunLength(s, k)..], k);
        FindRunsJoinStep(s, k);
      }
    }
  }

  /** One run: if the rest joins to its class characters, so does the whole text. */
  lemma FindRunsJoinStep(s: string, k: CharClass)
    requires s != [] && InClass(s[0], k)
    requires Join(FindRuns(s[RunLength(s, k)..], k), "") == ClassOnly(s[RunLength(s, k)..], k)
    ensures Join(FindRuns(s, k), "") == ClassOnly(s, k)
  {
    var n := RunLength(s, k);
    ClassOnlyPrefix(s, k, n);
    JoinNoSepCons(s[..n], FindRuns(s[n..], k));
  }

  /** Joining without a separator puts the pieces side by side. */
  lemma JoinNoSepCons(a: string, rest: seq<string>)
    ensures Join([a] + rest, "") == a + Join(rest, "")
  {
    if rest != [] {
      JoinCons(a, rest, "");
    }
  }

  /** `lower` works character by character. */
  lemma LowerConcat(a: string, b: string)
    ensures Lower(a + b) == Lower(a) + Lower(b)
  {
  }

  /** No whitespace at either end: what `str.strip()` leaves. */
  predicate Trimmed(s: string) {
    s == [] || (!IsSpace(s[0]) && !IsSpace(s[|s| - 1]))
  }

  predicate AllSpace(s: string) {
    forall i :: 0 <= i < |s| ==> IsSpace(s[i])
  }

  lemma {:induction false} LStripPadded(pre: string, t: string)
    requires AllSpace(pre) && (t == [] || !IsSpace(t[0]))
    ensures LStrip(pre + t) == t
    decreases |pre|
  {
    if pre != [] {
      assert (pre + t)[1..] == pre[1..] + t;
      LStripPadded(pre[1..], t);
    }
  }

  lemma {:induction false} RStripPadded(t: string, post: string)
    requires AllSpace(post) && (t == [] || !IsSpace(t[|t| - 1]))
    ensures RStrip(t + post) == t
    decreases |post|
  {
    if post != [] {
      assert (t + post)[..|t + post| - 1] == t + post[..|post| - 1];
      RStripPadded(t, post[..|post| - 1]);
    }
  }

  /** Stripping whitespace padding off a trimmed text gives the text back. */
  lemma StripPadded(pre: string, m: string, post: string)
    requires AllSpace(pre) && AllSpace(post) && Trimmed(m)
    ensures Strip(pre + m + post) == m
  {
    if m == [] {
      assert pre + m + post == pre + post;
      assert AllSpace(pre + post);
      assert LStrip(pre + post) == [];
    } else {
      assert pre + m + post == pre + (m + post);
      LStripPadded(pre, m + post);
      RStripPadded(m, post);
    }
  }

  /** `s.split(c)` has one piece more than `s` has separators. */
  lemma {:induction false} SplitCount(s: string, c: char)
    ensures |Split(s, c)| == multiset(s)[c] + 1
    decreases |s|
  {
    var k := IndexOf(s, c);
    if k >= 0 {
      SplitCount(s[k + 1..], c);
      assert s == s[..k] + [c] + s[k + 1..];
      assert multiset(s) == multiset(s[..k]) + multiset{c} + multiset(s[k + 1..]);
    }
  }

  /** A character in neither the parts nor the separator is not in their join. */
  lemma {:induction false} JoinFree(parts: seq<string>, sep: string, c: char)
    requires c !in sep && forall i :: 0 <= i < |parts| ==> c !in parts[i]
    ensures c !in Join(parts, sep)
  {
    if |parts| > 1 {
      JoinFree(parts[1..], sep, c);
    }
  }

  /** Appending a part to a nonempty list appends the separator and the part to the join. */
  lemma {:induction false} JoinSnoc(parts: seq<string>, last: string, sep: string)
    requires parts != []
    ensures Join(parts + [last], sep) == Join(parts, sep) + sep + last
  {
    if |parts| == 1 {
      assert parts + [last] == [parts[0], last];
    } else {
      JoinSnoc(parts[1..], last, sep);
      assert (parts + [last])[1..] == parts[1..] + [last];
    }
  }
}
