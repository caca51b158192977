/**
 * The logging helpers of the OpenWorld core (`util/log.py`): the header block of a
 * request or response log line, and the masking of credential-like entries before
 * they are logged. Python's `str.lower` is modelled for ASCII letters.
 */
module Log {
  import opened Wrappers
  import opened Text
  import opened PyDict

  type StrDict = Dict<string, string>

  const OMITTED := "<-- omitted -->"

  /** The words whose presence in a key hides its value. */
  const FILTER_KEYS := ["key", "secret", "username", "password"]

  /** A key is masked when one of the filter words occurs in it, ignoring case. */
  predicate Masked(key: string) {
    MaskedBy(key, FILTER_KEYS)
  }

  /** One of `words` occurs in `key`, ignoring case. */
  predicate MaskedBy(key: string, words: seq<string>) {
    words != [] && (Contains(Lower(key), Lower(words[0])) || MaskedBy(key, words[1..]))
  }

  lemma {:induction false} MaskedByExactly(key: string, words: seq<string>)
    ensures MaskedBy(key, words) <==> exists w :: w in words && Contains(Lower(key), Lower(w))
  {
    if words != [] {
      MaskedByExactly(key, words[1..]);
      if Contains(Lower(key), Lower(words[0])) {
        assert words[0] in words;
      }
      if exists w :: w in words && Contains(Lower(key), Lower(w)) {
        var w :| w in words && Contains(Lower(key), Lower(w));
        if w != words[0] {
          assert w in words[1..];
        }
      }
      if exists w :: w in words[1..] && Contains(Lower(key), Lower(w)) {
        var w :| w in words[1..] && Contains(Lower(key), Lower(w));
        assert w in words;
      }
    }
  }

  /** A key is masked exactly when one of the four words occurs in it, ignoring case. */
  lemma MaskedExactly(key: string)
    ensures Masked(key) <==> exists w :: w in FILTER_KEYS && Contains(Lower(key), Lower(w))
  {
    MaskedByExactly(key, FILTER_KEYS);
  }

  /** The value `filter_credentials` keeps for a key. */
  function FilteredValue(key: string, value: string): string {
    if Masked(key) then OMITTED else value
  }

  /** The pairs of `data` with the credential-like values replaced, assigned in order. */
  function Filtered(data: StrDict): StrDict
    decreases |data|
  {
    if data == [] then []
    else
      var (key, value) := data[|data| - 1];
      Set(Filtered(data[..|data| - 1]), key, FilteredValue(key, value))
  }

  /** The filtered dict has the keys of the input, in the same order, and each masked or copied value. */
  lemma {:induction false} FilteredIs(data: StrDict)
    requires KeysDistinct(data)
    ensures Keys(Filtered(data)) == Keys(data)
    ensures forall k :: Get(Filtered(data), k) ==
                        match Get(data, k) case None => None case Some(v) => Some(FilteredValue(k, v))
    decreases |data|
  {
    if data != [] {
      var n := |data| - 1;
      var p := data[..n];
      var (key, value) := data[n];
      DistinctInit(data);
      FilteredIs(p);
      var f := Filtered(p);
      assert Filtered(data) == Set(f, key, FilteredValue(key, value));
      SnocLast(data);
      FilteredStep(p, key, value, f);
    }
  }

  /** A non-empty dict is its first pairs followed by its last one. */
  lemma SnocLast(data: StrDict)
    requires data != []
    ensures data == data[..|data| - 1] + [data[|data| - 1]]
  {
  }

  /** One more pair, with a new key, keeps the filtered dict in step with the input. */
  lemma FilteredStep(p: StrDict, key: string, value: string, f: StrDict)
    requires Keys(f) == Keys(p) && key !in Keys(p)
    requires forall k :: Get(f, k) == match Get(p, k) case None => None case Some(v) => Some(FilteredValue(k, v))
    ensures Set(f, key, FilteredValue(key, value)) == f + [(key, FilteredValue(key, value))]
    ensures Keys(f + [(key, FilteredValue(key, value))]) == Keys(p + [(key, value)])
    ensures forall k :: Get(f + [(key, FilteredValue(key, value))], k) ==
                        match Get(p + [(key, value)], k) case None => None case Some(v) => Some(FilteredValue(k, v))
  {
    KeysConcat(p, [(key, value)]);
    KeysConcat(f, [(key, FilteredValue(key, value))]);
    forall k ensures Get(f + [(key, FilteredValue(key, value))], k) ==
                     match Get(p + [(key, value)], k) case None => None case Some(v) => Some(FilteredValue(k, v))
    {
      GetSnoc(f, key, FilteredValue(key, value), k);
      GetSnoc(p, key, value, k);
    }
  }

  /**
   * `filter_credentials(data)`: an entry whose key contains `key`, `secret`,
   * `username` or `password`, in any case, keeps its key but shows `<-- omitted -->`;
   * every other entry is copied.
   */
  method FilterCredentials(data: StrDict) returns (newData: StrDict)
    requires KeysDistinct(data)
    ensures Keys(newData) == Keys(data)
    ensures forall k :: k in Keys(data) && Masked(k) ==> Get(newData, k) == Some(OMITTED)
    ensures forall k :: k in Keys(data) && !Masked(k) ==> Get(newData, k) == Get(data, k)
  {
    newData := [];
    for i := 0 to |data|
      invariant newData == Filtered(data[..i])
    {
      var (key, value) := data[i];
      assert data[..i + 1][..i] == data[..i];
      newData := FilterEntry(newData, key, value);
    }
    assert data[..|data|] == data;
    FilteredIs(data);
  }

  /** The inner loop of `filter_credentials`, over the filter words, for one entry. */
  method FilterEntry(prior: StrDict, key: string, value: string) returns (newData: StrDict)
    ensures newData == Set(prior, key, FilteredValue(key, value))
  {
    newData := prior;
    for j := 0 to |FILTER_KEYS|
      invariant Masked(key) == MaskedBy(key, FILTER_KEYS[j..])
      invariant newData == if j == 0 then prior else Set(prior, key, value)
    {
      var word := FILTER_KEYS[j];
      assert FILTER_KEYS[j..][0] == word && FILTER_KEYS[j..][1..] == FILTER_KEYS[j + 1..];
      if Contains(Lower(key), Lower(word)) {
        newData := Set(prior, key, OMITTED);
        return;
      }
      newData := Set(prior, key, value);
    }
  }

  /** One header line, without its newline. */
  function Line(key: string, value: string): string {
    "\t\t" + key + ": " + value
  }

  /** The lines of the header block, in order. */
  function Lines(headers: StrDict): (r: seq<string>)
    ensures |r| == |headers|
    ensures forall i :: 0 <= i < |headers| ==> r[i] == Line(headers[i].0, headers[i].1)
  {
    if headers == [] then [] else [Line(headers[0].0, headers[0].1)] + Lines(headers[1..])
  }

  /** The header block: every line followed by a newline. */
  function HeaderLines(headers: StrDict): string
  {
    if headers == [] then "" else Line(headers[0].0, headers[0].1) + "\n" + HeaderLines(headers[1..])
  }

  lemma {:induction false} HeaderLinesSnoc(headers: StrDict, key: string, value: string)
    ensures HeaderLines(headers + [(key, value)]) == HeaderLines(headers) + Line(key, value) + "\n"
    decreases |headers|
  {
    if headers != [] {
      assert (headers + [(key, value)])[1..] == headers[1..] + [(key, value)];
      HeaderLinesSnoc(headers[1..], key, value);
    } else {
      assert [(key, value)][1..] == [];
    }
  }

  /** A header dict whose keys and values hold no newline, as HTTP header fields do not. */
  predicate SingleLine(headers: StrDict) {
    forall i :: 0 <= i < |headers| ==> '\n' !in headers[i].0 && '\n' !in headers[i].1
  }

  /** Cut at its newlines, the header block is one line per header and an empty tail. */
  lemma {:induction false} SplitHeaderLines(headers: StrDict)
    requires SingleLine(headers)
    ensures Split(HeaderLines(headers), '\n') == Lines(headers) + [""]
    decreases |headers|
  {
    if headers == [] {
      SplitNone("", '\n');
    } else {
      var line := Line(headers[0].0, headers[0].1);
      assert '\n' !in line by {
        assert line == "\t\t" + headers[0].0 + ": " + headers[0].1;
      }
      assert SingleLine(headers[1..]) by {
        forall i | 0 <= i < |headers[1..]| ensures '\n' !in headers[1..][i].0 && '\n' !in headers[1..][i].1 {
          assert headers[1..][i] == headers[i + 1];
        }
      }
      SplitHeaderLines(headers[1..]);
      assert HeaderLines(headers) == line + ['\n'] + HeaderLines(headers[1..]);
      SplitAtFirst(line, HeaderLines(headers[1..]), '\n');
    }
  }

  /**
   * The header block of `request_log` and `response_log`: one `\t\tkey: value\n`
   * line per header, and a lone newline when there is no header, so the block
   * always ends with a newline.
   */
  method HeadersLog(headers: StrDict) returns (headersLog: string)
    ensures headersLog == HeadersBlock(headers)
    ensures EndsWith(headersLog, "\n")
  {
    headersLog := "";
    for i := 0 to |headers|
      invariant headersLog == HeaderLines(headers[..i])
    {
      var (key, value) := headers[i];
      HeaderLinesSnoc(headers[..i], key, value);
      assert headers[..i + 1] == headers[..i] + [(key, value)];
      headersLog := headersLog + Line(key, value) + "\n";
    }
    assert headers[..|headers|] == headers;
    if headers != [] {
      HeaderLinesEnd(headers);
    }
    if !EndsWith(headersLog, "\n") {
      headersLog := headersLog + "\n";
    }
  }

  /** A non-empty header block ends with a newline. */
  lemma HeaderLinesEnd(headers: StrDict)
    requires headers != []
    ensures EndsWith(HeaderLines(headers), "\n")
  {
    var n := |headers| - 1;
    HeaderLinesSnoc(headers[..n], headers[n].0, headers[n].1);
    assert headers[..n] + [(headers[n].0, headers[n].1)] == headers;
    var s := HeaderLines(headers);
    assert s == HeaderLines(headers[..n]) + Line(headers[n].0, headers[n].1) + "\n";
    assert s[|s| - 1..] == "\n";
  }

  /** A `requests` response as the log sees it. */
  datatype LoggedResponse = LoggedResponse(headers: StrDict, text: string)

  /** The header block of a log: a lone newline for no header, otherwise one line per header. */
  function HeadersBlock(headers: StrDict): string
  {
    if headers == [] then "\n" else HeaderLines(headers)
  }

  /**
   * The text of `response_log(response)`. The two message templates of the `log`
   * constant module are not part of this model and are parameters.
   */
  function ResponseLogText(response: LoggedResponse, headersTemplate: string -> string, bodyTemplate: string -> string): string
  {
    "\nResponse:\n" + headersTemplate(HeadersBlock(response.headers)) + bodyTemplate("\t\t" + response.text + "\n")
  }

  /** `response_log(response)`. */
  method ResponseLog(response: LoggedResponse, headersTemplate: string -> string, bodyTemplate: string -> string)
    returns (result: string)
    ensures result == ResponseLogText(response, headersTemplate, bodyTemplate)
    ensures StartsWith(result, "\nResponse:\n")
  {
    var headersLog := HeadersLog(response.headers);
    result := "\nResponse:\n" + headersTemplate(headersLog) + bodyTemplate("\t\t" + response.text + "\n");
    assert result[..|"\nResponse:\n"|] == "\nResponse:\n";
  }

  /** The request part of `request_log`: endpoint, upper-cased method, header block and body. */
  function RequestText(headers: StrDict, body: string, endpoint: string, httpMethod: string,
                       headersTemplate: string -> string, bodyTemplate: string -> string): string
  {
    "\nRequest: " + endpoint + "\nMethod: " + Upper(httpMethod) + "\n"
    + headersTemplate(HeadersBlock(headers)) + bodyTemplate("\t\t" + body + "\n")
  }

  /**
   * `request_log(headers, body, endpoint, method, response)`, with the method name
   * upper-cased: the request's own lines, then the whole of `response_log(response)`.
   */
  method RequestLog(headers: StrDict, body: string, endpoint: string, httpMethod: string, response: LoggedResponse,
                    headersTemplate: string -> string, bodyTemplate: string -> string)
    returns (result: string)
    ensures StartsWith(result, "\nRequest: " + endpoint + "\nMethod: " + Upper(httpMethod) + "\n")
    ensures result == RequestText(headers, body, endpoint, httpMethod, headersTemplate, bodyTemplate)
                      + ResponseLogText(response, headersTemplate, bodyTemplate)
  {
    var headersLog := HeadersLog(headers);
    var responseLog := ResponseLog(response, headersTemplate, bodyTemplate);
    var head := "\nRequest: " + endpoint + "\nMethod: " + Upper(httpMethod) + "\n";
    var request := head + headersTemplate(headersLog) + bodyTemplate("\t\t" + body + "\n");
    result := request + responseLog;
    PrefixOfConcat(head, headersTemplate(headersLog) + bodyTemplate("\t\t" + body + "\n") + responseLog);
    assert result == head + (headersTemplate(headersLog) + bodyTemplate("\t\t" + body + "\n") + responseLog);
  }

  lemma PrefixOfConcat(p: string, s: string)
    ensures StartsWith(p + s, p)
  {
    assert (p + s)[..|p|] == p;
  }
}
