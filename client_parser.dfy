/**
 * The argument list of an operation in the openworld client generator
 * (`client/parser.py`): the parsed parameters and the request body, with defaults
 * filled in and duplicate names merged, and the signature text joined from them.
 * `get_parameter_type` is outside the model: its results are the input.
 */
module ClientParser {
  import opened Wrappers
  import opened Text
  import opened PyDict
  import opened ClientModel

  const NONE_DEFAULT := "None"
  const ELLIPSIS_DEFAULT := "..."

  /** The default is truthy: present and not empty. */
  predicate HasDefault(a: Argument) { a.default.Some? && a.default.value != "" }

  /** `if not argument.default: argument.default = "None"` */
  function WithDefault(a: Argument): Argument
  {
    if HasDefault(a) then a else a.(default := Some(NONE_DEFAULT))
  }

  /** The parsed parameters in order, the ones `get_parameter_type` gave up on left out, each with a default. */
  function Filled(params: seq<Option<Argument>>): (r: seq<Argument>)
    ensures forall i :: 0 <= i < |r| ==> HasDefault(r[i])
  {
    if params == [] then []
    else
      var n := |params| - 1;
      Filled(params[..n]) + (if params[n].Some? then [WithDefault(params[n].value)] else [])
  }

  /** The arguments the first two loops collect: the parameters, then the request body. */
  function Collected(params: seq<Option<Argument>>, request: Option<Argument>): seq<Argument>
  {
    Filled(params) + (if request.Some? then [WithDefault(request.value)] else [])
  }

  /** The positional loop on one argument, given whether the one before it is required. */
  function FixPositional(a: Argument, positional: bool): Argument
  {
    if positional && a.required && a.default.None? then a.(default := Some(ELLIPSIS_DEFAULT))
    else if !a.required then a.(default := Some(NONE_DEFAULT))
    else a
  }

  /** The positional loop on every argument. */
  function Positional(args: seq<Argument>): (r: seq<Argument>)
    ensures |r| == |args|
  {
    seq(|args|, i requires 0 <= i < |args| => FixPositional(args[i], i > 0 && args[i - 1].required))
  }

  /** `if arguments[index].default is None: arguments[index].default = "None"` on every argument. */
  function NoneFilled(args: seq<Argument>): (r: seq<Argument>)
    ensures |r| == |args|
  {
    seq(|args|, i requires 0 <= i < |args| =>
      if args[i].default.None? then args[i].(default := Some(NONE_DEFAULT)) else args[i])
  }

  /** `arguments_dict[argument.name] = argument` for every argument, in order. */
  function Deduped(args: seq<Argument>): Dict<string, Argument>
  {
    if args == [] then []
    else
      var n := |args| - 1;
      Set(Deduped(args[..n]), args[n].name, args[n])
  }

  /** What `get_argument_list` returns, and the request body argument after the call has updated it. */
  function ArgumentList(params: seq<Option<Argument>>, request: Option<Argument>): seq<Argument>
  {
    Values(Deduped(NoneFilled(Positional(Collected(params, request)))))
  }

  function RequestAfter(params: seq<Option<Argument>>, request: Option<Argument>): Option<Argument>
  {
    var args := NoneFilled(Positional(Collected(params, request)));
    if request.Some? then Some(args[|args| - 1]) else None
  }

  /** The loop over the parsed parameters: the ones given up on are skipped, a missing default becomes "None". */
  method FillParameters(params: seq<Option<Argument>>) returns (arguments: seq<Argument>)
    ensures arguments == Filled(params)
  {
    arguments := [];
    for i := 0 to |params|
      invariant arguments == Filled(params[..i])
    {
      assert params[..i + 1][..i] == params[..i];
      if params[i].Some? {
        var argument := params[i].value;
        if !HasDefault(argument) {
          argument := argument.(default := Some(NONE_DEFAULT));
        }
        arguments := arguments + [argument];
      }
    }
    assert params[..|params|] == params;
  }

  /** The positional loop, which remembers whether the previous argument was required. */
  method SetPositionalDefaults(collected: seq<Argument>) returns (arguments: seq<Argument>)
    ensures arguments == Positional(collected)
  {
    arguments := collected;
    var positionalArgument := false;
    for i := 0 to |arguments|
      invariant |arguments| == |collected|
      invariant positionalArgument == (i > 0 && collected[i - 1].required)
      invariant forall j :: 0 <= j < i ==> arguments[j] == Positional(collected)[j]
      invariant forall j :: i <= j < |arguments| ==> arguments[j] == collected[j]
    {
      var argument := arguments[i];
      if positionalArgument && argument.required && argument.default.None? {
        argument := argument.(default := Some(ELLIPSIS_DEFAULT));
      } else if !argument.required {
        argument := argument.(default := Some(NONE_DEFAULT));
      }
      assert argument == Positional(collected)[i];
      arguments := arguments[i := argument];
      positionalArgument := argument.required;
    }
  }

  /** The loop that writes "None" over every default still missing. */
  method FillMissingDefaults(positioned: seq<Argument>) returns (arguments: seq<Argument>)
    ensures arguments == NoneFilled(positioned)
  {
    arguments := positioned;
    for index := 0 to |arguments|
      invariant |arguments| == |positioned|
      invariant forall j :: 0 <= j < index ==> arguments[j] == NoneFilled(positioned)[j]
      invariant forall j :: index <= j < |arguments| ==> arguments[j] == positioned[j]
    {
      if arguments[index].default.None? {
        arguments := arguments[index := arguments[index].(default := Some(NONE_DEFAULT))];
      }
    }
  }

  /** The de-duplication loop: `arguments_dict[argument.name] = argument`. */
  method DedupByName(arguments: seq<Argument>) returns (argumentsDict: Dict<string, Argument>)
    ensures argumentsDict == Deduped(arguments)
  {
    argumentsDict := [];
    for i := 0 to |arguments|
      invariant argumentsDict == Deduped(arguments[..i])
    {
      assert arguments[..i + 1][..i] == arguments[..i];
      argumentsDict := Set(argumentsDict, arguments[i].name, arguments[i]);
    }
    assert arguments[..|arguments|] == arguments;
  }

  /**
   * `get_argument_list`: the loops of the source over a list of argument values.
   * The request body is an object the parser keeps, so the defaults written to it
   * stay; `requestAfter` is that object after the call.
   */
  method GetArgumentList(params: seq<Option<Argument>>, request: Option<Argument>)
    returns (result: seq<Argument>, requestAfter: Option<Argument>)
    ensures result == ArgumentList(params, request)
    ensures requestAfter == RequestAfter(params, request)
  {
    var arguments: seq<Argument> := [];
    if params != [] {
      arguments := FillParameters(params);
    }
    if request.Some? {
      var body := request.value;
      if !HasDefault(body) {
        body := body.(default := Some(NONE_DEFAULT));
      }
      arguments := arguments + [body];
    }
    assert arguments == Collected(params, request);
    arguments := SetPositionalDefaults(arguments);
    arguments := FillMissingDefaults(arguments);
    assert arguments == NoneFilled(Positional(Collected(params, request)));
    var argumentsDict := DedupByName(arguments);
    result := Values(argumentsDict);
    requestAfter := if request.Some? then Some(arguments[|arguments| - 1]) else None;
  }

  /** `get_arguments`: the rendered arguments of `get_argument_list`, joined by ", ". */
  function GetArguments(params: seq<Option<Argument>>, request: Option<Argument>): string
  {
    Join(Renderings(ArgumentList(params, request)), ", ")
  }

  function Renderings(args: seq<Argument>): (r: seq<string>)
    ensures |r| == |args|
    ensures forall i :: 0 <= i < |args| ==> r[i] == Rendered(args[i])
  {
    seq(|args|, i requires 0 <= i < |args| => Rendered(args[i]))
  }

  /* ------------------------------------------------------------------ properties */

  function Names(args: seq<Argument>): (r: seq<string>)
    ensures |r| == |args|
  {
    seq(|args|, i requires 0 <= i < |args| => args[i].name)
  }

  /** The last argument with the given name, if any. */
  function LastNamed(args: seq<Argument>, n: string): (r: Option<Argument>)
    ensures r.Some? ==> r.value in args && r.value.name == n
    ensures r.None? <==> n !in Names(args)
  {
    if args == [] then None
    else if args[|args| - 1].name == n then
      assert Names(args)[|args| - 1] == n;
      Some(args[|args| - 1])
    else
      var init := args[..|args| - 1];
      assert Names(args) == Names(init) + [args[|args| - 1].name];
      LastNamed(init, n)
  }

  /** The names in the order of their first occurrence, each once. */
  function FirstOccurrences(s: seq<string>): seq<string>
  {
    if s == [] then []
    else
      var init := s[..|s| - 1];
      FirstOccurrences(init) + (if s[|s| - 1] in init then [] else [s[|s| - 1]])
  }

  /** The dictionary maps each name to the last argument that has it. */
  lemma {:induction false} DedupedGet(args: seq<Argument>, n: string)
    ensures Get(Deduped(args), n) == LastNamed(args, n)
  {
    if args != [] {
      var k := |args| - 1;
      DedupedGet(args[..k], n);
      GetSet(Deduped(args[..k]), args[k].name, args[k], n);
    }
  }

  lemma {:induction false} DedupedDistinct(args: seq<Argument>)
    ensures KeysDistinct(Deduped(args))
  {
    if args != [] {
      var k := |args| - 1;
      DedupedDistinct(args[..k]);
      SetKeepsDistinct(Deduped(args[..k]), args[k].name, args[k]);
    }
  }

  /** The keys are the names in the order of their first occurrence. */
  lemma {:induction false} DedupedKeys(args: seq<Argument>)
    ensures Keys(Deduped(args)) == FirstOccurrences(Names(args))
  {
    if args != [] {
      var k := |args| - 1;
      var init := args[..k];
      DedupedKeys(init);
      DedupedGet(init, args[k].name);
      assert Names(args)[..k] == Names(init);
      assert Names(args)[k] == args[k].name;
    }
  }

  /**
   * The entries of the dictionary: each is the last argument of its name, under
   * that name, and the names come in the order of their first occurrence.
   */
  lemma DedupedEntries(args: seq<Argument>)
    ensures var d := Deduped(args);
      && KeysDistinct(d)
      && Keys(d) == FirstOccurrences(Names(args))
      && forall i :: 0 <= i < |d| ==> d[i].1.name == d[i].0 && Some(d[i].1) == LastNamed(args, d[i].0)
  {
    var d := Deduped(args);
    DedupedDistinct(args);
    DedupedKeys(args);
    forall i | 0 <= i < |d| ensures d[i].1.name == d[i].0 && Some(d[i].1) == LastNamed(args, d[i].0) {
      GetAt(d, i);
      DedupedGet(args, d[i].0);
    }
  }

  /**
   * The values of the dictionary: the names are unique and in the order of their
   * first occurrence, and under each name stands the last argument that had it.
   */
  lemma DedupedValues(a: seq<Argument>)
    ensures var r := Values(Deduped(a));
      && (forall i, j :: 0 <= i < j < |r| ==> r[i].name != r[j].name)
      && Names(r) == FirstOccurrences(Names(a))
      && (forall i :: 0 <= i < |r| ==> Some(r[i]) == LastNamed(a, r[i].name) && r[i] in a)
  {
    var d := Deduped(a);
    var r := Values(d);
    DedupedEntries(a);
    assert Names(r) == Keys(d);
  }

  /** The request body, when there is one, comes after the parameters. */
  lemma BodyAfterParameters(params: seq<Option<Argument>>, request: Option<Argument>)
    requires request.Some?
    ensures var c := Collected(params, request);
      |c| == |Filled(params)| + 1 && c[..|c| - 1] == Filled(params) && c[|c| - 1] == WithDefault(request.value)
  {
  }

  /** Every argument after the positional loop has a truthy default, "None" when it is not required. */
  lemma PositionalDefaults(args: seq<Argument>)
    requires forall i :: 0 <= i < |args| ==> HasDefault(args[i])
    ensures forall i :: 0 <= i < |args| ==> var p := NoneFilled(Positional(args))[i];
      && HasDefault(p) && p.required == args[i].required && p.name == args[i].name
      && (!p.required ==> p.default == Some(NONE_DEFAULT))
      && (p.required ==> p == args[i])
  {
  }

  /** The arguments before de-duplication all have a truthy default, "None" when not required. */
  lemma FilledArgumentDefaults(params: seq<Option<Argument>>, request: Option<Argument>)
    ensures forall x :: x in NoneFilled(Positional(Collected(params, request))) ==>
      HasDefault(x) && (!x.required ==> x.default == Some(NONE_DEFAULT))
  {
    var c := Collected(params, request);
    assert forall i :: 0 <= i < |c| ==> HasDefault(c[i]);
    PositionalDefaults(c);
  }

  /**
   * What `get_argument_list` returns: every argument has a truthy default, "None"
   * for the ones not required; the names are unique and in the order of their first
   * occurrence; and under each name stands the last argument that had it.
   */
  lemma ArgumentListShape(params: seq<Option<Argument>>, request: Option<Argument>)
    ensures var a := NoneFilled(Positional(Collected(params, request)));
      var r := ArgumentList(params, request);
      && (forall i :: 0 <= i < |r| ==>
            HasDefault(r[i]) && (!r[i].required ==> r[i].default == Some(NONE_DEFAULT)))
      && (forall i, j :: 0 <= i < j < |r| ==> r[i].name != r[j].name)
      && Names(r) == FirstOccurrences(Names(a))
      && (forall i :: 0 <= i < |r| ==> Some(r[i]) == LastNamed(a, r[i].name))
  {
    DedupedValues(NoneFilled(Positional(Collected(params, request))));
    FilledArgumentDefaults(params, request);
  }

  /** Every argument returned is written `name: type = default`. */
  lemma RenderedWithDefault(params: seq<Option<Argument>>, request: Option<Argument>)
    ensures var r := ArgumentList(params, request);
      forall i :: 0 <= i < |r| ==>
        HasDefault(r[i]) && Renderings(r)[i] == r[i].name + ": " + r[i].typeHint + " = " + DefaultText(r[i].default)
  {
    ArgumentListShape(params, request);
  }

  /** The positional loop changes nothing more the second time. */
  lemma FixPositionalIdempotent(a: Argument, positional: bool)
    ensures FixPositional(FixPositional(a, positional), positional) == FixPositional(a, positional)
    ensures FixPositional(a, positional).required == a.required
  {
  }

  /**
   * The source calls `get_argument_list` more than once on the same parser: with
   * the request body as the first call left it, the second call returns the same
   * arguments and leaves the body as it is.
   */
  lemma ArgumentListStable(params: seq<Option<Argument>>, request: Option<Argument>)
    ensures ArgumentList(params, RequestAfter(params, request)) == ArgumentList(params, request)
    ensures RequestAfter(params, RequestAfter(params, request)) == RequestAfter(params, request)
  {
    if request.Some? {
      var c1 := Collected(params, request);
      var after := RequestAfter(params, request);
      var c2 := Collected(params, after);
      var n := |Filled(params)|;
      assert forall i :: 0 <= i < |c1| ==> HasDefault(c1[i]);
      PositionalDefaults(c1);
      assert after.value == NoneFilled(Positional(c1))[n];
      assert c2[n] == after.value;
      FixPositionalIdempotent(WithDefault(request.value), n > 0 && c1[n - 1].required);
      PositionalOneChanged(c1, c2, n);
    }
  }

  /** Two lists alike but at one position, where the positional loop makes them alike, come out of it alike. */
  lemma PositionalOneChanged(c1: seq<Argument>, c2: seq<Argument>, n: int)
    requires |c1| == |c2| && 0 <= n < |c1|
    requires forall j :: 0 <= j < |c1| && j != n ==> c2[j] == c1[j]
    requires c2[n].required == c1[n].required
    requires FixPositional(c2[n], n > 0 && c1[n - 1].required) == FixPositional(c1[n], n > 0 && c1[n - 1].required)
    ensures Positional(c2) == Positional(c1)
  {
    forall j | 0 <= j < |c1| ensures Positional(c2)[j] == Positional(c1)[j] {
      if 0 < j {
        assert c2[j - 1].required == c1[j - 1].required;
      }
    }
  }
}
