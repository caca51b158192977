/**
 * The argument records of the expediagroup client generator (`client/model.py`):
 * where a parameter travels, and how an argument is written in a generated signature.
 */
module ClientModel {
  import opened Wrappers
  import opened Text

  /** `ParamTypes`: where an operation parameter travels. */
  datatype ParamType = Query | Header | Path | Cookie | Body

  /** The value of a `ParamTypes` member, which is the member's own name. */
  function ParamTypeValue(t: ParamType): string
  {
    match t
    case Query => "query"
    case Header => "header"
    case Path => "path"
    case Cookie => "cookie"
    case Body => "body"
  }

  /** `ParamTypes(value)`: the member with that value, if any. */
  function ParamTypeOf(value: string): (r: Option<ParamType>)
    ensures r.Some? ==> ParamTypeValue(r.value) == value
  {
    if value == "query" then Some(Query)
    else if value == "header" then Some(Header)
    else if value == "path" then Some(Path)
    else if value == "cookie" then Some(Cookie)
    else if value == "body" then Some(Body)
    else None
  }

  /** The members have distinct values: looking a member up by its value finds it again. */
  lemma ParamTypeRoundTrip(t: ParamType)
    ensures ParamTypeOf(ParamTypeValue(t)) == Some(t)
  {
  }

  /**
   * An `Argument`: its name, its type hint, its default (Python `None` is `None`),
   * whether it is required, where it travels, the name the API uses, its description.
   */
  datatype Argument = Argument(name: string, typeHint: string, default: Option<string>, required: bool,
                               in_: Option<ParamType>, alias: string, description: string)

  /** `f"{self.default}"`: a missing default prints as `None`. */
  function DefaultText(default: Option<string>): string
  {
    match default
    case Some(s) => s
    case None => "None"
  }

  /**
   * The `argument` property: a required argument without a default is written
   * `name: type`; every other one is written `name: type = default`.
   */
  function Rendered(a: Argument): string
  {
    var signature := a.name + ": " + a.typeHint;
    if a.default.None? && a.required then signature else signature + " = " + DefaultText(a.default)
  }

  /**
   * A rendered argument starts with `name: type`, and it is exactly that when and only
   * when the argument is required and has no default.
   */
  lemma RenderedShape(a: Argument)
    ensures StartsWith(Rendered(a), a.name + ": " + a.typeHint)
    ensures Rendered(a) == a.name + ": " + a.typeHint <==> a.default.None? && a.required
  {
    var signature := a.name + ": " + a.typeHint;
    assert Rendered(a)[..|signature|] == signature;
    if !(a.default.None? && a.required) {
      assert |Rendered(a)| > |signature|;
    }
  }
}
