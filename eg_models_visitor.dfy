/**
 * The post-processing the ExpediaGroup client generator applies to the parsed
 * models before rendering them: discriminators read from the specification and
 * copied onto the child models, the `Union` aliases of parents and their children
 * ordered by dependency, the error responses of each operation, and the removal of
 * root models.
 *
 * The parser's results are plain records here; `parser.get_ref_model` is the
 * parameter `refModel`.
 */
module EgModelsVisitor {
  import opened Wrappers
  import opened Text
  import opened PyDict

  const DISCRIMINATOR := "discriminator"
  const GENERIC_SUFFIX := "Generic"

  /** A field of a model; `name` is "" where the source has `None`. */
  datatype Field = Field(name: string, default: Option<string>, required: bool, hasDefault: bool, dataType: string)

  /** A parsed model; `referencePath` is "" when the model has no reference. */
  datatype DataModel = DataModel(className: string, baseClass: string, fields: seq<Field>, referencePath: string)

  /** The models keyed by class name. */
  type Models = Dict<string, DataModel>

  /* -------------------------------------------------------------------- aliases */

  /** A parent model and the models that inherit from it, with a sort key. */
  datatype Alias = Alias(parentClassname: string, childrenClassnames: seq<string>, order: int)

  /** `Alias.__str__`: "Parent = Union[A,B,...]". */
  function AliasString(a: Alias): string
  {
    a.parentClassname + " = Union[" + Join(a.childrenClassnames, ",") + "]"
  }

  /**
   * The alias text starts with the parent and " = Union[", ends with "]", and the
   * part between splits on "," back into the children, when no child name holds a comma.
   */
  lemma AliasStringParts(a: Alias)
    requires a.childrenClassnames != []
    requires forall i :: 0 <= i < |a.childrenClassnames| ==> ',' !in a.childrenClassnames[i]
    ensures var s := AliasString(a);
      var prefix := a.parentClassname + " = Union[";
      StartsWith(s, prefix) && EndsWith(s, "]")
      && Split(s[|prefix|..|s| - 1], ',') == a.childrenClassnames
  {
    var s := AliasString(a);
    var prefix := a.parentClassname + " = Union[";
    var inner := Join(a.childrenClassnames, ",");
    assert s == prefix + inner + "]";
    assert s[..|prefix|] == prefix;
    assert s[|prefix|..|s| - 1] == inner;
    SplitOfJoin(a.childrenClassnames, ',');
  }

  /** `parse_children_classnames`: the class names of the models whose base class is the parent, in dict order. */
  function Children(parent: string, models: Models): (r: seq<string>)
    ensures |r| <= |models|
  {
    if models == [] then []
    else (if models[0].1.baseClass == parent then [models[0].1.className] else []) + Children(parent, models[1..])
  }

  /** The children are exactly the class names of the models whose base class is the parent. */
  lemma {:induction false} ChildrenAre(parent: string, models: Models, c: string)
    ensures c in Children(parent, models) <==>
              exists i :: 0 <= i < |models| && models[i].1.baseClass == parent && models[i].1.className == c
  {
    if models != [] {
      ChildrenAre(parent, models[1..], c);
      if exists i :: 0 <= i < |models| && models[i].1.baseClass == parent && models[i].1.className == c {
        var i :| 0 <= i < |models| && models[i].1.baseClass == parent && models[i].1.className == c;
        if i > 0 {
          assert models[1..][i - 1] == models[i];
        }
      }
      if exists i :: 0 <= i < |models[1..]| && models[1..][i].1.baseClass == parent && models[1..][i].1.className == c {
        var i :| 0 <= i < |models[1..]| && models[1..][i].1.baseClass == parent && models[1..][i].1.className == c;
        assert models[i + 1] == models[1..][i];
      }
    }
  }

  /* ------------------------------------------------------------- discriminators */

  /** A discriminator: the property that tells the children apart, its values and the parent that owns it. */
  datatype Discriminator = Discriminator(propertyName: string, mapping: Dict<string, string>, owner: string)

  /** A discriminator as written in the specification; a missing mapping is `None`. */
  datatype RawDiscriminator = RawDiscriminator(propertyName: string, mapping: Option<Dict<string, string>>)

  /** `{name: name for name in names}` */
  function SelfMapping<K(==,!new)>(names: seq<K>): Dict<K, K>
  {
    if names == [] then []
    else Set(SelfMapping(names[..|names| - 1]), names[|names| - 1], names[|names| - 1])
  }

  /** Each name maps to itself, and nothing else is a key. */
  lemma {:induction false} SelfMappingGet<K(!new)>(names: seq<K>, k: K)
    ensures Get(SelfMapping(names), k) == if k in names then Some(k) else None
  {
    if names != [] {
      var n := |names| - 1;
      var init, last := names[..n], names[n];
      SelfMappingGet(init, k);
      GetSet(SelfMapping(init), last, last, k);
      InitLast(names, k);
    }
  }

  /** A member of a non-empty sequence is in its prefix or is its last element. */
  lemma InitLast<K>(names: seq<K>, k: K)
    requires names != []
    ensures k in names <==> k in names[..|names| - 1] || k == names[|names| - 1]
  {
    assert names == names[..|names| - 1] + [names[|names| - 1]];
  }

  lemma SelfMappingGetAll<K(!new)>(names: seq<K>)
    ensures forall k :: Get(SelfMapping(names), k) == if k in names then Some(k) else None
  {
    forall k {
      SelfMappingGet(names, k);
    }
  }

  /** With distinct names the mapping lists them in order. */
  lemma {:induction false} SelfMappingKeys<K(!new)>(names: seq<K>)
    requires forall i, j :: 0 <= i < j < |names| ==> names[i] != names[j]
    ensures Keys(SelfMapping(names)) == names
  {
    if names != [] {
      var n := |names| - 1;
      var d := SelfMapping(names[..n]);
      SelfMappingKeys(names[..n]);
      assert names[n] !in Keys(d);
      assert Keys(Set(d, names[n], names[n])) == Keys(d) + [names[n]];
      assert names == names[..n] + [names[n]];
    }
  }

  /**
   * `parse_raw_discriminator`: the raw discriminator with its owner; a missing or
   * empty mapping becomes the one mapping each child of the owner to itself.
   */
  function ParseRawDiscriminator(owner: string, raw: RawDiscriminator, models: Models): (r: Discriminator)
    ensures r.owner == owner && r.propertyName == raw.propertyName
    ensures raw.mapping.Some? && raw.mapping.value != [] ==> r.mapping == raw.mapping.value
    ensures raw.mapping.None? || raw.mapping.value == [] ==>
              forall k :: Get(r.mapping, k) == if k in Children(owner, models) then Some(k) else None
  {
    if raw.mapping.None? || raw.mapping.value == [] then
      SelfMappingGetAll(Children(owner, models));
      Discriminator(raw.propertyName, SelfMapping(Children(owner, models)), owner)
    else Discriminator(raw.propertyName, raw.mapping.value, owner)
  }

  /** A mapping value written as a reference ("#/components/schemas/Hotel") is reduced to its last segment. */
  function ShortRef(value: string): string
  {
    if StartsWith(Strip(value), "#/") then AfterLast(value, '/') else value
  }

  /** A reference keeps only what follows its last '/'; any other value is kept whole. */
  lemma ShortRefShape(value: string)
    ensures !StartsWith(Strip(value), "#/") ==> ShortRef(value) == value
    ensures StartsWith(Strip(value), "#/") ==>
              '/' !in ShortRef(value) && exists t :: value == t + "/" + ShortRef(value)
  {
    if StartsWith(Strip(value), "#/") {
      assert Strip(value)[1] == "#/"[1];
      StripKeeps(value, '/');
    }
  }

  /** The loop of `parse_discriminators` over the items of a mapping, after `k` items. */
  function Shortened(m: Dict<string, string>, k: nat): Dict<string, string>
    requires k <= |m|
  {
    Rewritten(m, k, ShortRef)
  }

  /** `d[key] = f(value)` for the first `k` items of `m`, in order, starting from `m` itself. */
  function Rewritten<K(==,!new), V>(m: Dict<K, V>, k: nat, f: V -> V): Dict<K, V>
    requires k <= |m|
  {
    if k == 0 then m
    else Set(Rewritten(m, k - 1, f), m[k - 1].0, f(m[k - 1].1))
  }

  /** The first `k` values of `m` rewritten by `f`, the others as they were, keys and order kept. */
  ghost predicate RewrittenUpTo<K, V>(d: Dict<K, V>, m: Dict<K, V>, k: int, f: V -> V)
  {
    |d| == |m| && forall i :: 0 <= i < |m| ==> d[i] == (m[i].0, if i < k then f(m[i].1) else m[i].1)
  }

  lemma RewriteStep<K(!new), V>(d: Dict<K, V>, m: Dict<K, V>, k: int, f: V -> V)
    requires KeysDistinct(m) && 0 <= k < |m| && RewrittenUpTo(d, m, k, f)
    ensures RewrittenUpTo(Set(d, m[k].0, f(m[k].1)), m, k + 1, f)
  {
    assert KeysDistinct(d) by {
      forall i, j | 0 <= i < j < |d| ensures d[i].0 != d[j].0 {
        assert d[i].0 == m[i].0 && d[j].0 == m[j].0;
      }
    }
    assert d[k].0 == m[k].0;
    SetAt(d, k, f(m[k].1));
  }

  /** Every value of a mapping whose keys are distinct is rewritten in place; keys and order stay. */
  lemma {:induction false} RewrittenValues<K(!new), V>(m: Dict<K, V>, k: nat, f: V -> V)
    requires k <= |m| && KeysDistinct(m)
    ensures RewrittenUpTo(Rewritten(m, k, f), m, k, f)
  {
    if k > 0 {
      RewrittenValues(m, k - 1, f);
      RewriteStep(Rewritten(m, k - 1, f), m, k - 1, f);
    }
  }

  /** Every reference value of a mapping whose keys are distinct is shortened in place; keys and order stay. */
  lemma ShortenedValues(m: Dict<string, string>)
    requires KeysDistinct(m)
    ensures |Shortened(m, |m|)| == |m|
    ensures forall i :: 0 <= i < |m| ==> Shortened(m, |m|)[i] == (m[i].0, ShortRef(m[i].1))
  {
    RewrittenValues(m, |m|, ShortRef);
  }

  /** The loop rewriting the mapping's reference values. */
  method ShortenMapping(m: Dict<string, string>) returns (mapping: Dict<string, string>)
    ensures mapping == Shortened(m, |m|)
  {
    mapping := m;
    for i := 0 to |m|
      invariant mapping == Shortened(m, i)
    {
      var (key, value) := m[i];
      if StartsWith(Strip(value), "#/") {
        mapping := Set(mapping, key, AfterLast(value, '/'));
      } else {
        mapping := Set(mapping, key, value);
      }
    }
  }

  /** The discriminator `parse_discriminators` takes from one model, if any. */
  function DiscriminatorOf(model: DataModel, models: Models, refModel: string -> Option<RawDiscriminator>)
    : Option<Discriminator>
  {
    if model.referencePath == "" || Children(model.className, models) == [] then None
    else match refModel(model.referencePath)
      case None => None
      case Some(raw) =>
        var d := ParseRawDiscriminator(model.className, raw, models);
        Some(d.(mapping := Shortened(d.mapping, |d.mapping|), owner := model.className))
  }

  /** The discriminators of the models `ms`, in order. */
  function DiscriminatorsOf(ms: seq<DataModel>, models: Models, refModel: string -> Option<RawDiscriminator>)
    : seq<Discriminator>
  {
    if ms == [] then []
    else
      var rest := DiscriminatorsOf(ms[..|ms| - 1], models, refModel);
      match DiscriminatorOf(ms[|ms| - 1], models, refModel)
      case None => rest
      case Some(d) => rest + [d]
  }

  /**
   * `parse_discriminators`: for each model with a reference and at least one child,
   * the discriminator of its schema, if it has one, owned by the model, with every
   * reference in its mapping reduced to a class name.
   */
  method ParseDiscriminators(models: Models, refModel: string -> Option<RawDiscriminator>)
    returns (discriminators: seq<Discriminator>)
    ensures discriminators == DiscriminatorsOf(Values(models), models, refModel)
  {
    var ms := Values(models);
    discriminators := [];
    for i := 0 to |ms|
      invariant discriminators == DiscriminatorsOf(ms[..i], models, refModel)
    {
      assert ms[..i + 1][..i] == ms[..i];
      var model := ms[i];
      if !(model.referencePath != "" && Children(model.className, models) != []) {
        continue;
      }
      var rawModel := refModel(model.referencePath);
      if rawModel.None? {
        continue;
      }
      var discriminator := ParseRawDiscriminator(model.className, rawModel.value, models);
      var mapping := ShortenMapping(discriminator.mapping);
      discriminator := discriminator.(mapping := mapping, owner := model.className);
      discriminators := discriminators + [discriminator];
    }
    assert ms[..|ms|] == ms;
  }

  /** Each discriminator is owned by a model with a reference and children, and its mapping keeps the raw keys. */
  lemma {:induction false} DiscriminatorsOwned(ms: seq<DataModel>, models: Models, refModel: string -> Option<RawDiscriminator>)
    ensures forall d :: d in DiscriminatorsOf(ms, models, refModel) ==>
              exists i :: 0 <= i < |ms| && ms[i].className == d.owner && ms[i].referencePath != ""
                          && Children(d.owner, models) != [] && refModel(ms[i].referencePath).Some?
                          && d.propertyName == refModel(ms[i].referencePath).value.propertyName
  {
    if ms != [] {
      var n := |ms| - 1;
      DiscriminatorsOwned(ms[..n], models, refModel);
      forall d | d in DiscriminatorsOf(ms, models, refModel)
        ensures exists i :: 0 <= i < |ms| && ms[i].className == d.owner && ms[i].referencePath != ""
                            && Children(d.owner, models) != [] && refModel(ms[i].referencePath).Some?
                            && d.propertyName == refModel(ms[i].referencePath).value.propertyName
      {
        if d in DiscriminatorsOf(ms[..n], models, refModel) {
          var i :| 0 <= i < n && ms[..n][i].className == d.owner && ms[..n][i].referencePath != ""
                   && Children(d.owner, models) != [] && refModel(ms[..n][i].referencePath).Some?
                   && d.propertyName == refModel(ms[..n][i].referencePath).value.propertyName;
          assert ms[i] == ms[..n][i];
        } else {
          assert DiscriminatorOf(ms[n], models, refModel) == Some(d);
        }
      }
    }
  }

  /* ------------------------------------------------ discriminators on the models */

  /** The error of `models[name].fields` when `name` is not a model: `models[name]` is `None`. */
  datatype ApplyError = AttributeError(className: string)

  /** One entry of a discriminator's mapping, with the discriminator's property and owner. */
  datatype Entry = Entry(propertyName: string, owner: string, value: string, target: string)

  /** The fields named `name`, in order. */
  function FieldsNamed(fields: seq<Field>, name: string): (r: seq<Field>)
    ensures forall f :: f in r <==> f in fields && f.name == name
  {
    if fields == [] then []
    else
      assert forall f :: f in fields <==> f == fields[0] || f in fields[1..];
      (if fields[0].name == name then [fields[0]] else []) + FieldsNamed(fields[1..], name)
  }

  /** The copy of the parent's field a child receives: required, defaulting to the quoted value, of its literal type. */
  function DiscriminatorField(f: Field, value: string): Field
  {
    f.(default := Some("'" + value + "'"), required := true, hasDefault := true,
       dataType := "Literal['" + value + "']")
  }

  /** The body of the inner loop of `apply_discriminators_to_models` for one mapping entry. */
  function ApplyEntry(models: Models, e: Entry): Result<Models, ApplyError>
  {
    match Get(models, e.owner)
    case None => Err(AttributeError(e.owner))
    case Some(parent) =>
      var named := FieldsNamed(parent.fields, e.propertyName);
      if |named| != 1 then Ok(models)
      else match Get(models, e.target)
        case None => Err(AttributeError(e.target))
        case Some(child) => Ok(Set(models, e.target, child.(fields := child.fields + [DiscriminatorField(named[0], e.value)])))
  }

  /** The entries of one discriminator, in mapping order. */
  function EntriesOf(d: Discriminator): (r: seq<Entry>)
    ensures |r| == |d.mapping|
    ensures forall i :: 0 <= i < |r| ==> r[i] == Entry(d.propertyName, d.owner, d.mapping[i].0, d.mapping[i].1)
  {
    seq(|d.mapping|, i requires 0 <= i < |d.mapping| => Entry(d.propertyName, d.owner, d.mapping[i].0, d.mapping[i].1))
  }

  /** The entries of all the discriminators, discriminator by discriminator. */
  function AllEntries(ds: seq<Discriminator>): seq<Entry>
  {
    if ds == [] then [] else EntriesOf(ds[0]) + AllEntries(ds[1..])
  }

  /** The entries applied one after the other; the first error stops the loop. */
  function ApplyEntries(models: Models, es: seq<Entry>): Result<Models, ApplyError>
    decreases |es|
  {
    if es == [] then Ok(models)
    else match ApplyEntry(models, es[0])
      case Err(err) => Err(err)
      case Ok(m) => ApplyEntries(m, es[1..])
  }

  /** `apply_discriminators_to_models` */
  method ApplyDiscriminatorsToModels(discriminators: seq<Discriminator>, models: Models)
    returns (r: Result<Models, ApplyError>)
    ensures r == ApplyEntries(models, AllEntries(discriminators))
  {
    var current := models;
    for i := 0 to |discriminators|
      invariant ApplyEntries(models, AllEntries(discriminators)) ==
                ApplyEntries(current, AllEntries(discriminators[i..]))
    {
      var discriminator := discriminators[i];
      var entries := EntriesOf(discriminator);
      assert discriminators[i..][0] == discriminator && discriminators[i..][1..] == discriminators[i + 1..];
      assert AllEntries(discriminators[i..]) == entries[0..] + AllEntries(discriminators[i + 1..]);
      for j := 0 to |discriminator.mapping|
        invariant ApplyEntries(models, AllEntries(discriminators)) ==
                  ApplyEntries(current, entries[j..] + AllEntries(discriminators[i + 1..]))
      {
        var rest := AllEntries(discriminators[i + 1..]);
        assert (entries[j..] + rest)[0] == entries[j];
        assert (entries[j..] + rest)[1..] == entries[j + 1..] + rest;
        var (discriminatorValue, discriminatedModelClassname) := discriminator.mapping[j];
        var parent := Get(current, discriminator.owner);
        if parent.None? {
          return Err(AttributeError(discriminator.owner));
        }
        var discriminatorField := FieldsNamed(parent.value.fields, discriminator.propertyName);
        if |discriminatorField| != 1 {
          continue;
        }
        var cloned := DiscriminatorField(discriminatorField[0], discriminatorValue);
        var child := Get(current, discriminatedModelClassname);
        if child.None? {
          return Err(AttributeError(discriminatedModelClassname));
        }
        current := Set(current, discriminatedModelClassname, child.value.(fields := child.value.fields + [cloned]));
      }
      assert entries[|discriminator.mapping|..] == [];
      assert [] + AllEntries(discriminators[i + 1..]) == AllEntries(discriminators[i + 1..]);
    }
    assert AllEntries(discriminators[|discriminators|..]) == [];
    r := Ok(current);
  }

  /**
   * A mapping entry changes only its target model, and that one only when the owner
   * has exactly one field named after the property: the target then gains a copy of
   * that field, required, defaulting to the quoted value.
   */
  lemma DiscriminatorFieldAdded(models: Models, e: Entry)
    requires ApplyEntry(models, e).Ok?
    ensures var r := ApplyEntry(models, e).value;
      var named := FieldsNamed(Get(models, e.owner).value.fields, e.propertyName);
      (forall k :: k != e.target ==> Get(r, k) == Get(models, k))
      && (|named| != 1 ==> r == models)
      && (|named| == 1 ==>
            Get(models, e.target).Some? &&
            var f := Get(r, e.target).value.fields;
            f == Get(models, e.target).value.fields + [f[|f| - 1]]
            && f[|f| - 1].name == e.propertyName && f[|f| - 1].dataType == "Literal['" + e.value + "']"
            && f[|f| - 1].required && f[|f| - 1].hasDefault && f[|f| - 1].default == Some("'" + e.value + "'"))
  {
    var named := FieldsNamed(Get(models, e.owner).value.fields, e.propertyName);
    if |named| == 1 {
      assert named[0] in named;
      var child := Get(models, e.target).value;
      var f := DiscriminatorField(named[0], e.value);
      var r := ApplyEntry(models, e).value;
      assert r == Set(models, e.target, child.(fields := child.fields + [f]));
      assert Get(r, e.target).value.fields == child.fields + [f];
    }
  }

  /* -------------------------------------------------------------- sorted aliases */

  /** `alias_order[name]` of the `defaultdict(int)`: 0 for a name never recorded. */
  function OrderOf(order: Dict<string, int>, name: string): int { Get(order, name).GetOr(0) }

  /** The alias of one parent at position `current`: placed before its dependants if it was recorded already. */
  function AliasFor(parent: string, models: Models, order: Dict<string, int>, current: int): Alias
  {
    var o := if OrderOf(order, parent) == 0 then current
             else if current - 1 < -current then current - 1 else -current;
    Alias(parent, Children(parent, models) + [parent + GENERIC_SUFFIX], o)
  }

  /** The pairs recorded for the children not recorded yet. */
  function NewEntries(order: Dict<string, int>, children: seq<string>, o: int): Dict<string, int>
  {
    if children == [] then []
    else
      var rest := NewEntries(order, children[1..], o);
      if OrderOf(order, children[0]) == 0 then [(children[0], o)] + rest else rest
  }

  /** Every new pair carries the alias's order, and every child not recorded yet has one. */
  lemma {:induction false} NewEntriesShape(order: Dict<string, int>, children: seq<string>, o: int)
    ensures forall i :: 0 <= i < |NewEntries(order, children, o)| ==> NewEntries(order, children, o)[i].1 == o
    ensures forall c :: c in children && OrderOf(order, c) == 0 ==> c in Keys(NewEntries(order, children, o))
  {
    if children != [] {
      var rest := NewEntries(order, children[1..], o);
      var r := NewEntries(order, children, o);
      NewEntriesShape(order, children[1..], o);
      if OrderOf(order, children[0]) == 0 {
        assert r == [(children[0], o)] + rest;
        KeysCons((children[0], o), rest);
        forall i | 0 <= i < |r| ensures r[i].1 == o {
          if i > 0 {
            assert r[i] == rest[i - 1];
          }
        }
      }
      forall c | c in children && OrderOf(order, c) == 0 ensures c in Keys(r) {
        if c != children[0] {
          assert c in children[1..];
        }
      }
    }
  }

  /** `alias_order.update(...)` after an alias is built. */
  function Remembered(order: Dict<string, int>, a: Alias): Dict<string, int>
  {
    Update(order, NewEntries(order, a.childrenClassnames, a.order) + [(a.parentClassname, a.order)])
  }

  /** The aliases of the owners, in owner order, from the given memo and position. */
  function BuildAliases(owners: seq<string>, models: Models, order: Dict<string, int>, current: int): (r: seq<Alias>)
    ensures |r| == |owners|
  {
    if owners == [] then []
    else
      var a := AliasFor(owners[0], models, order, current);
      [a] + BuildAliases(owners[1..], models, Remembered(order, a), current + 1)
  }

  predicate SortedByOrder(s: seq<Alias>) {
    forall i, j :: 0 <= i < j < |s| ==> s[i].order <= s[j].order
  }

  /** Puts `x` after every alias whose order is not greater than its own. */
  function InsertByOrder(x: Alias, s: seq<Alias>): (r: seq<Alias>)
    ensures multiset(r) == multiset(s) + multiset{x}
  {
    if s == [] then [x]
    else if s[0].order <= x.order then
      assert s == [s[0]] + s[1..];
      [s[0]] + InsertByOrder(x, s[1..])
    else [x] + s
  }

  lemma {:induction false} InsertSorted(x: Alias, s: seq<Alias>)
    requires SortedByOrder(s)
    ensures SortedByOrder(InsertByOrder(x, s))
  {
    if s != [] && s[0].order <= x.order {
      var t := InsertByOrder(x, s[1..]);
      assert SortedByOrder(s[1..]) by {
        forall i, j | 0 <= i < j < |s[1..]| ensures s[1..][i].order <= s[1..][j].order {
          assert s[1..][i] == s[i + 1] && s[1..][j] == s[j + 1];
        }
      }
      InsertSorted(x, s[1..]);
      InsertBounded(x, s[1..], s[0].order);
      SortedCons(s[0], t);
    } else if s != [] {
      SortedCons(x, s);
    }
  }

  /** Inserting a value no lower than a bound into values no lower than it keeps every value above the bound. */
  lemma InsertBounded(x: Alias, s: seq<Alias>, b: int)
    requires b <= x.order && forall j :: 0 <= j < |s| ==> b <= s[j].order
    ensures forall j :: 0 <= j < |InsertByOrder(x, s)| ==> b <= InsertByOrder(x, s)[j].order
  {
    var t := InsertByOrder(x, s);
    forall j | 0 <= j < |t| ensures b <= t[j].order {
      assert t[j] in multiset(t);
      if t[j] != x {
        assert t[j] in multiset(s);
        var k :| 0 <= k < |s| && s[k] == t[j];
      }
    }
  }

  /** An alias no later than every alias of a sorted run goes in front of it. */
  lemma SortedCons(a: Alias, t: seq<Alias>)
    requires SortedByOrder(t) && forall j :: 0 <= j < |t| ==> a.order <= t[j].order
    ensures SortedByOrder([a] + t)
  {
    var r := [a] + t;
    forall i, j | 0 <= i < j < |r| ensures r[i].order <= r[j].order {
      assert r[j] == t[j - 1];
      if i > 0 {
        assert r[i] == t[i - 1];
      }
    }
  }

  /** `sorted(aliases, key=lambda alias_: alias_.order)`: a stable insertion sort. */
  function SortByOrder(s: seq<Alias>): (r: seq<Alias>)
    ensures multiset(r) == multiset(s)
  {
    if s == [] then []
    else
      var n := |s| - 1;
      assert s == s[..n] + [s[n]];
      InsertByOrder(s[n], SortByOrder(s[..n]))
  }

  lemma {:induction false} SortByOrderSorted(s: seq<Alias>)
    ensures SortedByOrder(SortByOrder(s))
  {
    if s != [] {
      var n := |s| - 1;
      SortByOrderSorted(s[..n]);
      InsertSorted(s[n], SortByOrder(s[..n]));
    }
  }

  /**
   * `parse_sorted_aliases`: one alias per discriminator owner, whose children are the
   * owner's children and the owner's "Generic" model; an owner met before, as a
   * parent or as a child, is given an order that sorts it before every earlier alias.
   */
  method ParseSortedAliases(models: Models, discriminators: seq<Discriminator>) returns (r: seq<Alias>)
    ensures r == SortByOrder(BuildAliases(Owners(discriminators), models, [], 1))
  {
    var owners := Owners(discriminators);
    var aliases: seq<Alias> := [];
    var aliasOrder: Dict<string, int> := [];
    var currentOrder := 1;
    for i := 0 to |owners|
      invariant currentOrder == i + 1
      invariant BuildAliases(owners, models, [], 1) == aliases + BuildAliases(owners[i..], models, aliasOrder, currentOrder)
    {
      ghost var before := aliasOrder;
      var parentClassname := owners[i];
      var order := if OrderOf(aliasOrder, parentClassname) == 0 then currentOrder
                   else if currentOrder - 1 < -currentOrder then currentOrder - 1 else -currentOrder;
      var alias := Alias(parentClassname, Children(parentClassname, models), order);
      alias := alias.(childrenClassnames := alias.childrenClassnames + [alias.parentClassname + GENERIC_SUFFIX]);
      assert alias == AliasFor(parentClassname, models, before, currentOrder);
      BuildAliasesStep(owners, models, aliases, before, currentOrder, i, alias);
      aliases := aliases + [alias];
      aliasOrder := Remembered(aliasOrder, alias);
      currentOrder := currentOrder + 1;
    }
    BuildAliasesDone(owners, models, aliases, aliasOrder, currentOrder);
    r := SortByOrder(aliases);
  }

  /** One turn of the loop of `parse_sorted_aliases`: the alias built goes after those before it. */
  lemma BuildAliasesStep(owners: seq<string>, models: Models, aliases: seq<Alias>, order: Dict<string, int>,
                         current: int, i: int, a: Alias)
    requires 0 <= i < |owners| && a == AliasFor(owners[i], models, order, current)
    requires BuildAliases(owners, models, [], 1) == aliases + BuildAliases(owners[i..], models, order, current)
    ensures BuildAliases(owners, models, [], 1)
            == (aliases + [a]) + BuildAliases(owners[i + 1..], models, Remembered(order, a), current + 1)
  {
    assert owners[i..][0] == owners[i] && owners[i..][1..] == owners[i + 1..];
  }

  lemma BuildAliasesDone(owners: seq<string>, models: Models, aliases: seq<Alias>, order: Dict<string, int>,
                         current: int)
    requires BuildAliases(owners, models, [], 1) == aliases + BuildAliases(owners[|owners|..], models, order, current)
    ensures BuildAliases(owners, models, [], 1) == aliases
  {
    assert owners[|owners|..] == [];
  }

  /** `[discriminator.owner for discriminator in discriminators]` */
  function Owners(ds: seq<Discriminator>): (r: seq<string>)
    ensures |r| == |ds| && forall i :: 0 <= i < |ds| ==> r[i] == ds[i].owner
  {
    seq(|ds|, i requires 0 <= i < |ds| => ds[i].owner)
  }

  /** Every alias lists its owner's children and ends with the owner's "Generic" model; its order is its position, or minus it. */
  lemma {:induction false} BuiltAliases(owners: seq<string>, models: Models, order: Dict<string, int>, current: int)
    ensures var b := BuildAliases(owners, models, order, current);
      forall k :: 0 <= k < |b| ==>
        b[k].parentClassname == owners[k]
        && b[k].childrenClassnames == Children(owners[k], models) + [owners[k] + GENERIC_SUFFIX]
        && (b[k].order == current + k || b[k].order == -(current + k) || b[k].order == current + k - 1)
  {
    if owners != [] {
      var a := AliasFor(owners[0], models, order, current);
      BuiltAliases(owners[1..], models, Remembered(order, a), current + 1);
      var b := BuildAliases(owners, models, order, current);
      forall k | 1 <= k < |b| ensures b[k] == BuildAliases(owners[1..], models, Remembered(order, a), current + 1)[k - 1] {
      }
    }
  }

  /** Recorded names stay recorded, and every name the update lists becomes recorded. */
  lemma {:induction false} UpdateRecords(d: Dict<string, int>, e: Dict<string, int>, k: string)
    requires forall i :: 0 <= i < |e| ==> e[i].1 != 0
    requires OrderOf(d, k) != 0 || k in Keys(e)
    ensures OrderOf(Update(d, e), k) != 0
    decreases |e|
  {
    if e != [] {
      var d' := Set(d, e[0].0, e[0].1);
      assert OrderOf(d', k) != 0 || k in Keys(e[1..]);
      UpdateRecords(d', e[1..], k);
    }
  }

  /** After an alias is built its parent and every child of it are recorded. */
  lemma RememberedRecords(order: Dict<string, int>, a: Alias, k: string)
    requires a.order != 0
    requires OrderOf(order, k) != 0 || k == a.parentClassname || k in a.childrenClassnames
    ensures OrderOf(Remembered(order, a), k) != 0
  {
    var n := NewEntries(order, a.childrenClassnames, a.order);
    var e := n + [(a.parentClassname, a.order)];
    NewEntriesShape(order, a.childrenClassnames, a.order);
    KeysConcat(n, [(a.parentClassname, a.order)]);
    forall i | 0 <= i < |e| ensures e[i].1 != 0 {
      if i < |n| {
        assert e[i] == n[i] && n[i].1 == a.order;
      } else {
        assert e[i] == (a.parentClassname, a.order);
      }
    }
    assert Keys(e) == Keys(n) + [a.parentClassname];
    UpdateRecords(order, e, k);
  }

  /** Owner `i` was the parent, a child or the "Generic" model of an earlier alias. */
  predicate MetBefore(owners: seq<string>, models: Models, i: int)
    requires 0 <= i < |owners|
  {
    exists j :: 0 <= j < i && (owners[j] == owners[i] || owners[i] in Children(owners[j], models)
                                || owners[i] == owners[j] + GENERIC_SUFFIX)
  }

  /** The aliases after the first are those built from the second owner on. */
  lemma BuildAliasesTail(owners: seq<string>, models: Models, order: Dict<string, int>, current: int, i: int)
    requires 0 < i < |owners|
    ensures BuildAliases(owners, models, order, current)[i]
            == BuildAliases(owners[1..], models, Remembered(order, AliasFor(owners[0], models, order, current)),
                            current + 1)[i - 1]
  {
  }

  /** Being met before, after the first owner, is being met before among the later owners or met as the first. */
  lemma MetBeforeTail(owners: seq<string>, models: Models, i: int)
    requires 0 < i < |owners| && MetBefore(owners, models, i)
    ensures (owners[0] == owners[i] || owners[i] in Children(owners[0], models) || owners[i] == owners[0] + GENERIC_SUFFIX)
            || (i > 1 && MetBefore(owners[1..], models, i - 1))
  {
    var j :| 0 <= j < i && (owners[j] == owners[i] || owners[i] in Children(owners[j], models)
                            || owners[i] == owners[j] + GENERIC_SUFFIX);
    if j > 0 {
      assert owners[1..][j - 1] == owners[j] && owners[1..][i - 1] == owners[i];
    }
  }

  /** The first owner, when recorded already, gets minus the first position. */
  lemma RecordedFirst(owners: seq<string>, models: Models, order: Dict<string, int>, current: int)
    requires current >= 1 && |owners| > 0 && OrderOf(order, owners[0]) != 0
    ensures BuildAliases(owners, models, order, current)[0].order == -current
  {
    assert BuildAliases(owners, models, order, current)[0] == AliasFor(owners[0], models, order, current);
  }

  /** What makes a later owner recorded carries over to the owners after the first. */
  lemma RecordedAfterFirst(owners: seq<string>, models: Models, order: Dict<string, int>, current: int, i: int)
    requires current >= 1 && 0 < i < |owners| && RecordedAt(owners, models, order, i)
    ensures RecordedAt(owners[1..], models, Remembered(order, AliasFor(owners[0], models, order, current)), i - 1)
  {
    var a := AliasFor(owners[0], models, order, current);
    assert owners[1..][i - 1] == owners[i];
    if OrderOf(order, owners[i]) != 0 {
      RememberedRecords(order, a, owners[i]);
    } else {
      MetBeforeTail(owners, models, i);
      if owners[0] == owners[i] || owners[i] in Children(owners[0], models) || owners[i] == owners[0] + GENERIC_SUFFIX {
        assert owners[i] in a.childrenClassnames || owners[i] == a.parentClassname;
        RememberedRecords(order, a, owners[i]);
      }
    }
  }

  /** Owner `i` is recorded in the memo already, or was met before as a parent or a child. */
  predicate RecordedAt(owners: seq<string>, models: Models, order: Dict<string, int>, i: int)
    requires 0 <= i < |owners|
  {
    OrderOf(order, owners[i]) != 0 || (i > 0 && MetBefore(owners, models, i))
  }

  /** An owner recorded before its turn gets minus its position as order. */
  lemma {:induction false} RecordedOwnerGoesFirst(owners: seq<string>, models: Models, order: Dict<string, int>,
                                                  current: int, i: int)
    requires current >= 1 && 0 <= i < |owners| && RecordedAt(owners, models, order, i)
    ensures BuildAliases(owners, models, order, current)[i].order == -(current + i)
    decreases i
  {
    if i == 0 {
      RecordedFirst(owners, models, order, current);
    } else {
      RecordedAfterFirst(owners, models, order, current, i);
      RecordedOwnerGoesFirst(owners[1..], models, Remembered(order, AliasFor(owners[0], models, order, current)),
                             current + 1, i - 1);
      assert BuildAliases(owners[1..], models, Remembered(order, AliasFor(owners[0], models, order, current)),
                          current + 1)[i - 1].order == -(current + i);
      BuildAliasesTail(owners, models, order, current, i);
    }
  }

  /**
   * An owner that was met before, as a parent or as a child, gets an order below
   * that of every earlier alias, so sorting puts it before the aliases that depend on it.
   */
  lemma RecordedOwnerSortsBefore(owners: seq<string>, models: Models, i: int)
    requires 0 <= i < |owners| && MetBefore(owners, models, i)
    ensures var b := BuildAliases(owners, models, [], 1);
      forall j :: 0 <= j < i ==> b[i].order < b[j].order
  {
    RecordedOwnerGoesFirst(owners, models, [], 1, i);
    BuiltAliases(owners, models, [], 1);
  }

  /** The sorted aliases are the built ones, each ending with its parent's "Generic" model, in non-decreasing order. */
  lemma SortedAliases(owners: seq<string>, models: Models)
    ensures var r := SortByOrder(BuildAliases(owners, models, [], 1));
      SortedByOrder(r) && |r| == |owners|
      && (forall a :: a in r ==> (|a.childrenClassnames| > 0
                                 && a.childrenClassnames[|a.childrenClassnames| - 1] == a.parentClassname + GENERIC_SUFFIX))
  {
    var b := BuildAliases(owners, models, [], 1);
    var r := SortByOrder(b);
    SortByOrderSorted(b);
    BuiltAliases(owners, models, [], 1);
    assert |r| == |multiset(r)| == |multiset(b)| == |b|;
    forall a | a in r
      ensures |a.childrenClassnames| > 0
      ensures a.childrenClassnames[|a.childrenClassnames| - 1] == a.parentClassname + GENERIC_SUFFIX
    {
      assert a in multiset(b);
    }
  }

  /* ------------------------------------------------------------ error responses */

  /** A response of an operation; `model` names the model of its body. */
  datatype ResponseSpec = ResponseSpec(model: string)

  /** `status in range(200, 300)` */
  predicate IsOkStatus(status: int) { 200 <= status < 300 }

  /**
   * `toInt(code)` of each code, in order, where `toInt` is Python's `int()` (`ParseInt`);
   * the first code that is not a number raises `ValueError`.
   */
  function ParseCodes(responses: Dict<string, ResponseSpec>, toInt: string -> Option<int>): (r: Result<Dict<int, ResponseSpec>, string>)
    ensures r.Ok? <==> forall i :: 0 <= i < |responses| ==> toInt(responses[i].0).Some?
    ensures r.Ok? ==> |r.value| == |responses|
                      && forall i :: 0 <= i < |responses| ==> r.value[i] == (toInt(responses[i].0).value, responses[i].1)
    ensures r.Err? ==> toInt(r.error).None? && r.error in Keys(responses)
  {
    if responses == [] then Ok([])
    else
      var rest := ParseCodes(responses[1..], toInt);
      assert forall i :: 1 <= i < |responses| ==> responses[i] == responses[1..][i - 1];
      assert Keys(responses) == [responses[0].0] + Keys(responses[1..]);
      match toInt(responses[0].0)
      case None => Err(responses[0].0)
      case Some(n) =>
        match rest
        case Err(c) => Err(c)
        case Ok(pairs) => Ok([(n, responses[0].1)] + pairs)
  }

  /** The pairs whose status is outside 200-299, in order. */
  function ErrorPairs(pairs: Dict<int, ResponseSpec>): (r: Dict<int, ResponseSpec>)
    ensures forall p :: p in r <==> p in pairs && !IsOkStatus(p.0)
  {
    if pairs == [] then []
    else
      assert forall p :: p in pairs <==> p == pairs[0] || p in pairs[1..];
      (if IsOkStatus(pairs[0].0) then [] else [pairs[0]]) + ErrorPairs(pairs[1..])
  }

  /**
   * The dict comprehension of `set_other_responses_models`: codes parsed with `int()`,
   * the 2xx ones left out, later codes overwriting earlier equal ones.
   */
  function ErrorResponses(additional: Dict<string, ResponseSpec>, toInt: string -> Option<int>): Result<Dict<int, ResponseSpec>, string>
  {
    match ParseCodes(additional, toInt)
    case Err(code) => Err(code)
    case Ok(pairs) => Ok(Update([], ErrorPairs(pairs)))
  }

  /** A key of a dict is the first component of one of its pairs. */
  lemma KeyOfPair<K, V>(d: Dict<K, V>, k: K)
    ensures k in Keys(d) <==> exists v :: (k, v) in d
  {
    if k in Keys(d) {
      var i :| 0 <= i < |d| && Keys(d)[i] == k;
      assert d[i] == (k, d[i].1);
    }
    if exists v :: (k, v) in d {
      var v :| (k, v) in d;
      var i :| 0 <= i < |d| && d[i] == (k, v);
      assert Keys(d)[i] == k;
    }
  }

  /**
   * The comprehension raises exactly when some code is not a number; otherwise it
   * keeps exactly the parsed codes outside 200-299.
   */
  lemma ErrorResponsesKeys(additional: Dict<string, ResponseSpec>, toInt: string -> Option<int>, n: int)
    ensures ErrorResponses(additional, toInt).Ok? <==> forall i :: 0 <= i < |additional| ==> toInt(additional[i].0).Some?
    ensures ErrorResponses(additional, toInt).Ok? ==>
              (n in Keys(ErrorResponses(additional, toInt).value) <==>
                 !IsOkStatus(n) && exists i :: 0 <= i < |additional| && toInt(additional[i].0) == Some(n))
  {
    var parsed := ParseCodes(additional, toInt);
    if parsed.Ok? {
      var pairs := parsed.value;
      var errors := ErrorPairs(pairs);
      UpdateKeys([], errors, n);
      KeyOfPair(errors, n);
      if !IsOkStatus(n) && exists i :: 0 <= i < |additional| && toInt(additional[i].0) == Some(n) {
        var i :| 0 <= i < |additional| && toInt(additional[i].0) == Some(n);
        assert pairs[i] == (n, additional[i].1);
        assert (n, additional[i].1) in errors;
      }
      if n in Keys(errors) {
        var v :| (n, v) in errors;
        var i :| 0 <= i < |pairs| && pairs[i] == (n, v);
        assert toInt(additional[i].0) == Some(n);
      }
    }
  }

  /** An operation; `set_other_responses_models` assigns its `errorResponses`. */
  class Operation {
    const additionalResponses: Dict<string, ResponseSpec>
    var errorResponses: Dict<int, ResponseSpec>

    constructor (additionalResponses: Dict<string, ResponseSpec>)
      ensures this.additionalResponses == additionalResponses && errorResponses == []
    {
      this.additionalResponses := additionalResponses;
      errorResponses := [];
    }
  }

  /** The error responses of one operation, or the code `toInt` rejects. */
  function ErrorResponsesOf(o: Operation, toInt: string -> Option<int>): Result<Dict<int, ResponseSpec>, string>
  {
    ErrorResponses(o.additionalResponses, toInt)
  }

  /**
   * `set_other_responses_models`, with `int()` as `toInt` (`ParseInt`): each operation
   * in turn gets the error responses of its additional responses; a code that is not
   * a number raises and leaves the later operations as they were.
   */
  method SetOtherResponsesModels(operations: seq<Operation>, toInt: string -> Option<int>) returns (raised: Option<string>)
    modifies set i | 0 <= i < |operations| :: operations[i]
    ensures raised.None? ==>
              forall i :: 0 <= i < |operations| ==> ErrorResponsesOf(operations[i], toInt) == Ok(operations[i].errorResponses)
    ensures raised.Some? ==>
              exists k :: 0 <= k < |operations| && ErrorResponsesOf(operations[k], toInt) == Err(raised.value)
                          && (forall i :: 0 <= i < k ==> ErrorResponsesOf(operations[i], toInt) == Ok(operations[i].errorResponses))
                          && forall i :: k <= i < |operations| && operations[i] !in operations[..k] ==>
                               operations[i].errorResponses == old(operations[i].errorResponses)
  {
    for index := 0 to |operations|
      invariant forall i :: 0 <= i < index ==> ErrorResponsesOf(operations[i], toInt) == Ok(operations[i].errorResponses)
      invariant forall i :: index <= i < |operations| && operations[i] !in operations[..index] ==>
                  operations[i].errorResponses == old(operations[i].errorResponses)
    {
      var errorResponses := ErrorResponsesOf(operations[index], toInt);
      if errorResponses.Err? {
        return Some(errorResponses.error);
      }
      operations[index].errorResponses := errorResponses.value;
    }
    return None;
  }

  /* ---------------------------------------------------------------- root models */

  /** A root model: a single field without a name. */
  predicate IsRootModel(m: DataModel) { |m.fields| == 1 && m.fields[0].name == "" }

  /** The class names of the root models among the values, in order. */
  function RootClassnames(d: Models): seq<string>
  {
    if d == [] then []
    else RootClassnames(d[..|d| - 1]) + (if IsRootModel(d[|d| - 1].1) then [d[|d| - 1].1.className] else [])
  }

  /** The error of `models.pop(name)` on a name that is not a key. */
  datatype KeyError = KeyError(key: string)

  /** The `pop` loop over the names, in order; the first missing name raises. */
  function PopAll(d: Models, names: seq<string>): Result<Models, KeyError>
    decreases |names|
  {
    if names == [] then Ok(d)
    else if names[0] in Keys(d) then PopAll(Remove(d, names[0]), names[1..])
    else Err(KeyError(names[0]))
  }

  /** `delete_root_models` */
  method DeleteRootModels(models: Models) returns (r: Result<Models, KeyError>)
    ensures r == PopAll(models, RootClassnames(models))
  {
    var names := RootClassnames(models);
    var current := models;
    for i := 0 to |names|
      invariant PopAll(models, names) == PopAll(current, names[i..])
    {
      assert names[i..][0] == names[i] && names[i..][1..] == names[i + 1..];
      if names[i] !in Keys(current) {
        return Err(KeyError(names[i]));
      }
      current := Remove(current, names[i]);
    }
    r := Ok(current);
  }

  /** The models keyed by their own class names, as the visitor builds them. */
  predicate Keyed(d: Models) { forall i :: 0 <= i < |d| ==> d[i].0 == d[i].1.className }

  /** The entries whose key is not among `names`, in order. */
  function Without(d: Models, names: seq<string>): Models
  {
    if d == [] then []
    else (if d[0].0 in names then [] else [d[0]]) + Without(d[1..], names)
  }

  lemma {:induction false} WithoutKeys(d: Models, names: seq<string>, k: string)
    ensures k in Keys(Without(d, names)) <==> k in Keys(d) && k !in names
  {
    if d != [] {
      WithoutKeys(d[1..], names, k);
      KeysConcat(if d[0].0 in names then [] else [d[0]], Without(d[1..], names));
      assert Keys(d) == [d[0].0] + Keys(d[1..]);
    }
  }

  lemma {:induction false} RemoveWithout(d: Models, names: seq<string>, n: string)
    ensures Remove(Without(d, names), n) == Without(d, names + [n])
  {
    if d != [] {
      RemoveWithout(d[1..], names, n);
      var rest := Without(d[1..], names);
      if d[0].0 !in names {
        var w := [d[0]] + rest;
        assert w[0] == d[0] && w[1..] == rest;
        assert Remove(w, n) == (if d[0].0 == n then [] else [d[0]]) + Remove(rest, n);
      } else {
        assert Without(d, names) == rest;
      }
    }
  }

  /** Popping a key not popped before removes its entry from the ones left. */
  lemma PopOne(d: Models, done: seq<string>, n: string)
    requires n in Keys(d) && n !in done
    ensures n in Keys(Without(d, done)) && Remove(Without(d, done), n) == Without(d, done + [n])
  {
    WithoutKeys(d, done, n);
    RemoveWithout(d, done, n);
  }

  /** The names after the first are distinct, differ from the first and are among all the names. */
  lemma DistinctTail(names: seq<string>)
    requires |names| > 0 && forall i, j :: 0 <= i < j < |names| ==> names[i] != names[j]
    ensures forall i, j :: 0 <= i < j < |names[1..]| ==> names[1..][i] != names[1..][j]
    ensures forall n :: n in names[1..] ==> n in names && n != names[0]
  {
    forall n | n in names[1..] ensures n in names && n != names[0] {
      var k :| 0 <= k < |names[1..]| && names[1..][k] == n;
      assert names[k + 1] == n;
    }
  }

  lemma AppendFirst<T>(a: seq<T>, s: seq<T>)
    requires |s| > 0
    ensures a + [s[0]] + s[1..] == a + s
  {
    assert s == [s[0]] + s[1..];
  }

  /** Popping distinct names that are all keys, and not popped before, leaves the other entries, in order. */
  lemma {:induction false} PopAllWithout(d: Models, done: seq<string>, names: seq<string>)
    requires forall i, j :: 0 <= i < j < |names| ==> names[i] != names[j]
    requires forall n :: n in names ==> n in Keys(d) && n !in done
    ensures PopAll(Without(d, done), names) == Ok(Without(d, done + names))
    decreases |names|
  {
    if names == [] {
      assert done + names == done;
    } else {
      var w := Without(d, done);
      var done' := done + [names[0]];
      PopOne(d, done, names[0]);
      DistinctTail(names);
      assert forall n :: n in names[1..] ==> n !in done';
      PopAllWithout(d, done', names[1..]);
      assert PopAll(w, names) == PopAll(Remove(w, names[0]), names[1..]);
      AppendFirst(done, names);
    }
  }

  lemma {:induction false} WithoutNothing(d: Models)
    ensures Without(d, []) == d
  {
    if d != [] {
      WithoutNothing(d[1..]);
    }
  }

  /** The root class names of a dict and of the dict without its last entry. */
  lemma RootClassnamesLast(d: Models)
    requires |d| > 0
    ensures var n := |d| - 1;
      RootClassnames(d) == RootClassnames(d[..n]) + (if IsRootModel(d[n].1) then [d[n].1.className] else [])
      && Keys(d) == Keys(d[..n]) + [d[n].0]
  {
    var n := |d| - 1;
    KeysPrefix(d, n);
    assert d[..n + 1] == d;
  }

  /** In a keyed dict the root class names are keys. */
  lemma {:induction false} RootClassnamesAreKeys(d: Models)
    requires Keyed(d)
    ensures forall n :: n in RootClassnames(d) ==> n in Keys(d)
  {
    if d != [] {
      var n := |d| - 1;
      assert Keyed(d[..n]);
      RootClassnamesAreKeys(d[..n]);
      RootClassnamesLast(d);
    }
  }

  /** In a keyed dict without repeated keys no root class name repeats. */
  lemma {:induction false} RootClassnamesDistinct(d: Models)
    requires Keyed(d) && KeysDistinct(d)
    ensures forall i, j :: 0 <= i < j < |RootClassnames(d)| ==> RootClassnames(d)[i] != RootClassnames(d)[j]
  {
    if d != [] {
      var n := |d| - 1;
      var p := d[..n];
      assert Keyed(p) && KeysDistinct(p);
      RootClassnamesDistinct(p);
      RootClassnamesAreKeys(p);
      RootClassnamesLast(d);
      assert d[n].0 !in Keys(p) by {
        forall i | 0 <= i < n ensures Keys(p)[i] != d[n].0 {
          assert Keys(p)[i] == d[i].0;
        }
      }
    }
  }

  /** In a keyed dict without repeated keys a key is a root class name exactly when its model is a root model. */
  lemma {:induction false} RootClassnamesExact(d: Models)
    requires Keyed(d) && KeysDistinct(d)
    ensures forall i :: 0 <= i < |d| ==> (d[i].0 in RootClassnames(d) <==> IsRootModel(d[i].1))
  {
    if d != [] {
      var p := d[..|d| - 1];
      assert Keyed(p) && KeysDistinct(p);
      RootClassnamesExact(p);
      RootClassnamesAreKeys(p);
      RootClassnamesLast(d);
      forall i | 0 <= i < |d| ensures (d[i].0 in RootClassnames(d) <==> IsRootModel(d[i].1)) {
        RootClassnamesExactAt(d, p, i);
      }
    }
  }

  /** One entry of `RootClassnamesExact`, from what holds of all the entries but the last. */
  lemma RootClassnamesExactAt(d: Models, p: Models, i: int)
    requires Keyed(d) && KeysDistinct(d) && d != [] && p == d[..|d| - 1] && 0 <= i < |d|
    requires forall j :: 0 <= j < |p| ==> (p[j].0 in RootClassnames(p) <==> IsRootModel(p[j].1))
    requires forall x :: x in RootClassnames(p) ==> x in Keys(p)
    requires RootClassnames(d) == RootClassnames(p) + (if IsRootModel(d[|p|].1) then [d[|p|].1.className] else [])
    ensures d[i].0 in RootClassnames(d) <==> IsRootModel(d[i].1)
  {
    var n := |p|;
    if i < n {
      assert p[i] == d[i];
      assert d[i].0 != d[n].0;
    } else {
      assert d[n].0 !in Keys(p) by {
        forall k | 0 <= k < n ensures Keys(p)[k] != d[n].0 {
          assert Keys(p)[k] == d[k].0;
        }
      }
    }
  }


  /** Entries not removed by `Without` are exactly the non-root ones when the names are those of the root models. */
  lemma {:induction false} WithoutRoots(d: Models, names: seq<string>)
    requires forall i :: 0 <= i < |d| ==> (d[i].0 in names <==> IsRootModel(d[i].1))
    ensures Without(d, names) == NonRoot(d)
  {
    if d != [] {
      assert forall i :: 0 <= i < |d[1..]| ==> d[1..][i] == d[i + 1];
      WithoutRoots(d[1..], names);
    }
  }

  /** The entries whose model is not a root model, in order. */
  function NonRoot(d: Models): (r: Models)
    ensures forall e :: e in r <==> e in d && !IsRootModel(e.1)
  {
    if d == [] then []
    else
      assert forall e :: e in d <==> e == d[0] || e in d[1..];
      (if IsRootModel(d[0].1) then [] else [d[0]]) + NonRoot(d[1..])
  }

  /**
   * On the models the visitor builds (keyed by class name), `delete_root_models`
   * removes exactly the models with one unnamed field and keeps the others in order.
   */
  lemma DeleteRootModelsExactly(models: Models)
    requires Keyed(models) && KeysDistinct(models)
    ensures PopAll(models, RootClassnames(models)) == Ok(NonRoot(models))
  {
    RootClassnamesDistinct(models);
    RootClassnamesExact(models);
    RootClassnamesAreKeys(models);
    PopAllWithout(models, [], RootClassnames(models));
    WithoutNothing(models);
    assert [] + RootClassnames(models) == RootClassnames(models);
    WithoutRoots(models, RootClassnames(models));
  }
}
