/**
 * `PydanticV2DataTypeManager.migrate_datatype_constraints`: the keyword arguments of
 * a constrained string type are carried from their pydantic v1 names to the v2 ones
 * (`regex` becomes `pattern`) on a copy of the dictionary.
 */
module DatatypeManager {
  import opened Wrappers
  import opened PyDict

  /** A value of `data_type_kwargs`; the migration looks only at its truth value. */
  datatype Kwarg = KwStr(s: string) | KwInt(i: int) | KwBool(b: bool) | KwNone

  /** Python truthiness of a keyword argument value. */
  predicate Truthy(v: Kwarg) {
    match v
    case KwStr(s) => s != ""
    case KwInt(i) => i != 0
    case KwBool(b) => b
    case KwNone => false
  }

  /** `PYDANTIC_V2_MIGRATION_CONSTRAINTS_MAPPING`: old constraint name to new one. */
  const MIGRATION_MAPPING: Dict<string, string> := [("regex", "pattern")]

  /** One entry of the mapping: a truthy value under `key` moves to `value`, and `key` is popped. */
  function MigrateKey(d: Dict<string, Kwarg>, key: string, value: string): Dict<string, Kwarg>
  {
    match Get(d, key)
    case Some(v) => if Truthy(v) then Remove(Set(d, value, v), key) else d
    case None => d
  }

  /** The entries of `mapping` applied in order. */
  function Migrated(d: Dict<string, Kwarg>, mapping: Dict<string, string>): Dict<string, Kwarg>
    decreases |mapping|
  {
    if mapping == [] then d
    else
      var n := |mapping| - 1;
      MigrateKey(Migrated(d, mapping[..n]), mapping[n].0, mapping[n].1)
  }

  /**
   * `migrate_datatype_constraints(data_type_kwargs)`: the loop over the mapping on a
   * copy. The argument is a value, so the caller's dictionary is never changed.
   */
  method MigrateDatatypeConstraints(kwargs: Dict<string, Kwarg>) returns (migrated: Dict<string, Kwarg>)
    ensures migrated == Migrated(kwargs, MIGRATION_MAPPING)
  {
    migrated := kwargs;
    for i := 0 to |MIGRATION_MAPPING|
      invariant migrated == Migrated(kwargs, MIGRATION_MAPPING[..i])
    {
      var key, value := MIGRATION_MAPPING[i].0, MIGRATION_MAPPING[i].1;
      var current := Get(migrated, key);
      if current.Some? && Truthy(current.value) {
        migrated := Set(migrated, value, current.value);
        migrated := Remove(migrated, key);
      }
      assert MIGRATION_MAPPING[..i + 1][..i] == MIGRATION_MAPPING[..i];
    }
    assert MIGRATION_MAPPING[..|MIGRATION_MAPPING|] == MIGRATION_MAPPING;
  }

  /** With the one entry of the mapping, the migration is the `regex` to `pattern` step. */
  lemma MigratedRegex(d: Dict<string, Kwarg>)
    ensures Migrated(d, MIGRATION_MAPPING) == MigrateKey(d, "regex", "pattern")
  {
    assert MIGRATION_MAPPING[..0] == [];
  }

  /**
   * Every key reads after the migration as before, except that a truthy `regex`
   * is read under `pattern` and `regex` is gone; the keys stay distinct.
   */
  lemma MigrationGet(d: Dict<string, Kwarg>, k: string)
    requires KeysDistinct(d)
    ensures var r := Migrated(d, MIGRATION_MAPPING);
      var moved := Get(d, "regex").Some? && Truthy(Get(d, "regex").value);
      && KeysDistinct(r)
      && (moved ==> Get(r, k) == if k == "pattern" then Get(d, "regex") else if k == "regex" then None else Get(d, k))
      && (!moved ==> r == d)
  {
    MigratedRegex(d);
    match Get(d, "regex")
    case Some(v) =>
      if Truthy(v) {
        var s := Set(d, "pattern", v);
        SetKeepsDistinct(d, "pattern", v);
        RemoveKeepsDistinct(s, "regex");
        RemoveGet(s, "regex", k);
      }
    case None =>
  }

  /** Migrating a migrated dictionary changes nothing more. */
  lemma MigrationIdempotent(d: Dict<string, Kwarg>)
    requires KeysDistinct(d)
    ensures Migrated(Migrated(d, MIGRATION_MAPPING), MIGRATION_MAPPING) == Migrated(d, MIGRATION_MAPPING)
  {
    var r := Migrated(d, MIGRATION_MAPPING);
    MigrationGet(d, "regex");
    MigratedRegex(r);
  }
}
