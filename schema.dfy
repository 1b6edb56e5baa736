/** What the serializer reads from a dataclass declaration, and the table of
    importable scopes and symbols that stands for `import_module` and `getattr`. */
module Schema {
  import opened Results
  import opened Values

  /** One declared dataclass field (`dataclasses.fields(cls)`). `optional` is
      what `_is_optional_field` decides from the annotation (`Optional[...]`);
      `init` is false for `field(init=False)`, which is no parameter of the
      generated `__init__`; `default` None stands for `dataclasses.MISSING`;
      the three hooks are the `encode`, `decode` and `contract` entries of the
      field's metadata. */
  datatype Field = Field(
    name: string,
    optional: bool,
    init: bool,
    default: Option<Value>,
    factory: Option<() -> Value>,
    encode: Option<Value -> Value>,
    decode: Option<Value -> Value>,
    contract: Option<Value -> bool>)

  /** What `getattr(import_module(scope), name)` finds: a dataclass deriving from
      Serializable with its declared fields, any other class, or a function. */
  datatype Symbol = EntityClass(fields: seq<Field>) | PlainClass | Function

  /** The importable scopes and, per (scope, name), the symbol defined there. */
  datatype Registry = Registry(modules: set<string>, symbols: map<(string, string), Symbol>)

  /** Conditions on one declaration under which the engine's recursion is bounded:
      an encode hook never returns a Serializable instance for the tagger to
      descend into, and neither the default nor the factory's result holds a
      marked dict for the untagger to dispatch on. */
  ghost predicate FieldWF(f: Field) {
    && (f.default.Some? ==> NoMarkerToUntag(f.default.value))
    && (f.factory.Some? ==> NoMarkerToUntag(f.factory.value()))
    && (f.encode.Some? ==> forall v :: NoEntityToTag(f.encode.value(v)))
  }

  /** Field names are unique, as `dataclasses` ensures for any declaration. */
  predicate UniqueNames(fields: seq<Field>) {
    forall i, j :: 0 <= i < j < |fields| ==> fields[i].name != fields[j].name
  }

  /** A dataclass's fields: names are unique and each field is well formed. */
  ghost predicate FieldsWF(fields: seq<Field>) {
    && UniqueNames(fields)
    && (forall i :: 0 <= i < |fields| ==> FieldWF(fields[i]))
  }

  ghost predicate RegistryWF(reg: Registry) {
    forall q :: q in reg.symbols && reg.symbols[q].EntityClass? ==> FieldsWF(reg.symbols[q].fields)
  }

  /** `_default_value(field)`: the declared default, else the factory's result,
      else MISSING (None). */
  function DefaultValue(f: Field): (r: Option<Value>)
    ensures FieldWF(f) && r.Some? ==> NoMarkerToUntag(r.value)
  {
    if f.default.Some? then f.default
    else if f.factory.Some? then Some(f.factory.value())
    else None
  }

  /** `getattr(import_module(scope), name)`; the ImportError or AttributeError
      it can raise is reported as a LookupError. */
  function Resolve(reg: Registry, scope: string, name: string): (r: Result<Symbol>)
    ensures r.Ok? <==> scope in reg.modules && (scope, name) in reg.symbols
    ensures r.Ok? ==> r.value == reg.symbols[(scope, name)]
    ensures r.Err? ==> r.error.LookupError?
  {
    if scope !in reg.modules then Err(LookupError("No module named '" + scope + "'"))
    else if (scope, name) !in reg.symbols then Err(LookupError("module '" + scope + "' has no attribute '" + name + "'"))
    else Ok(reg.symbols[(scope, name)])
  }
}
