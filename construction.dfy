/** The checks a Serializable dataclass runs when it is constructed
    (`__post_init__` and `_validate_contracts`), as specification functions. */
module Construction {
  import opened Results
  import opened Collections
  import opened Values
  import opened Schema

  /** The checks `_validate_contracts` makes of one field: the attribute exists,
      None only where the annotation is Optional, and the contract, if any,
      holds of a value that is not None. */
  predicate FieldValid(f: Field, attrs: seq<(string, Value)>) {
    && HasKey(attrs, f.name)
    && (Get(attrs, f.name) == Some(Null) ==> f.optional)
    && (f.contract.Some? && Get(attrs, f.name) != Some(Null) ==> f.contract.value(Get(attrs, f.name).value))
  }

  /** The exception `_validate_contracts` raises at field `f`, if any: a missing
      attribute is a LookupError (AttributeError), None in a field that is not
      Optional a TypeError, and a broken contract a ValueError. */
  function FieldCheck(cls: string, f: Field, attrs: seq<(string, Value)>): (r: Option<Error>)
    ensures r.None? <==> FieldValid(f, attrs)
    ensures r.Some? && r.value.LookupError? <==> !HasKey(attrs, f.name)
    ensures r.Some? && r.value.TypeError? <==> Get(attrs, f.name) == Some(Null) && !f.optional
    ensures r.Some? && r.value.ValueError? <==>
              && HasKey(attrs, f.name) && !(Get(attrs, f.name) == Some(Null) && !f.optional)
              && f.contract.Some? && Get(attrs, f.name) != Some(Null) && !f.contract.value(Get(attrs, f.name).value)
  {
    match IndexOf(attrs, f.name)
    case None => Some(LookupError("'" + cls + "' object has no attribute '" + f.name + "'"))
    case Some(k) =>
      var v := attrs[k].1;
      assert Get(attrs, f.name) == Some(v);
      if v == Null && !f.optional then Some(TypeError(f.name + " is not optional"))
      else if f.contract.Some? && v != Null && !f.contract.value(v) then
        Some(ValueError("break the contract for " + f.name + ", " + cls))
      else None
  }

  /** The first exception `_validate_contracts` raises, scanning the fields from
      position `i` in declaration order; None when it returns normally. When it
      raises, it is the exception of the first field that fails its checks. */
  function ContractFailure(cls: string, fields: seq<Field>, attrs: seq<(string, Value)>, i: nat): (r: Option<Error>)
    requires i <= |fields|
    ensures r.None? <==> forall j :: i <= j < |fields| ==> FieldValid(fields[j], attrs)
    ensures r.Some? ==> exists l :: i <= l < |fields| && (forall j :: i <= j < l ==> FieldValid(fields[j], attrs)) &&
                                    r == FieldCheck(cls, fields[l], attrs)
    decreases |fields| - i
  {
    if i == |fields| then None
    else
      match FieldCheck(cls, fields[i], attrs)
      case Some(e) => Some(e)
      case None =>
        var r := ContractFailure(cls, fields, attrs, i + 1);
        assert r.Some? ==> exists l :: i <= l < |fields| && (forall j :: i <= j < l ==> FieldValid(fields[j], attrs)) &&
                                       r == FieldCheck(cls, fields[l], attrs) by {
          if r.Some? {
            var l :| i + 1 <= l < |fields| && (forall j :: i + 1 <= j < l ==> FieldValid(fields[j], attrs)) &&
                     r == FieldCheck(cls, fields[l], attrs);
            assert forall j :: i <= j < l ==> FieldValid(fields[j], attrs);
          }
        }
        r
  }

  /** The TypeError the `__post_init__` scan of `__dict__` raises for the first
      attribute, from position `i`, that still holds the `no_default` sentinel. */
  function NoDefaultFailure(attrs: seq<(string, Value)>, i: nat): (r: Option<Error>)
    requires i <= |attrs|
    ensures r.None? <==> forall j :: i <= j < |attrs| ==> attrs[j].1 != NoDefault
    ensures r.Some? ==> r.value.TypeError?
    decreases |attrs| - i
  {
    if i == |attrs| then None
    else if attrs[i].1 == NoDefault then Some(TypeError("__init__ missing 1 required argument: '" + attrs[i].0 + "'"))
    else NoDefaultFailure(attrs, i + 1)
  }

  /** `__post_init__`: the contract checks first, then the sentinel scan. */
  function PostInitFailure(cls: string, fields: seq<Field>, attrs: seq<(string, Value)>): Option<Error> {
    match ContractFailure(cls, fields, attrs, 0)
    case Some(e) => Some(e)
    case None => NoDefaultFailure(attrs, 0)
  }

  /** An instance that construction accepts. */
  predicate Constructible(cls: string, fields: seq<Field>, attrs: seq<(string, Value)>) {
    PostInitFailure(cls, fields, attrs).None?
  }

  /** `name` is a parameter of the generated `__init__`: a field declared
      without `init=False`. */
  predicate InitParam(fields: seq<Field>, name: string) {
    exists j :: 0 <= j < |fields| && fields[j].name == name && fields[j].init
  }

  /** The TypeError the generated `__init__` raises for the first keyword
      argument, from position `i`, that names none of its parameters. */
  function UnexpectedKwarg(cls: string, fields: seq<Field>, kwargs: seq<(string, Value)>, i: nat): (r: Option<Error>)
    requires i <= |kwargs|
    ensures r.None? <==> forall j :: i <= j < |kwargs| ==> InitParam(fields, kwargs[j].0)
    ensures r.Some? ==> r.value.TypeError?
    decreases |kwargs| - i
  {
    if i == |kwargs| then None
    else if !InitParam(fields, kwargs[i].0) then
      Some(TypeError(cls + ".__init__() got an unexpected keyword argument '" + kwargs[i].0 + "'"))
    else UnexpectedKwarg(cls, fields, kwargs, i + 1)
  }

  /** `cls(**kwargs)` as `deserialize` calls it, with one keyword argument per
      declared field in declaration order: the generated `__init__` refuses an
      argument for a field declared with `init=False`, otherwise stores the
      arguments as the instance's attributes, then `__post_init__` runs. */
  function Construct(scope: string, cls: string, fields: seq<Field>, kwargs: seq<(string, Value)>): (r: Result<Value>)
    ensures r.Ok? <==> && (forall j :: 0 <= j < |kwargs| ==> InitParam(fields, kwargs[j].0))
                       && (forall j :: 0 <= j < |fields| ==> FieldValid(fields[j], kwargs))
                       && (forall j :: 0 <= j < |kwargs| ==> kwargs[j].1 != NoDefault)
    ensures (exists j :: 0 <= j < |kwargs| && !InitParam(fields, kwargs[j].0)) ==> r.Err? && r.error.TypeError?
    ensures r.Ok? ==> r.value == Entity(scope, cls, kwargs)
  {
    match UnexpectedKwarg(cls, fields, kwargs, 0)
    case Some(e) => Err(e)
    case None =>
      match PostInitFailure(cls, fields, kwargs)
      case Some(e) => Err(e)
      case None => Ok(Entity(scope, cls, kwargs))
  }
}
