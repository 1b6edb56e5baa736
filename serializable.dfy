/** The methods of the `Serializable` base class, as loops over the declared
    fields that fill the result dict key by key. Each but `ToDict` is proved
    to compute what the corresponding function of `Codec` or `Construction`
    specifies; `ToDict` states its result directly. */
module Serializable {
  import opened Results
  import opened Collections
  import opened Values
  import opened QualNames
  import opened Schema
  import opened Construction
  import opened Codec

  /** `self.serialize()`. */
  method Serialize(reg: Registry, e: Value) returns (r: Result<Value>)
    requires RegistryWF(reg) && e.Entity?
    ensures r == SerializeEntity(reg, e)
  {
    var q := (e.scope, e.name);
    if !(q in reg.symbols && reg.symbols[q].EntityClass?) {
      return Err(TypeError("need to be decorated as dataclass"));
    }
    var fields := reg.symbols[q].fields;
    var o: seq<(Value, Value)> := [];
    var i := 0;
    while i < |fields|
      invariant i <= |fields|
      invariant SerializeFields(reg, e, fields, i, o) == SerializeEntity(reg, e)
    {
      var f := fields[i];
      var k := IndexOf(e.attrs, f.name);
      ghost var here := SerializeFields(reg, e, fields, i, o);
      if k.None? {
        return Err(LookupError("'" + e.name + "' object has no attribute '" + f.name + "'"));
      }
      var value := e.attrs[k.value].1;
      if value == Null && !f.optional {
        return Err(TypeError(f.name + " is not optional"));
      }
      if f.encode.Some? {
        if f.decode.None? {
          return Err(ValueError("decode is not implemented for " + f.name + " in " + e.name));
        }
        value := f.encode.value(value);
      }
      var t := Tag(reg, value);
      if t.Err? {
        assert here == Err(t.error);
        return Err(t.error);
      }
      assert here == SerializeFields(reg, e, fields, i + 1, Put(o, Str(f.name), t.value));
      o := Put(o, Str(f.name), t.value);
      i := i + 1;
    }
    o := Put(o, Str(Meta), Str(Join(e.scope, e.name)));
    return Ok(Dict(o));
  }

  /** What `data.get(name)` finds once the marker has been popped from the copy. */
  lemma GetAfterPop(data: Value, name: string)
    requires IsDictInstance(data)
    ensures Get(Remove(data.entries, Str(Meta)), Str(name)) ==
            match FieldIndex(data, name) case Some(k) => Some(data.entries[k].1) case None => None
  {
    if name == Meta {
      assert Str(name) == Str(Meta);
    } else {
      assert Str(name) != Str(Meta);
    }
  }

  /** The value of field `f` as `deserialize` reads it, through the copy of
      `data` from which the marker has been popped, is the field's value. */
  lemma FieldValueFromPoppedCopy(reg: Registry, data: Value, cls: string, f: Field)
    requires RegistryWF(reg) && IsDictInstance(data) && FieldWF(f)
    ensures
      var present := Get(Remove(data.entries, Str(Meta)), Str(f.name));
      var value := if present.Some? then present else DefaultValue(f);
      FieldValue(reg, data, cls, f) ==
        if present.None? && f.optional then Ok(Null)
        else if value.None? then Err(ValueError("deserialized with unknown value for " + f.name + " in " + cls))
        else match Untag(reg, value.value)
          case Err(e) => Err(e)
          case Ok(u) => Ok(if f.decode.Some? then f.decode.value(u) else u)
  {
    GetAfterPop(data, f.name);
  }

  /** `cls.deserialize(data)` for the Serializable class `scope:cls`. The caller's
      dict is a value and so is never changed; the copy without the marker is `d`. */
  method Deserialize(reg: Registry, scope: string, cls: string, data: Value) returns (r: Result<Value>)
    requires RegistryWF(reg) && (scope, cls) in reg.symbols && reg.symbols[(scope, cls)].EntityClass?
    requires IsDictInstance(data)
    ensures r == DeserializeFields(reg, data, scope, cls, reg.symbols[(scope, cls)].fields, 0, [])
  {
    var d := Remove(data.entries, Str(Meta));
    var fields := reg.symbols[(scope, cls)].fields;
    var o: seq<(string, Value)> := [];
    var i := 0;
    while i < |fields|
      invariant i <= |fields|
      invariant DeserializeFields(reg, data, scope, cls, fields, i, o) ==
                DeserializeFields(reg, data, scope, cls, fields, 0, [])
    {
      var f := fields[i];
      var present := Get(d, Str(f.name));
      assert FieldWF(f);
      FieldValueFromPoppedCopy(reg, data, cls, f);
      ghost var here := DeserializeFields(reg, data, scope, cls, fields, i, o);
      if present.None? && f.optional {
        assert here == DeserializeFields(reg, data, scope, cls, fields, i + 1, Put(o, f.name, Null));
        o := Put(o, f.name, Null);
      } else {
        var value := if present.Some? then present else DefaultValue(f);
        if value.None? {
          return Err(ValueError("deserialized with unknown value for " + f.name + " in " + cls));
        }
        var u := Untag(reg, value.value);
        if u.Err? {
          assert here == Err(u.error);
          return Err(u.error);
        }
        var w := u.value;
        if f.decode.Some? {
          w := f.decode.value(w);
        }
        assert here == DeserializeFields(reg, data, scope, cls, fields, i + 1, Put(o, f.name, w));
        o := Put(o, f.name, w);
      }
      i := i + 1;
    }
    r := Construct(scope, cls, fields, o);
  }

  /** `self._validate_contracts()`: the first exception, if any. */
  method ValidateContracts(cls: string, fields: seq<Field>, attrs: seq<(string, Value)>) returns (r: Option<Error>)
    ensures r == ContractFailure(cls, fields, attrs, 0)
  {
    var i := 0;
    while i < |fields|
      invariant i <= |fields|
      invariant ContractFailure(cls, fields, attrs, i) == ContractFailure(cls, fields, attrs, 0)
    {
      var f := fields[i];
      var k := IndexOf(attrs, f.name);
      if k.None? {
        return Some(LookupError("'" + cls + "' object has no attribute '" + f.name + "'"));
      }
      var value := attrs[k.value].1;
      if value == Null && !f.optional {
        return Some(TypeError(f.name + " is not optional"));
      }
      if f.contract.Some? && value != Null && !f.contract.value(value) {
        return Some(ValueError("break the contract for " + f.name + ", " + cls));
      }
      i := i + 1;
    }
    return None;
  }

  /** `self.__post_init__()`: the contract checks, then the scan of `__dict__`
      for an attribute left at the `no_default` sentinel. */
  method PostInit(cls: string, fields: seq<Field>, attrs: seq<(string, Value)>) returns (r: Option<Error>)
    ensures r == PostInitFailure(cls, fields, attrs)
    ensures r.None? <==> (forall j :: 0 <= j < |fields| ==> FieldValid(fields[j], attrs)) &&
                         (forall j :: 0 <= j < |attrs| ==> attrs[j].1 != NoDefault)
  {
    r := ValidateContracts(cls, fields, attrs);
    if r.Some? {
      return;
    }
    var i := 0;
    while i < |attrs|
      invariant i <= |attrs|
      invariant NoDefaultFailure(attrs, i) == NoDefaultFailure(attrs, 0)
    {
      if attrs[i].1 == NoDefault {
        return Some(TypeError("__init__ missing 1 required argument: '" + attrs[i].0 + "'"));
      }
      i := i + 1;
    }
    return None;
  }

  /** `self.to_dict()`: one entry per declared field, in declaration order,
      keyed by its name and holding the attribute's value unchanged; a missing
      attribute is an error. */
  method ToDict(fields: seq<Field>, attrs: seq<(string, Value)>) returns (r: Result<seq<(Value, Value)>>)
    requires UniqueNames(fields)
    ensures r.Ok? <==> forall j :: 0 <= j < |fields| ==> HasKey(attrs, fields[j].name)
    ensures r.Err? ==> r.error.LookupError?
    ensures r.Ok? ==> |r.value| == |fields|
    ensures r.Ok? ==> forall j :: 0 <= j < |fields| ==>
              r.value[j].0 == Str(fields[j].name) && Get(attrs, fields[j].name) == Some(r.value[j].1)
  {
    var o: seq<(Value, Value)> := [];
    var i := 0;
    while i < |fields|
      invariant i <= |fields| && |o| == i
      invariant forall j :: 0 <= j < i ==> HasKey(attrs, fields[j].name)
      invariant forall j :: 0 <= j < i ==> o[j].0 == Str(fields[j].name) && Get(attrs, fields[j].name) == Some(o[j].1)
    {
      var f := fields[i];
      var v := Get(attrs, f.name);
      if v.None? {
        assert !HasKey(attrs, fields[i].name);
        return Err(LookupError("object has no attribute '" + f.name + "'"));
      }
      assert !HasKey(o, Str(f.name));
      // `o[field.name] = ...` on a key not yet present appends it
      assert Put(o, Str(f.name), v.value) == o + [(Str(f.name), v.value)];
      o := o + [(Str(f.name), v.value)];
      i := i + 1;
    }
    return Ok(o);
  }

  /** `self.validate()`, the JSON text round trip taken as the identity. */
  method Validate(reg: Registry, e: Value) returns (r: Option<Error>)
    requires RegistryWF(reg) && e.Entity?
    ensures r == ValidateFailure(reg, e)
  {
    var q := (e.scope, e.name);
    if !(q in reg.symbols && reg.symbols[q].EntityClass?) {
      return Some(TypeError("must be called with a dataclass type or instance"));
    }
    r := ValidateContracts(e.name, reg.symbols[q].fields, e.attrs);
    if r.Some? {
      return;
    }
    var blob := Serialize(reg, e);
    if blob.Err? {
      return Some(blob.error);
    }
    var back := Deserialize(reg, e.scope, e.name, blob.value);
    if back.Err? {
      return Some(back.error);
    }
    if !SameFields(reg.symbols[q].fields, back.value, e) {
      return Some(ValueError("could not be deserialized with same value"));
    }
    return None;
  }
}
