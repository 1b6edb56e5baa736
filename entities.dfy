/** Laws of entity serialization and deserialization, stated field by field:
    the loops over the declared fields are related to per-field rules that say
    what each field contributes or which exception it raises. */
module EntityLaws {
  import opened Results
  import opened Collections
  import opened Values
  import opened QualNames
  import opened Schema
  import opened Construction
  import opened Codec
  import opened Serializable

  /** `scope:name` is a Serializable dataclass of the registry. */
  predicate Declared(reg: Registry, scope: string, name: string) {
    (scope, name) in reg.symbols && reg.symbols[(scope, name)].EntityClass?
  }

  // ------------------------------------------------------------- serialize

  /** The serialize loop run over the outcomes `bs` of its fields, in order:
      the first failure is raised, each success is stored under the field's
      name, and the marker comes last. */
  function SerializeRun(e: Value, fs: seq<Field>, bs: seq<Result<Value>>, i: nat, o: seq<(Value, Value)>): Result<Value>
    requires e.Entity? && |bs| == |fs| && i <= |fs|
    decreases |fs| - i
  {
    if i == |fs| then Ok(Dict(Put(o, Str(Meta), Str(Join(e.scope, e.name)))))
    else if bs[i].Err? then Err(bs[i].error)
    else SerializeRun(e, fs, bs, i + 1, Put(o, Str(fs[i].name), bs[i].value))
  }

  /** What each field of `e` contributes, or the exception it raises. */
  function Blobs(reg: Registry, e: Value, fs: seq<Field>): (r: seq<Result<Value>>)
    requires RegistryWF(reg) && e.Entity? && FieldsWF(fs)
    ensures |r| == |fs| && forall j :: 0 <= j < |fs| ==> r[j] == FieldBlob(reg, e, fs[j])
  {
    seq(|fs|, j requires 0 <= j < |fs| => FieldBlob(reg, e, fs[j]))
  }

  /** The serialize loop is the run over the fields' contributions. */
  lemma {:induction false} SerializeFieldsAsRun(reg: Registry, e: Value, fs: seq<Field>, i: nat, o: seq<(Value, Value)>)
    requires RegistryWF(reg) && e.Entity? && FieldsWF(fs) && i <= |fs|
    ensures SerializeFields(reg, e, fs, i, o) == SerializeRun(e, fs, Blobs(reg, e, fs), i, o)
    decreases |fs| - i
  {
    if i < |fs| && FieldBlob(reg, e, fs[i]).Ok? {
      SerializeFieldsAsRun(reg, e, fs, i + 1, Put(o, Str(fs[i].name), FieldBlob(reg, e, fs[i]).value));
    }
  }

  /** The run from field `i` succeeds exactly when every remaining field does. */
  lemma {:induction false} SerializeRunOk(e: Value, fs: seq<Field>, bs: seq<Result<Value>>, i: nat, o: seq<(Value, Value)>)
    requires e.Entity? && |bs| == |fs| && i <= |fs|
    ensures SerializeRun(e, fs, bs, i, o).Ok? <==> forall j :: i <= j < |fs| ==> bs[j].Ok?
    decreases |fs| - i
  {
    if i < |fs| && bs[i].Ok? {
      SerializeRunOk(e, fs, bs, i + 1, Put(o, Str(fs[i].name), bs[i].value));
    }
  }

  /** The run raises the exception of the first field that fails. */
  lemma {:induction false} SerializeRunFirstError(e: Value, fs: seq<Field>, bs: seq<Result<Value>>, i: nat, o: seq<(Value, Value)>, l: nat)
    requires e.Entity? && |bs| == |fs| && i <= l < |fs|
    requires bs[l].Err? && forall j :: i <= j < l ==> bs[j].Ok?
    ensures SerializeRun(e, fs, bs, i, o) == Err(bs[l].error)
    decreases |fs| - i
  {
    if i < l {
      SerializeRunFirstError(e, fs, bs, i + 1, Put(o, Str(fs[i].name), bs[i].value), l);
    }
  }

  /** The dict keys the fields of a class serialize under, in declaration order. */
  function NameKeys(fs: seq<Field>): (ks: seq<Value>)
    ensures |ks| == |fs| && forall j :: 0 <= j < |fs| ==> ks[j] == Str(fs[j].name)
  {
    seq(|fs|, j requires 0 <= j < |fs| => Str(fs[j].name))
  }

  /** A successful run from field `i` holds key `k` exactly when `k` is the
      marker, a key of `o` or the name of a remaining field. */
  lemma {:induction false} SerializeRunHasKey(e: Value, fs: seq<Field>, bs: seq<Result<Value>>, i: nat, o: seq<(Value, Value)>, k: Value)
    requires e.Entity? && |bs| == |fs| && i <= |fs|
    requires forall j :: i <= j < |fs| ==> bs[j].Ok?
    ensures SerializeRun(e, fs, bs, i, o).Ok? && SerializeRun(e, fs, bs, i, o).value.Dict?
    ensures HasKey(SerializeRun(e, fs, bs, i, o).value.entries, k) <==>
              k == Str(Meta) || HasKey(o, k) || k in NameKeys(fs)[i..]
    decreases |fs| - i
  {
    if i == |fs| {
      PutHasKey(o, Str(Meta), Str(Join(e.scope, e.name)), k);
      assert NameKeys(fs)[i..] == [];
    } else {
      var o' := Put(o, Str(fs[i].name), bs[i].value);
      assert SerializeRun(e, fs, bs, i, o) == SerializeRun(e, fs, bs, i + 1, o');
      SerializeRunHasKey(e, fs, bs, i + 1, o', k);
      PutHasKey(o, Str(fs[i].name), bs[i].value, k);
      assert NameKeys(fs)[i..] == [Str(fs[i].name)] + NameKeys(fs)[i + 1..];
    }
  }

  /** A successful run keeps the keys of the dict it builds distinct. */
  lemma {:induction false} SerializeRunDistinct(e: Value, fs: seq<Field>, bs: seq<Result<Value>>, i: nat, o: seq<(Value, Value)>)
    requires e.Entity? && |bs| == |fs| && i <= |fs| && DistinctKeys(o)
    requires forall j :: i <= j < |fs| ==> bs[j].Ok?
    ensures SerializeRun(e, fs, bs, i, o).Ok? && SerializeRun(e, fs, bs, i, o).value.Dict?
    ensures DistinctKeys(SerializeRun(e, fs, bs, i, o).value.entries)
    decreases |fs| - i
  {
    if i == |fs| {
      PutLaws(o, Str(Meta), Str(Join(e.scope, e.name)));
    } else {
      PutLaws(o, Str(fs[i].name), bs[i].value);
      SerializeRunDistinct(e, fs, bs, i + 1, Put(o, Str(fs[i].name), bs[i].value));
    }
  }

  /** A successful run stores `"<module>:<name>"` under the marker. */
  lemma {:induction false} SerializeRunGetMeta(e: Value, fs: seq<Field>, bs: seq<Result<Value>>, i: nat, o: seq<(Value, Value)>)
    requires e.Entity? && |bs| == |fs| && i <= |fs|
    requires forall j :: i <= j < |fs| ==> bs[j].Ok?
    ensures SerializeRun(e, fs, bs, i, o).Ok? && SerializeRun(e, fs, bs, i, o).value.Dict?
    ensures Get(SerializeRun(e, fs, bs, i, o).value.entries, Str(Meta)) == Some(Str(Join(e.scope, e.name)))
    decreases |fs| - i
  {
    if i == |fs| {
      PutGet(o, Str(Meta), Str(Join(e.scope, e.name)), Str(Meta));
    } else {
      SerializeRunGetMeta(e, fs, bs, i + 1, Put(o, Str(fs[i].name), bs[i].value));
    }
  }

  /** A successful run leaves the value of a key that is neither the marker nor
      the name of a remaining field as `o` holds it. */
  lemma {:induction false} SerializeRunGetOther(e: Value, fs: seq<Field>, bs: seq<Result<Value>>, i: nat, o: seq<(Value, Value)>, k: Value)
    requires e.Entity? && |bs| == |fs| && i <= |fs|
    requires forall j :: i <= j < |fs| ==> bs[j].Ok?
    requires k != Str(Meta) && k !in NameKeys(fs)[i..]
    ensures SerializeRun(e, fs, bs, i, o).Ok? && SerializeRun(e, fs, bs, i, o).value.Dict?
    ensures Get(SerializeRun(e, fs, bs, i, o).value.entries, k) == Get(o, k)
    decreases |fs| - i
  {
    if i == |fs| {
      PutGet(o, Str(Meta), Str(Join(e.scope, e.name)), k);
    } else {
      var o' := Put(o, Str(fs[i].name), bs[i].value);
      assert NameKeys(fs)[i..] == [Str(fs[i].name)] + NameKeys(fs)[i + 1..];
      assert SerializeRun(e, fs, bs, i, o) == SerializeRun(e, fs, bs, i + 1, o');
      SerializeRunGetOther(e, fs, bs, i + 1, o', k);
      PutGet(o, Str(fs[i].name), bs[i].value, k);
    }
  }

  /** A successful run stores the contribution of each remaining field, whose
      name is not the marker, under that name. */
  lemma {:induction false} SerializeRunGetField(e: Value, fs: seq<Field>, bs: seq<Result<Value>>, i: nat, o: seq<(Value, Value)>, j: nat)
    requires e.Entity? && |bs| == |fs| && i <= j < |fs| && UniqueNames(fs)
    requires forall n :: i <= n < |fs| ==> bs[n].Ok?
    requires fs[j].name != Meta
    ensures SerializeRun(e, fs, bs, i, o).Ok? && SerializeRun(e, fs, bs, i, o).value.Dict?
    ensures Get(SerializeRun(e, fs, bs, i, o).value.entries, Str(fs[j].name)) == Some(bs[j].value)
    decreases |fs| - i
  {
    var o' := Put(o, Str(fs[i].name), bs[i].value);
    assert SerializeRun(e, fs, bs, i, o) == SerializeRun(e, fs, bs, i + 1, o');
    if j == i {
      assert Str(fs[i].name) !in NameKeys(fs)[i + 1..];
      SerializeRunGetOther(e, fs, bs, i + 1, o', Str(fs[i].name));
      PutGet(o, Str(fs[i].name), bs[i].value, Str(fs[i].name));
    } else {
      SerializeRunGetField(e, fs, bs, i + 1, o', j);
    }
  }

  /** What one field contributes to `serialize`, case by case: a missing
      attribute raises AttributeError (a LookupError), None in a field that is
      not Optional a TypeError, an encode hook without a decode hook a
      ValueError; otherwise the attribute, encoded when there is a hook, is
      tagged. */
  lemma FieldBlobOutcome(reg: Registry, e: Value, f: Field)
    requires RegistryWF(reg) && e.Entity? && FieldWF(f)
    ensures !HasKey(e.attrs, f.name) ==>
              FieldBlob(reg, e, f) == Err(LookupError("'" + e.name + "' object has no attribute '" + f.name + "'"))
    ensures Get(e.attrs, f.name) == Some(Null) && !f.optional ==>
              FieldBlob(reg, e, f) == Err(TypeError(f.name + " is not optional"))
    ensures HasKey(e.attrs, f.name) && !(Get(e.attrs, f.name) == Some(Null) && !f.optional) &&
            f.encode.Some? && f.decode.None? ==>
              FieldBlob(reg, e, f) == Err(ValueError("decode is not implemented for " + f.name + " in " + e.name))
    ensures HasKey(e.attrs, f.name) && !(Get(e.attrs, f.name) == Some(Null) && !f.optional) &&
            !(f.encode.Some? && f.decode.None?) ==>
              FieldBlob(reg, e, f) == Tag(reg, Encoded(f, Get(e.attrs, f.name).value))
  {
  }

  /** The exception `serialize` raises when field `l` is the first to fail,
      by the case that makes it fail. */
  lemma SerializeEntityError(reg: Registry, e: Value, l: nat)
    requires RegistryWF(reg) && e.Entity? && Declared(reg, e.scope, e.name)
    requires var fs := reg.symbols[(e.scope, e.name)].fields;
             l < |fs| && forall j :: 0 <= j < l ==> FieldBlob(reg, e, fs[j]).Ok?
    ensures var f := reg.symbols[(e.scope, e.name)].fields[l];
            var x := Get(e.attrs, f.name);
            && (!HasKey(e.attrs, f.name) ==>
                  SerializeEntity(reg, e) == Err(LookupError("'" + e.name + "' object has no attribute '" + f.name + "'")))
            && (x == Some(Null) && !f.optional ==>
                  SerializeEntity(reg, e) == Err(TypeError(f.name + " is not optional")))
            && (x.Some? && !(x == Some(Null) && !f.optional) && f.encode.Some? && f.decode.None? ==>
                  SerializeEntity(reg, e) == Err(ValueError("decode is not implemented for " + f.name + " in " + e.name)))
            && (x.Some? && !(x == Some(Null) && !f.optional) && !(f.encode.Some? && f.decode.None?) &&
                Tag(reg, Encoded(f, x.value)).Err? ==>
                  SerializeEntity(reg, e) == Err(Tag(reg, Encoded(f, x.value)).error))
  {
    var fs := reg.symbols[(e.scope, e.name)].fields;
    assert FieldWF(fs[l]);
    FieldBlobOutcome(reg, e, fs[l]);
    SerializeEntityOutcome(reg, e);
  }

  /** `serialize` on an instance: a class that is not a registered dataclass
      raises TypeError; otherwise it succeeds exactly when every declared field
      does, and raises the exception of the first field that fails. */
  lemma SerializeEntityOutcome(reg: Registry, e: Value)
    requires RegistryWF(reg) && e.Entity?
    ensures !Declared(reg, e.scope, e.name) ==> SerializeEntity(reg, e) == Err(TypeError("need to be decorated as dataclass"))
    ensures Declared(reg, e.scope, e.name) ==>
              var fs := reg.symbols[(e.scope, e.name)].fields;
              && (SerializeEntity(reg, e).Ok? <==> forall j :: 0 <= j < |fs| ==> FieldBlob(reg, e, fs[j]).Ok?)
              && (forall l :: 0 <= l < |fs| && FieldBlob(reg, e, fs[l]).Err? &&
                              (forall j :: 0 <= j < l ==> FieldBlob(reg, e, fs[j]).Ok?) ==>
                    SerializeEntity(reg, e) == Err(FieldBlob(reg, e, fs[l]).error))
  {
    if Declared(reg, e.scope, e.name) {
      var fs := reg.symbols[(e.scope, e.name)].fields;
      var bs := Blobs(reg, e, fs);
      assert SerializeEntity(reg, e) == SerializeFields(reg, e, fs, 0, []);
      SerializeFieldsAsRun(reg, e, fs, 0, []);
      SerializeRunOk(e, fs, bs, 0, []);
      forall l | 0 <= l < |fs| && FieldBlob(reg, e, fs[l]).Err? && (forall j :: 0 <= j < l ==> FieldBlob(reg, e, fs[j]).Ok?)
        ensures SerializeEntity(reg, e) == Err(FieldBlob(reg, e, fs[l]).error)
      {
        SerializeRunFirstError(e, fs, bs, 0, [], l);
      }
    }
  }

  /** What `serialize` yields for an instance whose fields all succeed: a dict
      with one key per declared field, holding what that field contributes,
      the marker key holding `"<module>:<name>"`, and no other key. */
  lemma SerializeEntityShape(reg: Registry, e: Value)
    requires RegistryWF(reg) && e.Entity? && Declared(reg, e.scope, e.name)
    requires var fs := reg.symbols[(e.scope, e.name)].fields;
             forall j :: 0 <= j < |fs| ==> FieldBlob(reg, e, fs[j]).Ok?
    ensures SerializeEntity(reg, e).Ok?
    ensures var fs := reg.symbols[(e.scope, e.name)].fields;
            var b := SerializeEntity(reg, e).value;
            && b.Dict? && DistinctKeys(b.entries)
            && Get(b.entries, Str(Meta)) == Some(Str(Join(e.scope, e.name)))
            && (forall j :: 0 <= j < |fs| && fs[j].name != Meta ==>
                  Get(b.entries, Str(fs[j].name)) == Some(FieldBlob(reg, e, fs[j]).value))
            && (forall k :: HasKey(b.entries, k) <==>
                  k == Str(Meta) || k in NameKeys(fs))
  {
    var fs := reg.symbols[(e.scope, e.name)].fields;
    var bs := Blobs(reg, e, fs);
    assert SerializeEntity(reg, e) == SerializeFields(reg, e, fs, 0, []);
    SerializeFieldsAsRun(reg, e, fs, 0, []);
    SerializeRunDistinct(e, fs, bs, 0, []);
    assert NameKeys(fs)[0..] == NameKeys(fs);
    forall k ensures HasKey(SerializeEntity(reg, e).value.entries, k) <==> k == Str(Meta) || k in NameKeys(fs) {
      SerializeRunHasKey(e, fs, bs, 0, [], k);
    }
    SerializeRunGetMeta(e, fs, bs, 0, []);
    forall j | 0 <= j < |fs| && fs[j].name != Meta
      ensures Get(SerializeEntity(reg, e).value.entries, Str(fs[j].name)) == Some(FieldBlob(reg, e, fs[j]).value)
    {
      SerializeRunGetField(e, fs, bs, 0, [], j);
    }
  }

  // ----------------------------------------------------------- deserialize

  /** The deserialize loop run over the outcomes `vs` of its fields, in order:
      the first failure is raised, each value is stored under the field's
      name, and the instance is constructed from them. */
  function DeserializeRun(scope: string, cls: string, fs: seq<Field>, vs: seq<Result<Value>>, i: nat, o: seq<(string, Value)>): Result<Value>
    requires |vs| == |fs| && i <= |fs|
    decreases |fs| - i
  {
    if i == |fs| then Construct(scope, cls, fs, o)
    else if vs[i].Err? then Err(vs[i].error)
    else DeserializeRun(scope, cls, fs, vs, i + 1, Put(o, fs[i].name, vs[i].value))
  }

  /** The value each field of `cls` gets from `data`, or the exception it raises. */
  function Outcomes(reg: Registry, data: Value, cls: string, fs: seq<Field>): (r: seq<Result<Value>>)
    requires RegistryWF(reg) && IsDictInstance(data) && FieldsWF(fs)
    ensures |r| == |fs| && forall j :: 0 <= j < |fs| ==> r[j] == FieldValue(reg, data, cls, fs[j])
  {
    seq(|fs|, j requires 0 <= j < |fs| => FieldValue(reg, data, cls, fs[j]))
  }

  /** The deserialize loop is the run over the fields' values. */
  lemma {:induction false} DeserializeFieldsAsRun(reg: Registry, data: Value, scope: string, cls: string,
                                                  fs: seq<Field>, i: nat, o: seq<(string, Value)>)
    requires RegistryWF(reg) && IsDictInstance(data) && FieldsWF(fs) && i <= |fs|
    ensures DeserializeFields(reg, data, scope, cls, fs, i, o) == DeserializeRun(scope, cls, fs, Outcomes(reg, data, cls, fs), i, o)
    decreases |fs| - i
  {
    if i < |fs| && FieldValue(reg, data, cls, fs[i]).Ok? {
      DeserializeFieldsAsRun(reg, data, scope, cls, fs, i + 1, Put(o, fs[i].name, FieldValue(reg, data, cls, fs[i]).value));
    }
  }

  /** The keyword arguments for the first `n` fields, each with its value. */
  function Args(fs: seq<Field>, vs: seq<Result<Value>>, n: nat): (r: seq<(string, Value)>)
    requires |vs| == |fs| && n <= |fs| && forall j :: 0 <= j < n ==> vs[j].Ok?
    ensures |r| == n && forall j :: 0 <= j < n ==> r[j] == (fs[j].name, vs[j].value)
  {
    seq(n, j requires 0 <= j < n => (fs[j].name, vs[j].value))
  }

  /** A run from field `i` whose arguments so far are those of the earlier
      fields constructs the instance from the values of all fields, when every
      field has one. */
  lemma {:induction false} DeserializeRunOk(scope: string, cls: string, fs: seq<Field>, vs: seq<Result<Value>>,
                                            i: nat, o: seq<(string, Value)>)
    requires |vs| == |fs| && i <= |fs| && UniqueNames(fs)
    requires forall j :: 0 <= j < |fs| ==> vs[j].Ok?
    requires o == Args(fs, vs, i)
    ensures DeserializeRun(scope, cls, fs, vs, i, o) == Construct(scope, cls, fs, Args(fs, vs, |fs|))
    decreases |fs| - i
  {
    if i < |fs| {
      var f := fs[i];
      var w := vs[i].value;
      assert !HasKey(o, f.name) by {
        forall j | 0 <= j < |o| ensures o[j].0 != f.name {
          assert o[j].0 == fs[j].name;
        }
      }
      PutLaws(o, f.name, w);
      assert o + [(f.name, w)] == Args(fs, vs, i + 1);
      DeserializeRunOk(scope, cls, fs, vs, i + 1, Put(o, f.name, w));
    }
  }

  /** The run raises the exception of the first field without a value. */
  lemma {:induction false} DeserializeRunFirstError(scope: string, cls: string, fs: seq<Field>, vs: seq<Result<Value>>,
                                                    i: nat, o: seq<(string, Value)>, l: nat)
    requires |vs| == |fs| && i <= l < |fs|
    requires vs[l].Err? && forall j :: i <= j < l ==> vs[j].Ok?
    ensures DeserializeRun(scope, cls, fs, vs, i, o) == Err(vs[l].error)
    decreases |fs| - i
  {
    if i < l {
      DeserializeRunFirstError(scope, cls, fs, vs, i + 1, Put(o, fs[i].name, vs[i].value), l);
    }
  }

  /** The keyword arguments `deserialize` passes when every field has a value. */
  function Kwargs(reg: Registry, data: Value, cls: string, fs: seq<Field>): (r: seq<(string, Value)>)
    requires RegistryWF(reg) && IsDictInstance(data) && FieldsWF(fs)
    requires forall j :: 0 <= j < |fs| ==> FieldValue(reg, data, cls, fs[j]).Ok?
    ensures |r| == |fs|
    ensures forall j :: 0 <= j < |fs| ==> r[j] == (fs[j].name, FieldValue(reg, data, cls, fs[j]).value)
  {
    Args(fs, Outcomes(reg, data, cls, fs), |fs|)
  }

  /** `cls.deserialize(data)` for a registered dataclass: when every field has
      a value, the instance is constructed from exactly those values, in
      declaration order; otherwise the exception of the first field without
      one is raised. */
  lemma DeserializeLaw(reg: Registry, scope: string, cls: string, data: Value)
    requires RegistryWF(reg) && Declared(reg, scope, cls) && IsDictInstance(data)
    ensures var fs := reg.symbols[(scope, cls)].fields;
            && ((forall j :: 0 <= j < |fs| ==> FieldValue(reg, data, cls, fs[j]).Ok?) ==>
                  DeserializeFields(reg, data, scope, cls, fs, 0, []) == Construct(scope, cls, fs, Kwargs(reg, data, cls, fs)))
            && (forall l :: 0 <= l < |fs| && FieldValue(reg, data, cls, fs[l]).Err? &&
                            (forall j :: 0 <= j < l ==> FieldValue(reg, data, cls, fs[j]).Ok?) ==>
                  DeserializeFields(reg, data, scope, cls, fs, 0, []) == Err(FieldValue(reg, data, cls, fs[l]).error))
  {
    var fs := reg.symbols[(scope, cls)].fields;
    var vs := Outcomes(reg, data, cls, fs);
    DeserializeFieldsAsRun(reg, data, scope, cls, fs, 0, []);
    if forall j :: 0 <= j < |fs| ==> FieldValue(reg, data, cls, fs[j]).Ok? {
      assert [] == Args(fs, vs, 0);
      DeserializeRunOk(scope, cls, fs, vs, 0, []);
    }
    forall l | 0 <= l < |fs| && FieldValue(reg, data, cls, fs[l]).Err? &&
               (forall j :: 0 <= j < l ==> FieldValue(reg, data, cls, fs[j]).Ok?)
      ensures DeserializeFields(reg, data, scope, cls, fs, 0, []) == Err(FieldValue(reg, data, cls, fs[l]).error)
    {
      DeserializeRunFirstError(scope, cls, fs, vs, 0, [], l);
    }
  }

  /** Deserialization reads a dict only through the declared field names: two
      dicts that agree on those keys (the marker aside) deserialize alike. */
  lemma UnknownKeysIgnored(reg: Registry, x: Value, y: Value, scope: string, cls: string,
                           fs: seq<Field>, i: nat, o: seq<(string, Value)>)
    requires RegistryWF(reg) && IsDictInstance(x) && IsDictInstance(y) && FieldsWF(fs) && i <= |fs|
    requires forall j :: 0 <= j < |fs| ==>
               Get(Remove(x.entries, Str(Meta)), Str(fs[j].name)) == Get(Remove(y.entries, Str(Meta)), Str(fs[j].name))
    ensures DeserializeFields(reg, x, scope, cls, fs, i, o) == DeserializeFields(reg, y, scope, cls, fs, i, o)
  {
    forall j | 0 <= j < |fs| ensures FieldValue(reg, x, cls, fs[j]) == FieldValue(reg, y, cls, fs[j]) {
      FieldValueFromPoppedCopy(reg, x, cls, fs[j]);
      FieldValueFromPoppedCopy(reg, y, cls, fs[j]);
    }
    assert Outcomes(reg, x, cls, fs) == Outcomes(reg, y, cls, fs);
    DeserializeFieldsAsRun(reg, x, scope, cls, fs, i, o);
    DeserializeFieldsAsRun(reg, y, scope, cls, fs, i, o);
  }

  /** A key that names no declared field can be added to the data without
      changing what deserialization gives. */
  lemma UndeclaredKeyIgnored(reg: Registry, scope: string, cls: string, es: seq<(Value, Value)>, k: Value, v: Value)
    requires RegistryWF(reg) && Declared(reg, scope, cls) && !HasKey(es, k)
    requires forall j :: 0 <= j < |reg.symbols[(scope, cls)].fields| ==> k != Str(reg.symbols[(scope, cls)].fields[j].name)
    ensures var fs := reg.symbols[(scope, cls)].fields;
            DeserializeFields(reg, Dict(es + [(k, v)]), scope, cls, fs, 0, []) ==
            DeserializeFields(reg, Dict(es), scope, cls, fs, 0, [])
  {
    var fs := reg.symbols[(scope, cls)].fields;
    forall j | 0 <= j < |fs|
      ensures Get(Remove(es + [(k, v)], Str(Meta)), Str(fs[j].name)) == Get(Remove(es, Str(Meta)), Str(fs[j].name))
    {
      if fs[j].name != Meta {
        IndexOfAppend(es, k, v, Str(fs[j].name));
        assert Str(fs[j].name) != Str(Meta);
      } else {
        assert Str(fs[j].name) == Str(Meta);
      }
    }
    UnknownKeysIgnored(reg, Dict(es + [(k, v)]), Dict(es), scope, cls, fs, 0, []);
  }

  /** A dataclass declaring a field with `init=False` never deserializes:
      `deserialize` passes every declared field to `cls(**o)`, and the
      generated `__init__` refuses that one with a TypeError, unless an
      earlier field has already raised. */
  lemma InitFalseFieldRefused(reg: Registry, scope: string, cls: string, data: Value, l: nat)
    requires RegistryWF(reg) && Declared(reg, scope, cls) && IsDictInstance(data)
    requires var fs := reg.symbols[(scope, cls)].fields; l < |fs| && !fs[l].init
    ensures var fs := reg.symbols[(scope, cls)].fields;
            var r := DeserializeFields(reg, data, scope, cls, fs, 0, []);
            && r.Err?
            && ((forall j :: 0 <= j < |fs| ==> FieldValue(reg, data, cls, fs[j]).Ok?) ==> r.error.TypeError?)
  {
    var fs := reg.symbols[(scope, cls)].fields;
    assert FieldsWF(fs);
    DeserializeLaw(reg, scope, cls, data);
    if forall j :: 0 <= j < |fs| ==> FieldValue(reg, data, cls, fs[j]).Ok? {
      var kw := Kwargs(reg, data, cls, fs);
      assert kw[l].0 == fs[l].name;
      assert !InitParam(fs, kw[l].0) by {
        assert forall j :: 0 <= j < |fs| && fs[j].name == fs[l].name ==> j == l;
      }
      assert DeserializeFields(reg, data, scope, cls, fs, 0, []) == Construct(scope, cls, fs, kw);
    } else {
      var k :| 0 <= k < |fs| && FieldValue(reg, data, cls, fs[k]).Err?;
      FirstErr(reg, data, cls, fs, k);
      var l' :| 0 <= l' < |fs| && FieldValue(reg, data, cls, fs[l']).Err? &&
                forall j :: 0 <= j < l' ==> FieldValue(reg, data, cls, fs[j]).Ok?;
      assert DeserializeFields(reg, data, scope, cls, fs, 0, []) == Err(FieldValue(reg, data, cls, fs[l']).error);
    }
  }

  /** Some field is the first whose value cannot be found, when one cannot. */
  lemma {:induction false} FirstErr(reg: Registry, data: Value, cls: string, fs: seq<Field>, k: nat)
    requires RegistryWF(reg) && IsDictInstance(data) && FieldsWF(fs)
    requires k < |fs| && FieldValue(reg, data, cls, fs[k]).Err?
    ensures exists l :: 0 <= l < |fs| && FieldValue(reg, data, cls, fs[l]).Err? &&
                        forall j :: 0 <= j < l ==> FieldValue(reg, data, cls, fs[j]).Ok?
    decreases k
  {
    if exists j :: 0 <= j < k && FieldValue(reg, data, cls, fs[j]).Err? {
      var j :| 0 <= j < k && FieldValue(reg, data, cls, fs[j]).Err?;
      FirstErr(reg, data, cls, fs, j);
    }
  }
}
