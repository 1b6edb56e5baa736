/** The recursive tagging engine: `_serialize` (Tag) with the entity
    serialization it delegates to, and `_deserialize` (Untag) with the entity
    deserialization it dispatches to through the registry. */
module Codec {
  import opened Results
  import opened Collections
  import opened Values
  import opened Dates
  import opened QualNames
  import opened Schema
  import opened Construction

  // ---------------------------------------------------------------- tagging

  /** `_serialize(v)`: first-match dispatch on the kind of `v`. The only failures
      come from serializing a nested Serializable instance. */
  function Tag(reg: Registry, v: Value): (r: Result<Value>)
    requires RegistryWF(reg)
    ensures NoEntityToTag(v) ==> r.Ok?
    decreases if NoEntityToTag(v) then 0 else 1, v, 2, 0
  {
    if v.ODict? then Ok(Marked("OrderedDict", List(PairLists(v.entries))))
    else if IsDictInstance(v) then
      var es :- TagEntries(reg, v, 0);
      Ok(Dict(es))
    else if v.List? then
      var xs :- TagItems(reg, v, 0);
      Ok(List(xs))
    else if v.Tuple? then
      var xs :- TagItems(reg, v, 0);
      Ok(Marked("tuple", List(xs)))
    else if v.Set? then Ok(Marked("set", List(v.items)))
    else if v.Entity? then SerializeEntity(reg, v)
    else if v.TypeRef? then Ok(Marked("type", Str(Join(v.scope, v.name))))
    else if v.FuncRef? then Ok(Marked("function", Str(Join(v.scope, v.name))))
    else if v.ModuleRef? then Ok(Marked("module", Str(v.scope)))
    else if v.DateTime? then Ok(Marked("datetime", Str(v.iso)))
    else if IsDateInstance(v) then Ok(Marked("date", Str(FormatDate(v.year, v.month, v.day))))
    else if v.Decimal? then Ok(Marked("Decimal", Str(v.text)))
    else Ok(v)
  }

  /** `[list(xi) for xi in x.items()]`: each entry as a two-element list, neither part tagged. */
  function PairLists(es: seq<(Value, Value)>): (r: seq<Value>)
    ensures |r| == |es|
    ensures forall i :: 0 <= i < |es| ==> r[i] == List([es[i].0, es[i].1])
  {
    seq(|es|, i requires 0 <= i < |es| => List([es[i].0, es[i].1]))
  }

  /** `[_serialize(xi) for xi in x]` over the elements of a list or tuple from position `i`. */
  function TagItems(reg: Registry, v: Value, i: nat): (r: Result<seq<Value>>)
    requires RegistryWF(reg) && (v.List? || v.Tuple?) && i <= |v.items|
    ensures r.Ok? <==> forall j :: i <= j < |v.items| ==> Tag(reg, v.items[j]).Ok?
    ensures r.Ok? ==> |r.value| == |v.items| - i
    ensures r.Ok? ==> forall j :: i <= j < |v.items| ==> Tag(reg, v.items[j]) == Ok(r.value[j - i])
    decreases if NoEntityToTag(v) then 0 else 1, v, 1, |v.items| - i
  {
    if i == |v.items| then Ok([])
    else
      var h :- Tag(reg, v.items[i]);
      var t :- TagItems(reg, v, i + 1);
      Ok([h] + t)
  }

  /** `{k: _serialize(v) for k, v in x.items()}` over the entries of a plain dict from position `i`. */
  function TagEntries(reg: Registry, v: Value, i: nat): (r: Result<seq<(Value, Value)>>)
    requires RegistryWF(reg) && v.Dict? && i <= |v.entries|
    ensures r.Ok? <==> forall j :: i <= j < |v.entries| ==> Tag(reg, v.entries[j].1).Ok?
    ensures r.Ok? ==> |r.value| == |v.entries| - i
    ensures r.Ok? ==> forall j :: i <= j < |v.entries| ==>
              r.value[j - i].0 == v.entries[j].0 && Tag(reg, v.entries[j].1) == Ok(r.value[j - i].1)
    decreases if NoEntityToTag(v) then 0 else 1, v, 1, |v.entries| - i
  {
    if i == |v.entries| then Ok([])
    else
      var h :- Tag(reg, v.entries[i].1);
      var t :- TagEntries(reg, v, i + 1);
      Ok([(v.entries[i].0, h)] + t)
  }

  /** `x.serialize()` for a Serializable instance: a class that is not a
      registered dataclass raises TypeError, otherwise its fields are serialized. */
  function SerializeEntity(reg: Registry, v: Value): (r: Result<Value>)
    requires RegistryWF(reg) && v.Entity?
    ensures r.Ok? ==> r.value.Dict?
    decreases 1, v, 1, 0
  {
    var q := (v.scope, v.name);
    if q in reg.symbols && reg.symbols[q].EntityClass? then SerializeFields(reg, v, reg.symbols[q].fields, 0, [])
    else Err(TypeError("need to be decorated as dataclass"))
  }

  /** The loop of `Serializable.serialize` from field `i`, with `o` the dict
      built so far: each field stores what it contributes under its name, the
      first field that fails ends the loop with its exception, and the marker
      `"<module>:<name>"` comes last. */
  function SerializeFields(reg: Registry, v: Value, fields: seq<Field>, i: nat, o: seq<(Value, Value)>): (r: Result<Value>)
    requires RegistryWF(reg) && v.Entity? && FieldsWF(fields) && i <= |fields|
    ensures r.Ok? ==> r.value.Dict?
    decreases 1, v, 0, |fields| - i
  {
    if i == |fields| then Ok(Dict(Put(o, Str(Meta), Str(Join(v.scope, v.name)))))
    else
      var t :- FieldBlob(reg, v, fields[i]);
      SerializeFields(reg, v, fields, i + 1, Put(o, Str(fields[i].name), t))
  }

  /** The attribute after the field's encode hook, when it has one. */
  function Encoded(f: Field, x: Value): Value {
    if f.encode.Some? then f.encode.value(x) else x
  }

  /** The untagged value after the field's decode hook, when it has one. */
  function Decoded(f: Field, u: Value): Value {
    if f.decode.Some? then f.decode.value(u) else u
  }

  /** One turn of the serialize loop: what it stores under field `f` of `v`,
      or the exception it raises there. The attribute must exist, None is
      refused unless the field is Optional, an encode hook needs a decode
      hook, and the value is encoded before it is tagged. */
  function FieldBlob(reg: Registry, v: Value, f: Field): Result<Value>
    requires RegistryWF(reg) && v.Entity? && FieldWF(f)
    decreases 1, v, 0, 0
  {
    match IndexOf(v.attrs, f.name)
    case None => Err(LookupError("'" + v.name + "' object has no attribute '" + f.name + "'"))
    case Some(k) =>
      var x := v.attrs[k].1;
      if x == Null && !f.optional then Err(TypeError(f.name + " is not optional"))
      else if f.encode.Some? && f.decode.None? then
        Err(ValueError("decode is not implemented for " + f.name + " in " + v.name))
      else if f.encode.Some? then Tag(reg, f.encode.value(x))
      else Tag(reg, x)
  }

  // -------------------------------------------------------------- untagging

  /** `_deserialize(x)`: a dict with the marker key is reconstructed from its tag,
      any other dict and any list are untagged element by element, and every
      other value is returned unchanged. Without a marker to meet it never fails. */
  function Untag(reg: Registry, x: Value): (r: Result<Value>)
    requires RegistryWF(reg)
    ensures NoMarkerToUntag(x) ==> r.Ok?
    decreases if NoMarkerToUntag(x) then 0 else 1, x, 2, 0
  {
    if IsDictInstance(x) then
      match IndexOf(x.entries, Str(Meta))
      case Some(k) => UntagMarked(reg, x, k)
      case None =>
        var es :- UntagEntries(reg, x, 0);
        Ok(Dict(es))
    else if x.List? then
      var xs :- UntagItems(reg, x, 0);
      Ok(List(xs))
    else Ok(x)
  }

  /** The built-in tags, which all hold no ':'. */
  predicate IsBuiltinTag(t: string) {
    t in ["OrderedDict", "tuple", "set", "datetime", "date", "Decimal", "type", "function", "module"]
  }

  /** The branch of `_deserialize` for a dict whose marker sits at position `k`:
      a built-in tag reads the `value` payload; any other string names the
      entity class whose `deserialize` receives the whole dict. */
  function UntagMarked(reg: Registry, x: Value, k: nat): Result<Value>
    requires RegistryWF(reg) && IsDictInstance(x) && k < |x.entries| && x.entries[k].0 == Str(Meta)
    decreases 1, x, 1, 0
  {
    var tag := x.entries[k].1;
    if tag.Str? && IsBuiltinTag(tag.s) then
      match IndexOf(x.entries, Str(Payload))
      case None => Err(LookupError("KeyError: 'value'"))
      case Some(j) => UntagBuiltin(reg, x, tag.s, j)
    else if tag.Str? then
      match Split(tag.s)
      case None => Err(ValueError("marker is not of the form <module>:<name>"))
      case Some((scope, cls)) =>
        var sym :- Resolve(reg, scope, cls);
        if sym.EntityClass? then DeserializeFields(reg, x, scope, cls, sym.fields, 0, [])
        else Err(LookupError("'" + cls + "' has no attribute 'deserialize'"))
    else Err(LookupError("AttributeError: marker has no attribute 'split'"))
  }

  /** Reconstruction for a built-in tag from the payload at position `j`. */
  function UntagBuiltin(reg: Registry, x: Value, tag: string, j: nat): Result<Value>
    requires RegistryWF(reg) && IsDictInstance(x) && IsBuiltinTag(tag) && j < |x.entries|
    decreases 1, x, 0, 0
  {
    var p := x.entries[j].1;
    if tag == "OrderedDict" then
      if p.List? then
        var ps :- UntagPairs(reg, p, 0);
        if forall n :: 0 <= n < |ps| ==> Hashable(ps[n].0) then Ok(ODict(FromPairs(ps)))
        else Err(TypeError("unhashable type"))
      else Err(TypeError("OrderedDict payload is not a list"))
    else if tag == "tuple" || tag == "set" then
      if p.List? then
        var xs :- UntagItems(reg, p, 0);
        if tag == "tuple" then Ok(Tuple(xs))
        else if forall n :: 0 <= n < |xs| ==> Hashable(xs[n]) then Ok(Set(Dedup(xs)))
        else Err(TypeError("unhashable type"))
      else Err(TypeError(tag + " payload is not a list"))
    else if tag == "Decimal" then
      match p
      case Str(t) => Ok(Decimal(t))
      case Int(n) => Ok(Decimal(IntText(n)))
      case Bool(b) => Ok(Decimal(if b then "1" else "0"))
      case Decimal(t) => Ok(Decimal(t))
      case _ => Err(TypeError("conversion to Decimal is not supported"))
    else if tag == "datetime" || tag == "date" then
      if !p.Str? then Err(TypeError(tag + " payload must be str"))
      else if tag == "datetime" then Ok(DateTime(p.s))
      else
        match ParseDate(p.s)
        case None => Err(ValueError("time data '" + p.s + "' does not match format '%Y%m%d'"))
        case Some((y, m, d)) => Ok(Date(y, m, d))
    // `import_module` and `.split` look up a string method on the payload: AttributeError
    else if !p.Str? then Err(LookupError("AttributeError: " + tag + " payload is not a str"))
    else if tag == "module" then
      if p.s in reg.modules then Ok(ModuleRef(p.s))
      else Err(LookupError("No module named '" + p.s + "'"))
    else
      match Split(p.s)
      case None => Err(ValueError(tag + " reference is not of the form <module>:<name>"))
      case Some((scope, name)) =>
        var sym :- Resolve(reg, scope, name);
        Ok(if sym.Function? then FuncRef(scope, name) else TypeRef(scope, name))
  }

  /** `[_deserialize(xi) for xi in p]` over the elements of a list from position `i`. */
  function UntagItems(reg: Registry, p: Value, i: nat): (r: Result<seq<Value>>)
    requires RegistryWF(reg) && p.List? && i <= |p.items|
    ensures r.Ok? <==> forall j :: i <= j < |p.items| ==> Untag(reg, p.items[j]).Ok?
    ensures r.Ok? ==> |r.value| == |p.items| - i
    ensures r.Ok? ==> forall j :: i <= j < |p.items| ==> Untag(reg, p.items[j]) == Ok(r.value[j - i])
    decreases if NoMarkerToUntag(p) then 0 else 1, p, 1, |p.items| - i
  {
    if i == |p.items| then Ok([])
    else
      assert NoMarkerToUntag(p) ==> NoMarkerToUntag(p.items[i]);
      var h := Untag(reg, p.items[i]);
      if h.Err? then Err(h.error)
      else
        var t := UntagItems(reg, p, i + 1);
        if t.Err? then Err(t.error)
        else Ok([h.value] + t.value)
  }

  /** `{k: _deserialize(v) for k, v in x.items()}` over a dict without the marker, from position `i`. */
  function UntagEntries(reg: Registry, x: Value, i: nat): (r: Result<seq<(Value, Value)>>)
    requires RegistryWF(reg) && IsDictInstance(x) && !HasKey(x.entries, Str(Meta)) && i <= |x.entries|
    ensures r.Ok? <==> forall j :: i <= j < |x.entries| ==> Untag(reg, x.entries[j].1).Ok?
    ensures r.Ok? ==> |r.value| == |x.entries| - i
    ensures r.Ok? ==> forall j :: i <= j < |x.entries| ==>
              r.value[j - i].0 == x.entries[j].0 && Untag(reg, x.entries[j].1) == Ok(r.value[j - i].1)
    decreases if NoMarkerToUntag(x) then 0 else 1, x, 1, |x.entries| - i
  {
    if i == |x.entries| then Ok([])
    else
      assert x.entries[i] in x.entries;
      assert NoMarkerToUntag(x) ==> NoMarkerToUntag(x.entries[i].1);
      var h := Untag(reg, x.entries[i].1);
      if h.Err? then Err(h.error)
      else
        var t := UntagEntries(reg, x, i + 1);
        if t.Err? then Err(t.error)
        else Ok([(x.entries[i].0, h.value)] + t.value)
  }

  /** `v[n]` for an OrderedDict payload entry `v`: a list, tuple or string is
      indexed (IndexError, a LookupError, past its end; a string gives its
      one-character string), a dict looks `n` up as a key (KeyError, a
      LookupError, when it is absent), and any other value is not
      subscriptable (TypeError). */
  function Subscript(v: Value, n: nat): (r: Result<Value>)
    ensures r.Err? ==> (r.error.TypeError? <==> !(v.List? || v.Tuple? || v.Str? || IsDictInstance(v)))
    ensures r.Err? ==> r.error.TypeError? || r.error.LookupError?
    ensures (v.List? || v.Tuple?) ==> (r.Ok? <==> n < |v.items|) && (r.Ok? ==> r.value == v.items[n])
    ensures v.Str? ==> (r.Ok? <==> n < |v.s|) && (r.Ok? ==> r.value == Str([v.s[n]]))
    ensures IsDictInstance(v) ==> (r.Ok? <==> HasKey(v.entries, Int(n))) && (r.Ok? ==> Get(v.entries, Int(n)) == Some(r.value))
  {
    if v.List? || v.Tuple? then
      if n < |v.items| then Ok(v.items[n]) else Err(LookupError("IndexError: index out of range"))
    else if v.Str? then
      if n < |v.s| then Ok(Str([v.s[n]])) else Err(LookupError("IndexError: string index out of range"))
    else if IsDictInstance(v) then
      match Get(v.entries, Int(n))
      case Some(w) => Ok(w)
      case None => Err(LookupError("KeyError: " + IntText(n)))
    else Err(TypeError("object is not subscriptable"))
  }

  /** `(v[0], _deserialize(v[1]))` for the entry `v` at position `i` of an
      OrderedDict payload. The dispatch on the kind of `v` is that of
      Subscript, written out so that the untagged part is visibly a part of
      `p`; a one-character string is its own `_deserialize`. */
  function UntagPair(reg: Registry, p: Value, i: nat): (r: Result<(Value, Value)>)
    requires RegistryWF(reg) && p.List? && i < |p.items|
    ensures var v := p.items[i]; !(v.List? || v.Tuple? || v.Str? || IsDictInstance(v)) ==> r.Err? && r.error.TypeError?
    decreases if NoMarkerToUntag(p) then 0 else 1, p, 0, 0
  {
    var v := p.items[i];
    assert NoMarkerToUntag(p) ==> NoMarkerToUntag(v);
    if v.List? || v.Tuple? then
      if |v.items| < 2 then Err(LookupError("IndexError: index out of range"))
      else
        assert NoMarkerToUntag(v) ==> NoMarkerToUntag(v.items[1]);
        var u :- Untag(reg, v.items[1]);
        Ok((v.items[0], u))
    else if v.Str? then
      if |v.s| < 2 then Err(LookupError("IndexError: string index out of range"))
      else Ok((Str([v.s[0]]), Str([v.s[1]])))
    else if IsDictInstance(v) then
      match IndexOf(v.entries, Int(0))
      case None => Err(LookupError("KeyError: 0"))
      case Some(a) =>
        match IndexOf(v.entries, Int(1))
        case None => Err(LookupError("KeyError: 1"))
        case Some(b) =>
          assert NoMarkerToUntag(v) ==> NoMarkerToUntag(v.entries[b].1);
          var u :- Untag(reg, v.entries[b].1);
          Ok((v.entries[a].1, u))
    else Err(TypeError("object is not subscriptable"))
  }

  /** `[(v[0], _deserialize(v[1])) for v in p]` from position `i`: succeeds
      exactly when every entry does, and holds each entry's pair in order. */
  function UntagPairs(reg: Registry, p: Value, i: nat): (r: Result<seq<(Value, Value)>>)
    requires RegistryWF(reg) && p.List? && i <= |p.items|
    ensures r.Ok? ==> forall j :: i <= j < |p.items| ==> UntagPair(reg, p, j).Ok?
    ensures (forall j :: i <= j < |p.items| ==> UntagPair(reg, p, j).Ok?) ==> r.Ok?
    ensures r.Ok? ==> |r.value| == |p.items| - i
    ensures r.Ok? ==> forall j :: i <= j < |p.items| ==> UntagPair(reg, p, j) == Ok(r.value[j - i])
    decreases if NoMarkerToUntag(p) then 0 else 1, p, 1, |p.items| - i
  {
    if i == |p.items| then Ok([])
    else
      var h := UntagPair(reg, p, i);
      if h.Err? then Err(h.error)
      else
        var t :- UntagPairs(reg, p, i + 1);
        Ok([h.value] + t)
  }

  /** The lookup `data` gives for a field after `data.pop(META_FIELD)` on a copy:
      the position of the field in `x`, unless the field is the marker itself. */
  function FieldIndex(x: Value, name: string): (r: Option<nat>)
    requires IsDictInstance(x)
    ensures r.Some? ==> r.value < |x.entries| && x.entries[r.value].0 == Str(name)
  {
    if name == Meta then None else IndexOf(x.entries, Str(name))
  }

  /** The loop of `Serializable.deserialize` from field `i`, with `o` the keyword
      arguments so far: each field's value is stored under its name, the first
      field without one ends the loop with its exception, and the instance is
      then constructed. */
  function DeserializeFields(reg: Registry, x: Value, scope: string, cls: string, fields: seq<Field>,
                             i: nat, o: seq<(string, Value)>): (r: Result<Value>)
    requires RegistryWF(reg) && IsDictInstance(x) && FieldsWF(fields) && i <= |fields|
    ensures r.Ok? ==> r.value.Entity?
    decreases 1, x, 0, |fields| - i
  {
    if i == |fields| then Construct(scope, cls, fields, o)
    else
      var w :- FieldValue(reg, x, cls, fields[i]);
      DeserializeFields(reg, x, scope, cls, fields, i + 1, Put(o, fields[i].name, w))
  }

  /** One turn of the deserialize loop: the value `deserialize` passes for field
      `f`, or the exception it raises there. An absent Optional field is None;
      otherwise the present value, else `_default_value`, is untagged and then
      decoded; with no value at all the field is unknown (ValueError). */
  function FieldValue(reg: Registry, x: Value, cls: string, f: Field): Result<Value>
    requires RegistryWF(reg) && IsDictInstance(x) && FieldWF(f)
    decreases 1, x, 0, 0
  {
    var k := FieldIndex(x, f.name);
    if k.None? && f.optional then Ok(Null)
    else
      var raw := if k.Some? then Some(x.entries[k.value].1) else DefaultValue(f);
      if raw.None? then Err(ValueError("deserialized with unknown value for " + f.name + " in " + cls))
      else
        var u :- if k.Some? then Untag(reg, x.entries[k.value].1) else Untag(reg, raw.value);
        Ok(Decoded(f, u))
  }

  // ------------------------------------------------------------- validation

  /** `a == b` as the `__eq__` that `@dataclass` generates: the same class, and
      equal values in every declared field. */
  predicate SameFields(fields: seq<Field>, a: Value, b: Value)
    requires a.Entity? && b.Entity?
  {
    && a.scope == b.scope && a.name == b.name
    && forall j :: 0 <= j < |fields| ==> Get(a.attrs, fields[j].name) == Get(b.attrs, fields[j].name)
  }

  /** `Serializable.validate` with the JSON text round trip taken as the identity:
      the contract checks, then serialization, then the class's own
      `deserialize` of the blob, whose result must equal the instance. */
  function ValidateFailure(reg: Registry, e: Value): Option<Error>
    requires RegistryWF(reg) && e.Entity?
  {
    var q := (e.scope, e.name);
    if !(q in reg.symbols && reg.symbols[q].EntityClass?) then
      Some(TypeError("must be called with a dataclass type or instance"))
    else
      var fields := reg.symbols[q].fields;
      match ContractFailure(e.name, fields, e.attrs, 0)
      case Some(err) => Some(err)
      case None =>
        match SerializeEntity(reg, e)
        case Err(err) => Some(err)
        case Ok(blob) =>
          match DeserializeFields(reg, blob, e.scope, e.name, fields, 0, [])
          case Err(err) => Some(err)
          case Ok(back) =>
            if !SameFields(fields, back, e) then Some(ValueError("could not be deserialized with same value")) else None
  }
}
