/** The round trip `_deserialize(_serialize(v)) == v` for the values whose every
    part the engine carries back, and `validate` passing on such instances. */
module RoundTrip {
  import opened Results
  import opened Collections
  import opened Values
  import opened Dates
  import opened QualNames
  import opened Schema
  import opened Construction
  import opened Codec
  import opened EntityLaws
  import opened Dispatch

  /** An instance whose declaration lets it come back: a registered dataclass
      whose attributes are exactly its fields in declaration order, none named
      like the marker key nor declared with `init=False`, that construction
      accepts, with every encode hook paired with a decode hook that undoes it
      on this instance's value. */
  predicate WellShaped(reg: Registry, e: Value)
    requires e.Entity?
  {
    && Declared(reg, e.scope, e.name)
    && var fs := reg.symbols[(e.scope, e.name)].fields;
       && |e.attrs| == |fs|
       && (forall j :: 0 <= j < |fs| ==> e.attrs[j].0 == fs[j].name && fs[j].name != Meta && fs[j].init)
       && Constructible(e.name, fs, e.attrs)
       && (forall j :: 0 <= j < |fs| ==> fs[j].encode.Some? ==> fs[j].decode.Some?)
       && (forall j :: 0 <= j < |fs| ==> Decoded(fs[j], Encoded(fs[j], e.attrs[j].1)) == e.attrs[j].1)
  }

  /** The values that survive `_deserialize(_serialize(v))`: the kinds carried by
      text always do; lists, tuples and plain dicts when their elements do (a
      plain dict must not use the marker key); sets and OrderedDicts, whose
      elements travel untagged, when they hold primitives (and hashable keys);
      a date when it is a real date; class, function and module references
      when they resolve to the same kind of object; an instance when it is well
      shaped, its module importable, its qualified name splittable, and every
      field's (encoded) value survives. */
  ghost predicate RoundTrips(reg: Registry, v: Value)
    requires RegistryWF(reg)
    decreases if NoEntityToTag(v) then 0 else 1, v
  {
    match v
    case Null => true
    case Bool(_) => true
    case Int(_) => true
    case Str(_) => true
    case NoDefault => true
    case DateTime(_) => true
    case Decimal(_) => true
    case Date(y, m, d) => ValidDate(y, m, d)
    case List(xs) => forall i :: 0 <= i < |xs| ==> RoundTrips(reg, xs[i])
    case Tuple(xs) => forall i :: 0 <= i < |xs| ==> RoundTrips(reg, xs[i])
    case Set(xs) => Distinct(xs) && forall i :: 0 <= i < |xs| ==> Primitive(xs[i])
    case ODict(es) => DistinctKeys(es) && forall i :: 0 <= i < |es| ==> Hashable(es[i].0) && Primitive(es[i].1)
    case Dict(es) => !HasKey(es, Str(Meta)) && forall i :: 0 <= i < |es| ==> RoundTrips(reg, es[i].1)
    case Entity(scope, name, attrs) =>
      && WellShaped(reg, v) && scope in reg.modules && NoColon(scope) && NoColon(name)
      && var fs := reg.symbols[(scope, name)].fields;
         forall j :: 0 <= j < |fs| ==>
           && (fs[j].encode.Some? ==> NoEntityToTag(fs[j].encode.value(attrs[j].1)) && RoundTrips(reg, fs[j].encode.value(attrs[j].1)))
           && (fs[j].encode.None? ==> RoundTrips(reg, attrs[j].1))
    case TypeRef(scope, name) =>
      NoColon(scope) && NoColon(name) && Resolve(reg, scope, name).Ok? && !Resolve(reg, scope, name).value.Function?
    case FuncRef(scope, name) =>
      NoColon(scope) && NoColon(name) && Resolve(reg, scope, name).Ok? && Resolve(reg, scope, name).value.Function?
    case ModuleRef(scope) => scope in reg.modules
  }

  /** `_deserialize(_serialize(v)) == v`. */
  predicate Survives(reg: Registry, v: Value)
    requires RegistryWF(reg)
  {
    Tag(reg, v).Ok? && Untag(reg, Tag(reg, v).value) == Ok(v)
  }

  // ------------------------------------------------------ collections

  /** A set of distinct primitives comes back as the same set. */
  lemma SetRoundTrip(reg: Registry, xs: seq<Value>)
    requires RegistryWF(reg) && Distinct(xs) && forall i :: 0 <= i < |xs| ==> Primitive(xs[i])
    ensures Survives(reg, Set(xs))
  {
    var b := Marked("set", List(xs));
    assert Tag(reg, Set(xs)) == Ok(b);
    UntagBuiltinMarked(reg, "set", List(xs));
    UntagPrimitives(reg, xs, 0);
    assert xs[0..] == xs;
    assert b.entries[1].1 == List(xs);
    assert forall n :: 0 <= n < |xs| ==> Hashable(xs[n]);
  }

  /** A list of primitives is untagged to itself, from position `i`. */
  lemma {:induction false} UntagPrimitives(reg: Registry, xs: seq<Value>, i: nat)
    requires RegistryWF(reg) && i <= |xs| && forall n :: 0 <= n < |xs| ==> Primitive(xs[n])
    ensures UntagItems(reg, List(xs), i) == Ok(xs[i..])
    decreases |xs| - i
  {
    if i < |xs| {
      assert Untag(reg, List(xs).items[i]) == Ok(xs[i]);
      UntagPrimitives(reg, xs, i + 1);
      assert UntagItems(reg, List(xs), i) == Ok([xs[i]] + xs[i + 1..]);
      assert xs[i..] == [xs[i]] + xs[i + 1..];
    } else {
      assert xs[i..] == [];
    }
  }

  /** The pair lists of an OrderedDict with primitive values are read back into
      its entries, from position `i`. */
  lemma {:induction false} UntagPairLists(reg: Registry, es: seq<(Value, Value)>, i: nat)
    requires RegistryWF(reg) && i <= |es| && forall n :: 0 <= n < |es| ==> Primitive(es[n].1)
    ensures UntagPairs(reg, List(PairLists(es)), i) == Ok(es[i..])
    decreases |es| - i
  {
    if i < |es| {
      var p := List(PairLists(es));
      assert p.items[i] == List([es[i].0, es[i].1]);
      assert Untag(reg, es[i].1) == Ok(es[i].1);
      assert UntagPair(reg, p, i) == Ok((es[i].0, es[i].1));
      UntagPairLists(reg, es, i + 1);
      assert UntagPairs(reg, p, i) == Ok([(es[i].0, es[i].1)] + es[i + 1..]);
      assert es[i..] == [(es[i].0, es[i].1)] + es[i + 1..];
    } else {
      assert es[i..] == [];
    }
  }

  /** An OrderedDict with distinct hashable keys and primitive values comes back
      as the same OrderedDict, in the same order. */
  lemma ODictRoundTrip(reg: Registry, es: seq<(Value, Value)>)
    requires RegistryWF(reg) && DistinctKeys(es)
    requires forall i :: 0 <= i < |es| ==> Hashable(es[i].0) && Primitive(es[i].1)
    ensures Survives(reg, ODict(es))
  {
    UntagBuiltinMarked(reg, "OrderedDict", List(PairLists(es)));
    UntagPairLists(reg, es, 0);
    assert es[0..] == es;
  }

  /** A plain dict without the marker key comes back when each of its values does. */
  lemma DictRoundTrip(reg: Registry, es: seq<(Value, Value)>)
    requires RegistryWF(reg) && !HasKey(es, Str(Meta))
    requires forall i :: 0 <= i < |es| ==> Survives(reg, es[i].1)
    ensures Survives(reg, Dict(es))
  {
    assert Tag(reg, Dict(es)).Ok? by {
      assert forall i :: 0 <= i < |es| ==> Tag(reg, Dict(es).entries[i].1).Ok?;
    }
    PlainDictStaysPlain(reg, es);
    var b := Tag(reg, Dict(es)).value;
    assert IndexOf(b.entries, Str(Meta)).None?;
    assert forall i :: 0 <= i < |b.entries| ==> Untag(reg, b.entries[i].1) == Ok(es[i].1);
    var us := UntagEntries(reg, b, 0).value;
    assert forall i :: 0 <= i < |es| ==> us[i] == es[i] by {
      forall i | 0 <= i < |es| ensures us[i] == es[i] {
        assert Keys(b.entries)[i] == Keys(es)[i];
      }
    }
    assert us == es;
  }

  // ------------------------------------------------------ references

  /** A class reference comes back when it resolves to a class. */
  lemma TypeRefRoundTrip(reg: Registry, scope: string, name: string)
    requires RegistryWF(reg) && NoColon(scope) && NoColon(name)
    requires Resolve(reg, scope, name).Ok? && !Resolve(reg, scope, name).value.Function?
    ensures Survives(reg, TypeRef(scope, name))
  {
    UntagBuiltinMarked(reg, "type", Str(Join(scope, name)));
    SplitJoin(scope, name);
  }

  /** A function reference comes back when it resolves to a function. */
  lemma FuncRefRoundTrip(reg: Registry, scope: string, name: string)
    requires RegistryWF(reg) && NoColon(scope) && NoColon(name)
    requires Resolve(reg, scope, name).Ok? && Resolve(reg, scope, name).value.Function?
    ensures Survives(reg, FuncRef(scope, name))
  {
    UntagBuiltinMarked(reg, "function", Str(Join(scope, name)));
    SplitJoin(scope, name);
  }

  /** A module reference comes back when the module is importable. */
  lemma ModuleRefRoundTrip(reg: Registry, scope: string)
    requires RegistryWF(reg) && scope in reg.modules
    ensures Survives(reg, ModuleRef(scope))
  {
    UntagBuiltinMarked(reg, "module", Str(scope));
  }

  /** A Decimal comes back from its text. */
  lemma DecimalRoundTrip(reg: Registry, s: string)
    requires RegistryWF(reg)
    ensures Survives(reg, Decimal(s))
  {
    assert Tag(reg, Decimal(s)) == Ok(Marked("Decimal", Str(s)));
    UntagBuiltinMarked(reg, "Decimal", Str(s));
    assert UntagBuiltin(reg, Marked("Decimal", Str(s)), "Decimal", 1) == Ok(Decimal(s));
  }

  // ------------------------------------------------------ instances

  /** A qualified name always holds a ':' and the built-in tags never do, so
      the untagger sends a marker naming a class to the class. */
  lemma QualNameIsNotBuiltin(scope: string, name: string)
    ensures !IsBuiltinTag(Join(scope, name))
  {
    JoinHasColon(scope, name);
    var t := Join(scope, name);
    var i :| 0 <= i < |t| && t[i] == ':';
    assert t != "OrderedDict" && t != "tuple" && t != "set" && t != "datetime" && t != "date";
    assert t != "Decimal" && t != "type" && t != "function" && t != "module";
  }

  /** For a well-shaped instance `serialize` stores under each field exactly its
      tagged (encoded) value. */
  lemma WellShapedFieldBlobs(reg: Registry, e: Value)
    requires RegistryWF(reg) && e.Entity? && WellShaped(reg, e)
    ensures var fs := reg.symbols[(e.scope, e.name)].fields;
            forall j :: 0 <= j < |fs| ==> FieldBlob(reg, e, fs[j]) == Tag(reg, Encoded(fs[j], e.attrs[j].1))
  {
    var fs := reg.symbols[(e.scope, e.name)].fields;
    assert FieldsWF(fs);
    assert DistinctKeys(e.attrs) by {
      forall i, j | 0 <= i < j < |e.attrs| ensures e.attrs[i].0 != e.attrs[j].0 {
        assert fs[i].name != fs[j].name;
      }
    }
    assert ContractFailure(e.name, fs, e.attrs, 0).None?;
    forall j | 0 <= j < |fs| ensures FieldBlob(reg, e, fs[j]) == Tag(reg, Encoded(fs[j], e.attrs[j].1)) {
      assert Get(e.attrs, fs[j].name) == Some(e.attrs[j].1);
      assert FieldValid(fs[j], e.attrs);
    }
  }

  /** For a well-shaped instance whose encoded field values survive, `serialize`
      succeeds and the class's own `deserialize` rebuilds the instance from the
      blob, which carries the instance's qualified name under the marker key. */
  lemma EntityBlobRoundTrip(reg: Registry, e: Value)
    requires RegistryWF(reg) && e.Entity? && WellShaped(reg, e)
    requires var fs := reg.symbols[(e.scope, e.name)].fields;
             forall j :: 0 <= j < |fs| ==> Survives(reg, Encoded(fs[j], e.attrs[j].1))
    ensures SerializeEntity(reg, e).Ok?
    ensures var b := SerializeEntity(reg, e).value;
            && b.Dict? && DistinctKeys(b.entries)
            && Get(b.entries, Str(Meta)) == Some(Str(Join(e.scope, e.name)))
            && DeserializeFields(reg, b, e.scope, e.name, reg.symbols[(e.scope, e.name)].fields, 0, []) == Ok(e)
  {
    var fs := reg.symbols[(e.scope, e.name)].fields;
    WellShapedFieldBlobs(reg, e);
    SerializeEntityShape(reg, e);
    var b := SerializeEntity(reg, e).value;
    forall j | 0 <= j < |fs| ensures FieldValue(reg, b, e.name, fs[j]) == Ok(e.attrs[j].1) {
      assert Str(fs[j].name) != Str(Meta);
      assert Get(Remove(b.entries, Str(Meta)), Str(fs[j].name)) == Some(Tag(reg, Encoded(fs[j], e.attrs[j].1)).value);
    }
    DeserializeLaw(reg, e.scope, e.name, b);
    assert Kwargs(reg, b, e.name, fs) == e.attrs;
  }

  /** A well-shaped instance of an importable module with a splittable
      qualified name comes back when its encoded field values do. */
  lemma EntityRoundTrip(reg: Registry, e: Value)
    requires RegistryWF(reg) && e.Entity? && WellShaped(reg, e)
    requires e.scope in reg.modules && NoColon(e.scope) && NoColon(e.name)
    requires var fs := reg.symbols[(e.scope, e.name)].fields;
             forall j :: 0 <= j < |fs| ==> Survives(reg, Encoded(fs[j], e.attrs[j].1))
    ensures Survives(reg, e)
  {
    EntityBlobRoundTrip(reg, e);
    var b := SerializeEntity(reg, e).value;
    assert Tag(reg, e) == Ok(b);
    var k := IndexOf(b.entries, Str(Meta)).value;
    assert b.entries[k].1 == Str(Join(e.scope, e.name));
    QualNameIsNotBuiltin(e.scope, e.name);
    SplitJoin(e.scope, e.name);
    assert Untag(reg, b) == UntagMarked(reg, b, k);
  }

  // ------------------------------------------------------ the round trip

  /** `_deserialize(_serialize(v)) == v` for every value that RoundTrips. */
  lemma {:induction false} TagUntag(reg: Registry, v: Value)
    requires RegistryWF(reg) && RoundTrips(reg, v)
    ensures Survives(reg, v)
    decreases if NoEntityToTag(v) then 0 else 1, v
  {
    match v
    case Null =>
    case Bool(_) =>
    case Int(_) =>
    case Str(_) =>
    case NoDefault =>
    case DateTime(s) => DateTimeIsNotDate(reg, s);
    case Decimal(s) => DecimalRoundTrip(reg, s);
    case Date(y, m, d) => DateRoundTrip(reg, y, m, d);
    case List(xs) =>
      forall i | 0 <= i < |xs| ensures Survives(reg, xs[i]) { TagUntag(reg, xs[i]); }
      ListRoundTrip(reg, xs);
    case Tuple(xs) =>
      forall i | 0 <= i < |xs| ensures Survives(reg, xs[i]) { TagUntag(reg, xs[i]); }
      TupleRoundTrip(reg, xs);
    case Set(xs) => SetRoundTrip(reg, xs);
    case ODict(es) => ODictRoundTrip(reg, es);
    case Dict(es) =>
      forall i | 0 <= i < |es| ensures Survives(reg, es[i].1) { TagUntag(reg, es[i].1); }
      DictRoundTrip(reg, es);
    case Entity(scope, name, attrs) =>
      var fs := reg.symbols[(scope, name)].fields;
      forall j | 0 <= j < |fs| ensures Survives(reg, Encoded(fs[j], attrs[j].1)) {
        if fs[j].encode.Some? {
          TagUntag(reg, fs[j].encode.value(attrs[j].1));
        } else {
          TagUntag(reg, attrs[j].1);
        }
      }
      EntityRoundTrip(reg, v);
    case TypeRef(scope, name) => TypeRefRoundTrip(reg, scope, name);
    case FuncRef(scope, name) => FuncRefRoundTrip(reg, scope, name);
    case ModuleRef(scope) => ModuleRefRoundTrip(reg, scope);
  }

  /** `validate` accepts a well-shaped instance whose encoded field values
      survive the round trip. */
  lemma ValidatePasses(reg: Registry, e: Value)
    requires RegistryWF(reg) && e.Entity? && WellShaped(reg, e)
    requires var fs := reg.symbols[(e.scope, e.name)].fields;
             forall j :: 0 <= j < |fs| ==> RoundTrips(reg, Encoded(fs[j], e.attrs[j].1))
    ensures ValidateFailure(reg, e) == None
  {
    var fs := reg.symbols[(e.scope, e.name)].fields;
    forall j | 0 <= j < |fs| ensures Survives(reg, Encoded(fs[j], e.attrs[j].1)) {
      TagUntag(reg, Encoded(fs[j], e.attrs[j].1));
    }
    EntityBlobRoundTrip(reg, e);
    assert ContractFailure(e.name, fs, e.attrs, 0).None?;
  }
}
