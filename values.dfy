/** The Python values the serializer handles. A tagged blob is itself such a
    value (a tree of dicts, lists and primitives), so one type serves for both
    the objects being serialized and the JSON-shaped trees produced from them. */
module Values {
  import opened Collections

  /** The reserved key that marks a dict as tagged (`META_FIELD`). */
  const Meta: string := "__ser__"
  /** The key under which a built-in tag carries its payload. */
  const Payload: string := "value"

  datatype Value =
    | Null                                   // None
    | Bool(b: bool)
    | Int(i: int)
    | Str(s: string)
    | List(items: seq<Value>)
    | Tuple(items: seq<Value>)
    | Set(items: seq<Value>)                 // elements in iteration order
    | Dict(entries: seq<(Value, Value)>)     // plain dict, insertion order
    | ODict(entries: seq<(Value, Value)>)    // collections.OrderedDict
    | Entity(scope: string, name: string, attrs: seq<(string, Value)>)  // instance of a Serializable class and its __dict__
    | TypeRef(scope: string, name: string)  // a class object
    | FuncRef(scope: string, name: string)  // a function object
    | ModuleRef(scope: string)               // a module object
    | DateTime(iso: string)                  // datetime, by its isoformat() text
    | Date(year: nat, month: nat, day: nat)  // date
    | Decimal(text: string)                  // Decimal, by its str() text
    | NoDefault                              // the `no_default` sentinel

  /** `isinstance(v, dict)`: an OrderedDict is a dict too. */
  predicate IsDictInstance(v: Value) { v.Dict? || v.ODict? }

  /** `isinstance(v, date)`: a datetime is a date too. */
  predicate IsDateInstance(v: Value) { v.Date? || v.DateTime? }

  /** The values that JSON carries natively and the tagger passes through. */
  predicate Primitive(v: Value) { v.Null? || v.Bool? || v.Int? || v.Str? }

  /** The values Python can hash, and so put in a set or use as a dict key:
      lists, dicts and sets cannot be hashed, a tuple only when its elements
      can, and an instance of a dataclass not at all, since `@dataclass` with
      its default `eq=True` sets `__hash__` to None. */
  predicate Hashable(v: Value) {
    match v
    case List(_) => false
    case Dict(_) => false
    case ODict(_) => false
    case Set(_) => false
    case Entity(_, _, _) => false
    case Tuple(xs) => forall i :: 0 <= i < |xs| ==> Hashable(xs[i])
    case _ => true
  }

  /** A dict that carries the reserved marker key. */
  predicate IsMarked(v: Value) { IsDictInstance(v) && HasKey(v.entries, Str(Meta)) }

  /** Tagging `v` never reaches a Serializable instance: the tagger descends
      into lists, tuples and plain dict values only. */
  predicate NoEntityToTag(v: Value) {
    match v
    case Entity(_, _, _) => false
    case List(xs) => forall i :: 0 <= i < |xs| ==> NoEntityToTag(xs[i])
    case Tuple(xs) => forall i :: 0 <= i < |xs| ==> NoEntityToTag(xs[i])
    case Dict(es) => forall i :: 0 <= i < |es| ==> NoEntityToTag(es[i].1)
    case _ => true
  }

  /** Untagging `v` never meets a marked dict, looking through lists, tuples and
      dict values. Tuples are looked through because the second item of a
      tuple entry in an OrderedDict payload is untagged; for a tuple reached
      any other way the clause is conservative, since `_deserialize` returns
      tuples unchanged. */
  predicate NoMarkerToUntag(v: Value) {
    match v
    case List(xs) => forall i :: 0 <= i < |xs| ==> NoMarkerToUntag(xs[i])
    case Tuple(xs) => forall i :: 0 <= i < |xs| ==> NoMarkerToUntag(xs[i])
    case Dict(es) => !HasKey(es, Str(Meta)) && forall i :: 0 <= i < |es| ==> NoMarkerToUntag(es[i].1)
    case ODict(es) => !HasKey(es, Str(Meta)) && forall i :: 0 <= i < |es| ==> NoMarkerToUntag(es[i].1)
    case _ => true
  }

  /** A built-in tag: `{META_FIELD: tag, "value": payload}`. */
  function Marked(tag: string, payload: Value): (r: Value)
    ensures IsMarked(r)
  {
    assert Dict([(Str(Meta), Str(tag)), (Str(Payload), payload)]).entries[0].0 == Str(Meta);
    Dict([(Str(Meta), Str(tag)), (Str(Payload), payload)])
  }
}
