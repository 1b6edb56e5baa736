# dataclass_serializer, modelled in Dafny

`dataclass_serializer` turns Python dataclass instances deriving from
`Serializable` into JSON-shaped trees and back. It also handles the values
those instances hold: dicts, OrderedDicts, lists, tuples, sets, classes,
functions, modules, datetimes, dates and Decimals. A value JSON cannot carry
becomes a *tagged* dict, whose reserved key `__ser__` holds a tag and whose
`value` key holds a payload. An instance becomes a dict of its fields, with
`"<module>:<class>"` under `__ser__`. Deserialization reads the tag and
rebuilds the value. For an instance it imports the class by its qualified
name and calls that class's `deserialize`.

The model covers the whole engine of `dataclass_serializer/dataclass_serializer.py`:

- `Values` is one datatype for every Python value the engine meets. A tagged
  blob is such a value too.
- `Collections` models insertion-ordered dicts as sequences of pairs with
  distinct keys, using `get`, `d[k] = v` and `pop`.
- `Dates` and `QualNames` model the two text forms, `%Y%m%d` and
  `<module>:<name>`.
- `Schema` models what the engine reads from a dataclass declaration. Its
  registry of scopes and symbols stands for `import_module` and `getattr`.
- `Construction` models `cls(**kwargs)` with its `__post_init__` and
  `_validate_contracts` checks.
- `Codec` holds the two mutually recursive dispatchers: `Tag` models
  `_serialize`, and `Untag` models `_deserialize`. Each per-field rule of
  `serialize` and `deserialize` is a function there, as is `validate`.
- `Serializable` models the methods of the base class as loops. `serialize`,
  `deserialize`, `_validate_contracts`, `__post_init__` and `validate` are
  each proved to compute their specification function in `Codec` or
  `Construction`. `to_dict` has no such function; its contract says directly
  which dict it returns.
- `EntityLaws` states `serialize` and `deserialize` field by field: which
  exception is raised first, and which dict or instance comes out.
- `Dispatch` states the first-match order of the dispatchers, the element-wise
  handling of lists and tuples, and the date text.
- `RoundTrip` proves `_deserialize(_serialize(v)) == v` for every value
  satisfying `RoundTrips`, and that `validate` passes for well-shaped
  instances. `RoundTrips` admits sets and OrderedDicts only when their
  elements and values are primitives.

Two behaviours of the code shape the model:

- `serialize` refuses a None value of a non-Optional field *before* the
  encode hook runs (lines 62-68 come before 70-81).
- The elements of a set payload and both parts of each OrderedDict entry are
  stored untagged (lines 181 and 189). Only the second part of an OrderedDict
  entry is untagged on the way back (line 211).

## Model

All source paths are relative to the repository root.

| member | source | states |
|---|---|---|
| Codec.Tag | dataclass_serializer/dataclass_serializer.py:179-204 | `_serialize` never fails on a value in which no Serializable instance is reachable; only a nested `serialize` can raise |
| Codec.TagItems | dataclass_serializer/dataclass_serializer.py:184-187 | tagging list or tuple elements succeeds exactly when each element's tagging does, keeps the length, and holds each element's tagged value at its position |
| Codec.TagEntries | dataclass_serializer/dataclass_serializer.py:182-183 | a plain dict's comprehension succeeds exactly when each value's tagging does, keeps every key at its position, and holds each value tagged |
| Codec.SerializeEntity | dataclass_serializer/dataclass_serializer.py:48-91 | a successful `serialize` returns a dict |
| Codec.SerializeFields | dataclass_serializer/dataclass_serializer.py:56-91 | a successful serialize loop returns a dict |
| Codec.Untag | dataclass_serializer/dataclass_serializer.py:207-234 | `_deserialize` never fails on a value in which no marked dict is reachable |
| Codec.UntagItems | dataclass_serializer/dataclass_serializer.py:231-232 | untagging list elements succeeds exactly when each element's untagging does, keeps the length, and holds each element's untagged value at its position |
| Codec.UntagEntries | dataclass_serializer/dataclass_serializer.py:230 | untagging an unmarked dict succeeds exactly when each value's untagging does, keeps every key at its position, and holds each value untagged |
| Codec.Subscript | dataclass_serializer/dataclass_serializer.py:211 | `v[n]` raises TypeError exactly when `v` is not subscriptable; a list, tuple or string answers within its length (IndexError, a LookupError, past it) and a dict answers under the key `n` (KeyError otherwise) |
| Codec.UntagPair | dataclass_serializer/dataclass_serializer.py:211 | an element that is neither a list, a tuple, a string nor a dict cannot be subscripted and raises TypeError |
| Codec.UntagPairs | dataclass_serializer/dataclass_serializer.py:211 | reading an OrderedDict payload succeeds exactly when every entry reads, yields one entry per element in order, and each entry is that element read as a pair |
| Codec.DeserializeFields | dataclass_serializer/dataclass_serializer.py:121-158 | a successful `deserialize` returns an instance |
| Codec.FieldIndex | dataclass_serializer/dataclass_serializer.py:123-125 | after the marker is popped, a field found in the data sits at a position holding that field's name |
| Schema.DefaultValue | dataclass_serializer/dataclass_serializer.py:240-246 | under the declaration's well-formedness conditions, a default (declared value or factory result) reaches no marked dict |
| Schema.Resolve | dataclass_serializer/dataclass_serializer.py:223-224 | `getattr(import_module(m), c)` succeeds exactly when the module is importable and defines the name, and then yields that symbol; every failure is a LookupError (ImportError or AttributeError) |
| Collections.Get | dataclass_serializer/dataclass_serializer.py:139 | `d.get(k)` finds a value exactly when `k` is a key, and that value is the one stored with `k` |
| Collections.PutLaws | dataclass_serializer/dataclass_serializer.py:85 | after `d[k] = v`, `k` maps to `v`, every other key keeps its value, an existing key keeps its position, a new key is appended, and keys stay distinct |
| Collections.Remove | dataclass_serializer/dataclass_serializer.py:125 | `pop(k)` on a copy removes `k`, leaves every other lookup unchanged, keeps keys distinct and adds no pair |
| Collections.FromPairs | dataclass_serializer/dataclass_serializer.py:211 | `OrderedDict(pairs)` has distinct keys, and equals the pairs in order when their keys are already distinct |
| Collections.FromPairsHasKey | dataclass_serializer/dataclass_serializer.py:211 | `k in OrderedDict(pairs)` exactly when some pair has key `k` |
| Collections.FromPairsGet | dataclass_serializer/dataclass_serializer.py:211 | a repeated key takes the value of its last pair |
| Collections.FromPairsKeys | dataclass_serializer/dataclass_serializer.py:211 | the keys of `OrderedDict(pairs)` are the pairs' keys in order of first occurrence, so a repeated key keeps its first position |
| Collections.Dedup | dataclass_serializer/dataclass_serializer.py:215 | `set(xs)` holds each element once and the same elements as `xs`, and keeps `xs` as it is when it has no repeats |
| Construction.ContractFailure | dataclass_serializer/dataclass_serializer.py:93-112 | `_validate_contracts` returns normally exactly when every field passes its check; otherwise it raises the check failure of the first field that fails, every earlier field passing |
| Construction.NoDefaultFailure | dataclass_serializer/dataclass_serializer.py:34-37 | the `__dict__` scan raises exactly when some attribute still holds `no_default`, and always a TypeError |
| Construction.FieldCheck | dataclass_serializer/dataclass_serializer.py:100-112 | one field passes exactly when it is valid; a missing attribute raises LookupError, None in a non-Optional field TypeError, and a present, allowed value its contract rejects ValueError, each exactly in its case |
| Construction.Construct | dataclass_serializer/dataclass_serializer.py:158 | `cls(**kwargs)` succeeds exactly when every argument names an `__init__` parameter, every field passes its checks and no argument is `no_default`, and builds the instance with exactly those attributes; an argument for an `init=False` field raises TypeError |
| Construction.UnexpectedKwarg | dataclass_serializer/dataclass_serializer.py:158 | the generated `__init__` accepts the arguments exactly when each names a field declared without `init=False`, and otherwise raises TypeError |
| Serializable.Serialize | dataclass_serializer/dataclass_serializer.py:48-91 | the serialize loop computes the entity serialization specified field by field in `Codec` |
| Serializable.GetAfterPop | dataclass_serializer/dataclass_serializer.py:123-125 | a lookup in the copy without the marker finds what the original holds under the field's name, and nothing under the marker's own name |
| Serializable.FieldValueFromPoppedCopy | dataclass_serializer/dataclass_serializer.py:134-154 | the per-field rule read through the popped copy: None for an absent Optional field, otherwise the stored value or default, ValueError when neither exists, else untagged and decoded |
| Serializable.Deserialize | dataclass_serializer/dataclass_serializer.py:121-158 | the deserialize loop computes the field-by-field deserialization specified in `Codec` |
| Serializable.ValidateContracts | dataclass_serializer/dataclass_serializer.py:93-112 | the loop raises exactly the first failure that `ContractFailure` specifies |
| Serializable.PostInit | dataclass_serializer/dataclass_serializer.py:31-37 | `__post_init__` raises the contract failure first, else the sentinel failure, and returns normally exactly when every field is valid and no attribute holds `no_default` |
| Serializable.ToDict | dataclass_serializer/dataclass_serializer.py:39-46 | `to_dict` succeeds exactly when every field is an attribute (else a LookupError), has one entry per field in declaration order, and stores each attribute's value unchanged |
| Serializable.Validate | dataclass_serializer/dataclass_serializer.py:114-119 | `validate` runs the contract checks, serializes, deserializes through the class and compares the declared fields with the instance's, as dataclass equality does, raising the first failure as specified |
| QualNames.SplitJoin | dataclass_serializer/dataclass_serializer.py:223 | `split(":")` of `"{}:{}".format(m, c)` gives back `m` and `c` when neither holds a colon |
| QualNames.JoinSplit | dataclass_serializer/dataclass_serializer.py:227 | every text `split(":")` unpacks into two parts is the join of two colon-free parts |
| QualNames.JoinHasColon | dataclass_serializer/dataclass_serializer.py:87-89 | a qualified class name always holds a colon |
| Dates.FormatThenParse | dataclass_serializer/dataclass_serializer.py:200-201 | `strftime("%Y%m%d")` of a valid date is eight characters that `strptime` parses back to the same date |
| Dates.ParseThenFormat | dataclass_serializer/dataclass_serializer.py:218-219 | every text `strptime("%Y%m%d")` accepts names a valid date and is that date's formatted text |
| Dates.NatText | dataclass_serializer/dataclass_serializer.py:220-221 | the decimal text of a natural number is nonempty digits without a leading zero |
| Dates.NatTextValue | dataclass_serializer/dataclass_serializer.py:220-221 | the decimal text of a natural number reads back as that number |
| Dates.IntText | dataclass_serializer/dataclass_serializer.py:220-221 | `str(n)` of an integer is its natural text, preceded by `-` exactly when negative |
| Dispatch.TagOf | dataclass_serializer/dataclass_serializer.py:209 | a dict carries a tag exactly when it holds the marker key |
| Dispatch.MarkedLayout | dataclass_serializer/dataclass_serializer.py:187 | a built-in tag stores its tag under the marker first and its payload under `value` second |
| Dispatch.UntagBuiltinMarked | dataclass_serializer/dataclass_serializer.py:209-226 | a dict marked with a built-in tag goes to that tag's payload reconstruction |
| Dispatch.OrderedDictIsTaggedFirst | dataclass_serializer/dataclass_serializer.py:180-181 | an OrderedDict is caught before the dict rule and tagged `OrderedDict`, its payload one untagged pair per entry in order |
| Dispatch.PlainDictStaysPlain | dataclass_serializer/dataclass_serializer.py:182-183 | a plain dict without the marker key stays unmarked, keeps its keys in order and tags each value |
| Dispatch.DateTimeIsNotDate | dataclass_serializer/dataclass_serializer.py:198-201 | a datetime is a date instance but is caught first, tagged `datetime` and never `date`, and comes back a datetime |
| Dispatch.PassThrough | dataclass_serializer/dataclass_serializer.py:204 | None, booleans, integers, strings and the sentinel pass both dispatchers unchanged |
| Dispatch.UntagLeavesOthers | dataclass_serializer/dataclass_serializer.py:233-234 | `_deserialize` returns every value that is neither a dict nor a list unchanged, tuples and sets included |
| Dispatch.ListTagElementwise | dataclass_serializer/dataclass_serializer.py:184-185 | tagging a list succeeds exactly when each element's tagging does, and gives the list of the tagged elements in order |
| Dispatch.TupleTagElementwise | dataclass_serializer/dataclass_serializer.py:186-187 | tagging a tuple succeeds exactly when each element's tagging does, and gives a `tuple` tag whose payload lists the tagged elements in order |
| Dispatch.ListUntagElementwise | dataclass_serializer/dataclass_serializer.py:231-232 | untagging a list succeeds exactly when each element's untagging does, and gives the list of the untagged elements in order |
| Dispatch.TupleUntagElementwise | dataclass_serializer/dataclass_serializer.py:212-213 | untagging a `tuple` tag succeeds exactly when each payload element's untagging does, and gives the tuple of those elements in order |
| Dispatch.ListRoundTrip | dataclass_serializer/dataclass_serializer.py:184-185 | a list comes back when each of its elements does |
| Dispatch.TupleRoundTrip | dataclass_serializer/dataclass_serializer.py:186-187 | a tuple comes back when each of its elements does |
| Dispatch.DateRoundTrip | dataclass_serializer/dataclass_serializer.py:200-201 | a valid date is tagged as eight digits `YYYYMMDD` and comes back as the same date |
| Dispatch.UntagPairReadsSubscripts | dataclass_serializer/dataclass_serializer.py:211 | each OrderedDict entry is `(v[0], _deserialize(v[1]))`: the first failing step's exception, else the pair |
| Dispatch.UntagClassMarkerFailures | dataclass_serializer/dataclass_serializer.py:227-229 | a marker that is not a string raises LookupError (no `.split`), one that does not split into two parts ValueError, an unresolvable `<module>:<name>` the LookupError of its resolution, and a resolved symbol that is not a Serializable dataclass LookupError (no `deserialize`) |
| Dispatch.UntagBuiltinMarkerFailures | dataclass_serializer/dataclass_serializer.py:210-226 | a built-in tag without a `value` key raises LookupError (KeyError); a `module`, `type` or `function` payload that is not a string, names no importable module or does not resolve raises LookupError, and a reference that does not split into two parts ValueError |
| EntityLaws.SerializeFieldsAsRun | dataclass_serializer/dataclass_serializer.py:56-91 | the serialize loop is a run over the per-field outcomes |
| EntityLaws.SerializeRunOk | dataclass_serializer/dataclass_serializer.py:58-85 | the run succeeds exactly when every remaining field succeeds |
| EntityLaws.SerializeRunFirstError | dataclass_serializer/dataclass_serializer.py:58-85 | the run raises the exception of the first field that fails |
| EntityLaws.SerializeRunHasKey | dataclass_serializer/dataclass_serializer.py:85-89 | a finished run holds a key exactly when it is the marker, an earlier key or a remaining field's name |
| EntityLaws.SerializeRunDistinct | dataclass_serializer/dataclass_serializer.py:85-89 | the dict a run builds never holds a key twice |
| EntityLaws.SerializeRunGetMeta | dataclass_serializer/dataclass_serializer.py:87-89 | the marker holds `"<module>:<name>"`, written after every field |
| EntityLaws.SerializeRunGetOther | dataclass_serializer/dataclass_serializer.py:85-89 | a key that is neither the marker nor a remaining field's name keeps its earlier value |
| EntityLaws.SerializeRunGetField | dataclass_serializer/dataclass_serializer.py:85 | each remaining field whose name is not the marker holds its own contribution |
| EntityLaws.SerializeEntityOutcome | dataclass_serializer/dataclass_serializer.py:48-91 | `serialize` raises TypeError for an undeclared class, otherwise succeeds exactly when every field does, and raises the first failing field's exception |
| EntityLaws.FieldBlobOutcome | dataclass_serializer/dataclass_serializer.py:58-85 | a field missing from the instance raises AttributeError, None in a non-Optional field TypeError, an encode hook without decode ValueError; otherwise the field contributes its value, encoded, then tagged |
| EntityLaws.SerializeEntityError | dataclass_serializer/dataclass_serializer.py:48-91 | when field `l` is the first to fail, `serialize` raises that field's AttributeError, TypeError, ValueError or tagging error, by the case that applies |
| EntityLaws.SerializeEntityShape | dataclass_serializer/dataclass_serializer.py:48-91 | a successful `serialize` yields a dict keyed exactly by the marker and the field names, distinct, with `"<module>:<name>"` under the marker and each field's contribution under its name |
| EntityLaws.DeserializeFieldsAsRun | dataclass_serializer/dataclass_serializer.py:129-158 | the deserialize loop is a run over the per-field outcomes |
| EntityLaws.DeserializeRunOk | dataclass_serializer/dataclass_serializer.py:156-158 | when every field has a value, the run constructs the instance from all of them in declaration order |
| EntityLaws.DeserializeRunFirstError | dataclass_serializer/dataclass_serializer.py:129-154 | the run raises the exception of the first field without a value |
| EntityLaws.DeserializeLaw | dataclass_serializer/dataclass_serializer.py:121-158 | `deserialize` constructs the instance from the fields' values when all have one, else raises the first field's exception |
| EntityLaws.InitFalseFieldRefused | dataclass_serializer/dataclass_serializer.py:127-158 | `deserialize` of a class that declares an `init=False` field always raises, a TypeError when every field has a value, since that field is passed to `cls(**o)` |
| EntityLaws.UnknownKeysIgnored | dataclass_serializer/dataclass_serializer.py:123-139 | two dicts that agree on the declared field names, the marker aside, deserialize alike |
| EntityLaws.UndeclaredKeyIgnored | dataclass_serializer/dataclass_serializer.py:123-139 | adding a key that names no field leaves deserialization unchanged |
| RoundTrip.SetRoundTrip | dataclass_serializer/dataclass_serializer.py:188-189 | a set of distinct primitives comes back as the same set |
| RoundTrip.UntagPrimitives | dataclass_serializer/dataclass_serializer.py:215 | a payload of primitives is untagged to itself |
| RoundTrip.UntagPairLists | dataclass_serializer/dataclass_serializer.py:211 | the pair lists of entries with primitive values are read back into the same entries |
| RoundTrip.ODictRoundTrip | dataclass_serializer/dataclass_serializer.py:180-181 | an OrderedDict with distinct hashable keys and primitive values comes back the same, in the same order |
| RoundTrip.DictRoundTrip | dataclass_serializer/dataclass_serializer.py:182-183 | a plain dict without the marker key comes back when each value does |
| RoundTrip.TypeRefRoundTrip | dataclass_serializer/dataclass_serializer.py:192-193 | a class reference comes back when its qualified name resolves to a class |
| RoundTrip.FuncRefRoundTrip | dataclass_serializer/dataclass_serializer.py:194-195 | a function reference comes back when its qualified name resolves to a function |
| RoundTrip.ModuleRefRoundTrip | dataclass_serializer/dataclass_serializer.py:196-197 | a module reference comes back when the module is importable |
| RoundTrip.DecimalRoundTrip | dataclass_serializer/dataclass_serializer.py:202-203 | a Decimal comes back from its text |
| RoundTrip.QualNameIsNotBuiltin | dataclass_serializer/dataclass_serializer.py:222-229 | no qualified class name equals a built-in tag, so a class's marker reaches the class branch |
| RoundTrip.WellShapedFieldBlobs | dataclass_serializer/dataclass_serializer.py:58-83 | for a well-shaped instance each field contributes its encoded value, tagged |
| RoundTrip.EntityBlobRoundTrip | dataclass_serializer/dataclass_serializer.py:48-158 | `C.deserialize(x.serialize()) == x` for a well-shaped instance whose encoded field values survive, the blob carrying its qualified name |
| RoundTrip.EntityRoundTrip | dataclass_serializer/dataclass_serializer.py:190-191 | an instance of an importable module comes back through both dispatchers when its encoded field values do |
| RoundTrip.TagUntag | dataclass_serializer/dataclass_serializer.py:179-234 | `_deserialize(_serialize(v)) == v` for every value satisfying `RoundTrips`, at any nesting depth |
| RoundTrip.ValidatePasses | dataclass_serializer/dataclass_serializer.py:114-119 | `validate` raises nothing for a well-shaped instance whose encoded field values can come back |

## Left out

- `import_module` and `getattr` become the `Registry`, a table of importable scopes and the symbols each defines. Importing has no side effects in the model.
- Annotations and `typing` introspection are not modelled. `_is_optional_field` becomes the `optional` flag of a field, fixed by the declaration.
- `encode`, `decode`, `contract` and `default_factory` become opaque total functions. Exceptions raised inside them are not modelled.
- The JSON text round trip in `validate` (`json.loads(json.dumps(...))`) is taken as the identity. A JSON text that would turn tuples into lists, or fail on an untagged value, is outside the model.
- `datetime` and `Decimal` values are carried by their `isoformat()` and `str()` texts. `fromisoformat` and `Decimal(...)` accept any text, and their own validation is not modelled.
- `%Y` in `strftime` is modelled as four zero-padded digits. Only the eight-digit form of `strptime("%Y%m%d")` is accepted; its laxer single-digit month and day forms are left out.
- Python's cross-type equality (`1 == True`, `0 == False`, `1 == 1.0`) in set deduplication, in OrderedDict keys and in the `validate` comparison is not modelled; values compare structurally. Floats are not modelled.
- Serializable.Validate: compares the declared fields of the two instances, as the generated `__eq__` does, but compares the field values themselves structurally, so an instance nested in a field is compared on all its attributes rather than on its declared fields.
- Values.Hashable: every dataclass instance counts as unhashable. A frozen dataclass, or one declared with `unsafe_hash`, hashes by its fields, and one declared with `eq=False` keeps the identity hash of `object`; any of these could be a set element or an OrderedDict key.
- A `Decimal` payload that is a `(sign, digits, exponent)` tuple or list, or a float, is reported as a TypeError; `Decimal` accepts those.
- A tuple, set or OrderedDict payload that is not a list becomes a TypeError. In the source some other iterables (a string, a dict) would be accepted. The entries of a list payload are modelled in full: lists, tuples, strings and dicts are subscripted, anything else raises TypeError.
- The exceptions `ImportError`, `AttributeError`, `KeyError` and `IndexError` are reported as `LookupError`.
- A marker naming a class that is not a registered dataclass is reported as a missing `deserialize`. The case of a Serializable subclass that is not a dataclass, where `dataclasses.fields` would raise TypeError, is not separated.
- Schema.FieldWF: the recursion is bounded only for declarations whose encode hooks never return a Serializable instance and whose defaults hold no marked dict. This is the termination measure of the two dispatchers.
- Construction.Construct: of the generated `__init__` only the refusal of an unknown keyword argument is modelled. Its assignment of the default to an `init=False` field, and its TypeError for a missing argument, are left out: `deserialize` passes every declared field, so the refusal always comes first.
- Serializable.Deserialize: requires the data to be a dict, as its annotation says; `data.copy()` on any other value is not modelled.
- RoundTrip.TagUntag: the round trip is proved only for sets and OrderedDicts with primitive elements and values. Their payloads travel untagged, so anything richer depends on the JSON text, which is not modelled.
- The `Partial` dataclass and the `partial` helper are not part of this model: they are ordinary users of `Serializable`. The module-level `deserialize` alias is `Codec.Untag` itself.
- Mutation of the caller's dict is not modelled: `data.copy()` makes `deserialize` leave it unchanged, so the model treats dicts as values.
