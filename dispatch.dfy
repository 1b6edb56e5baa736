/** Laws of the two dispatchers taken one kind at a time: which rule of the
    first-match chain a kind falls under, element-wise handling of lists and
    tuples, and the date text. */
module Dispatch {
  import opened Results
  import opened Collections
  import opened Values
  import opened Dates
  import opened QualNames
  import opened Schema
  import opened Codec

  /** The tag a marked dict carries. */
  function TagOf(v: Value): (r: Option<Value>)
    requires IsDictInstance(v)
    ensures r.Some? <==> IsMarked(v)
  {
    Get(v.entries, Str(Meta))
  }

  /** The marker position and the payload of a built-in tag. */
  lemma MarkedLayout(tag: string, p: Value)
    ensures IndexOf(Marked(tag, p).entries, Str(Meta)) == Some(0)
    ensures IndexOf(Marked(tag, p).entries, Str(Payload)) == Some(1)
    ensures TagOf(Marked(tag, p)) == Some(Str(tag))
    ensures Get(Marked(tag, p).entries, Str(Payload)) == Some(p)
  {
    assert Str(Payload) != Str(Meta);
  }

  /** The untagger sends a built-in tag to the payload reconstruction. */
  lemma UntagBuiltinMarked(reg: Registry, tag: string, p: Value)
    requires RegistryWF(reg) && IsBuiltinTag(tag)
    ensures Untag(reg, Marked(tag, p)) == UntagBuiltin(reg, Marked(tag, p), tag, 1)
  {
    MarkedLayout(tag, p);
    assert Untag(reg, Marked(tag, p)) == UntagMarked(reg, Marked(tag, p), 0);
  }

  /** An OrderedDict is caught by its own rule before the dict rule: it becomes
      a marked dict whose payload lists its entries as `[key, value]` pairs in
      insertion order, neither part tagged. */
  lemma OrderedDictIsTaggedFirst(reg: Registry, es: seq<(Value, Value)>)
    requires RegistryWF(reg)
    ensures Tag(reg, ODict(es)).Ok?
    ensures var b := Tag(reg, ODict(es)).value;
            b.Dict? && TagOf(b) == Some(Str("OrderedDict")) &&
            exists ps :: Get(b.entries, Str(Payload)) == Some(List(ps)) && |ps| == |es| &&
                         forall i :: 0 <= i < |es| ==> ps[i] == List([es[i].0, es[i].1])
  {
    MarkedLayout("OrderedDict", List(PairLists(es)));
  }

  /** A plain dict whose keys avoid the marker stays unmarked when tagged: it
      keeps its keys, in order, with each value tagged. */
  lemma {:induction false} PlainDictStaysPlain(reg: Registry, es: seq<(Value, Value)>)
    requires RegistryWF(reg) && !HasKey(es, Str(Meta))
    requires Tag(reg, Dict(es)).Ok?
    ensures var b := Tag(reg, Dict(es)).value;
            b.Dict? && !IsMarked(b) && Keys(b.entries) == Keys(es) &&
            forall i :: 0 <= i < |es| ==> Tag(reg, es[i].1) == Ok(b.entries[i].1)
  {
    var b := Tag(reg, Dict(es)).value;
    assert b.entries == TagEntries(reg, Dict(es), 0).value;
    assert Keys(b.entries) == Keys(es);
    IndexOfUnderSameKeys(es, b.entries, Str(Meta));
  }

  /** A datetime is caught by its own rule before the date rule, and comes back
      a datetime rather than a date. */
  lemma DateTimeIsNotDate(reg: Registry, iso: string)
    requires RegistryWF(reg)
    ensures IsDateInstance(DateTime(iso))
    ensures Tag(reg, DateTime(iso)) == Ok(Marked("datetime", Str(iso)))
    ensures TagOf(Tag(reg, DateTime(iso)).value) != Some(Str("date"))
    ensures Untag(reg, Tag(reg, DateTime(iso)).value) == Ok(DateTime(iso))
  {
    MarkedLayout("datetime", Str(iso));
    UntagBuiltinMarked(reg, "datetime", Str(iso));
  }

  /** A value no rule of the tagger matches comes back unchanged, and the
      untagger leaves it unchanged too. */
  lemma PassThrough(reg: Registry, v: Value)
    requires RegistryWF(reg) && (Primitive(v) || v.NoDefault?)
    ensures Tag(reg, v) == Ok(v)
    ensures Untag(reg, v) == Ok(v)
  {
  }

  /** The untagger looks only into dicts and lists: every other value, a
      tuple or a set included, is returned as it is. */
  lemma UntagLeavesOthers(reg: Registry, x: Value)
    requires RegistryWF(reg) && !IsDictInstance(x) && !x.List?
    ensures Untag(reg, x) == Ok(x)
  {
  }

  /** Tagging a list tags each element in order and keeps the length. */
  lemma ListTagElementwise(reg: Registry, xs: seq<Value>)
    requires RegistryWF(reg)
    ensures Tag(reg, List(xs)).Ok? <==> forall i :: 0 <= i < |xs| ==> Tag(reg, xs[i]).Ok?
    ensures Tag(reg, List(xs)).Ok? ==>
              var b := Tag(reg, List(xs)).value;
              b.List? && |b.items| == |xs| && forall i :: 0 <= i < |xs| ==> Tag(reg, xs[i]) == Ok(b.items[i])
  {
    assert forall i :: 0 <= i < |xs| ==> List(xs).items[i] == xs[i];
  }

  /** A tuple becomes a marked dict whose payload is the list of its elements,
      each tagged, in order. */
  lemma TupleTagElementwise(reg: Registry, xs: seq<Value>)
    requires RegistryWF(reg)
    ensures Tag(reg, Tuple(xs)).Ok? <==> forall i :: 0 <= i < |xs| ==> Tag(reg, xs[i]).Ok?
    ensures Tag(reg, Tuple(xs)).Ok? ==>
              exists ys :: Tag(reg, Tuple(xs)) == Ok(Marked("tuple", List(ys))) && |ys| == |xs| &&
                           forall i :: 0 <= i < |xs| ==> Tag(reg, xs[i]) == Ok(ys[i])
  {
    assert forall i :: 0 <= i < |xs| ==> Tuple(xs).items[i] == xs[i];
    if Tag(reg, Tuple(xs)).Ok? {
      var ys := TagItems(reg, Tuple(xs), 0).value;
      assert Tag(reg, Tuple(xs)) == Ok(Marked("tuple", List(ys)));
    }
  }

  /** Untagging a list untags each element in order. */
  lemma ListUntagElementwise(reg: Registry, ys: seq<Value>)
    requires RegistryWF(reg)
    ensures Untag(reg, List(ys)).Ok? <==> forall i :: 0 <= i < |ys| ==> Untag(reg, ys[i]).Ok?
    ensures Untag(reg, List(ys)).Ok? ==>
              var b := Untag(reg, List(ys)).value;
              b.List? && |b.items| == |ys| && forall i :: 0 <= i < |ys| ==> Untag(reg, ys[i]) == Ok(b.items[i])
  {
    assert forall i :: 0 <= i < |ys| ==> List(ys).items[i] == ys[i];
  }

  /** Untagging a tuple tag untags each element of its payload in order. */
  lemma TupleUntagElementwise(reg: Registry, ys: seq<Value>)
    requires RegistryWF(reg)
    ensures Untag(reg, Marked("tuple", List(ys))).Ok? <==> forall i :: 0 <= i < |ys| ==> Untag(reg, ys[i]).Ok?
    ensures Untag(reg, Marked("tuple", List(ys))).Ok? ==>
              var b := Untag(reg, Marked("tuple", List(ys))).value;
              b.Tuple? && |b.items| == |ys| && forall i :: 0 <= i < |ys| ==> Untag(reg, ys[i]) == Ok(b.items[i])
  {
    UntagBuiltinMarked(reg, "tuple", List(ys));
    assert forall i :: 0 <= i < |ys| ==> List(ys).items[i] == ys[i];
  }

  /** Untagging after tagging gives a list back when it does so for each element. */
  lemma ListRoundTrip(reg: Registry, xs: seq<Value>)
    requires RegistryWF(reg)
    requires forall i :: 0 <= i < |xs| ==> Tag(reg, xs[i]).Ok? && Untag(reg, Tag(reg, xs[i]).value) == Ok(xs[i])
    ensures Tag(reg, List(xs)).Ok? && Untag(reg, Tag(reg, List(xs)).value) == Ok(List(xs))
  {
    ListTagElementwise(reg, xs);
    var ys := Tag(reg, List(xs)).value.items;
    ListUntagElementwise(reg, ys);
    assert Untag(reg, List(ys)).value.items == xs;
  }

  /** Untagging after tagging gives a tuple back when it does so for each element. */
  lemma TupleRoundTrip(reg: Registry, xs: seq<Value>)
    requires RegistryWF(reg)
    requires forall i :: 0 <= i < |xs| ==> Tag(reg, xs[i]).Ok? && Untag(reg, Tag(reg, xs[i]).value) == Ok(xs[i])
    ensures Tag(reg, Tuple(xs)).Ok? && Untag(reg, Tag(reg, Tuple(xs)).value) == Ok(Tuple(xs))
  {
    TupleTagElementwise(reg, xs);
    var ys :| Tag(reg, Tuple(xs)) == Ok(Marked("tuple", List(ys))) && |ys| == |xs| &&
              forall i :: 0 <= i < |xs| ==> Tag(reg, xs[i]) == Ok(ys[i]);
    TupleUntagElementwise(reg, ys);
    assert Untag(reg, Marked("tuple", List(ys))).value.items == xs;
  }

  /** A valid date is tagged as its eight-digit `YYYYMMDD` text, which the
      untagger parses back to the same date. */
  lemma DateRoundTrip(reg: Registry, y: nat, m: nat, d: nat)
    requires RegistryWF(reg) && ValidDate(y, m, d)
    ensures Tag(reg, Date(y, m, d)) == Ok(Marked("date", Str(FormatDate(y, m, d))))
    ensures |FormatDate(y, m, d)| == 8 && AllDigits(FormatDate(y, m, d))
    ensures Untag(reg, Tag(reg, Date(y, m, d)).value) == Ok(Date(y, m, d))
  {
    FormatThenParse(y, m, d);
    UntagBuiltinMarked(reg, "date", Str(FormatDate(y, m, d)));
  }

  /** An OrderedDict payload entry `v` is read as `(v[0], _deserialize(v[1]))`:
      the first subscript's exception, else the second's, else the untagging's,
      else the pair of the first part and the untagged second part. */
  lemma UntagPairReadsSubscripts(reg: Registry, p: Value, i: nat)
    requires RegistryWF(reg) && p.List? && i < |p.items|
    ensures var k := Subscript(p.items[i], 0);
            var w := Subscript(p.items[i], 1);
            UntagPair(reg, p, i) ==
              if k.Err? then Err(k.error)
              else if w.Err? then Err(w.error)
              else if Untag(reg, w.value).Err? then Err(Untag(reg, w.value).error)
              else Ok((k.value, Untag(reg, w.value).value))
  {
    var v := p.items[i];
    if v.Str? && |v.s| >= 2 {
      assert Untag(reg, Str([v.s[1]])) == Ok(Str([v.s[1]]));
    }
  }

  /** How `_deserialize` fails on a dict whose marker is not a built-in tag:
      a marker that is no string has no `.split` (AttributeError, a
      LookupError); one that does not split into two parts fails to unpack
      (ValueError); an unresolvable `<module>:<name>` raises the LookupError of
      `Resolve`; a resolved symbol that is not a Serializable dataclass has no
      `deserialize` (AttributeError, a LookupError). */
  lemma UntagClassMarkerFailures(reg: Registry, x: Value, k: nat)
    requires RegistryWF(reg) && IsDictInstance(x) && IndexOf(x.entries, Str(Meta)) == Some(k)
    ensures var t := x.entries[k].1;
            && (!t.Str? ==> Untag(reg, x).Err? && Untag(reg, x).error.LookupError?)
            && (t.Str? && !IsBuiltinTag(t.s) && Split(t.s).None? ==>
                  Untag(reg, x) == Err(ValueError("marker is not of the form <module>:<name>")))
            && (t.Str? && !IsBuiltinTag(t.s) && Split(t.s).Some? ==>
                  var (m, c) := Split(t.s).value;
                  && (Resolve(reg, m, c).Err? ==>
                        Untag(reg, x) == Err(Resolve(reg, m, c).error) && Untag(reg, x).error.LookupError?)
                  && (Resolve(reg, m, c).Ok? && !Resolve(reg, m, c).value.EntityClass? ==>
                        Untag(reg, x).Err? && Untag(reg, x).error.LookupError?))
  {
    assert Untag(reg, x) == UntagMarked(reg, x, k);
  }

  /** How `_deserialize` fails on a dict marked with a built-in tag: without a
      `value` key it raises KeyError (a LookupError); a `module`, `type` or
      `function` payload that is no string has no string methods
      (AttributeError, a LookupError); a module that is not importable, or a
      `<module>:<name>` that does not resolve, raises a LookupError; a
      reference that does not split into two parts fails to unpack
      (ValueError). */
  lemma UntagBuiltinMarkerFailures(reg: Registry, x: Value, k: nat)
    requires RegistryWF(reg) && IsDictInstance(x) && IndexOf(x.entries, Str(Meta)) == Some(k)
    requires x.entries[k].1.Str? && IsBuiltinTag(x.entries[k].1.s)
    ensures var t := x.entries[k].1.s;
            var p := Get(x.entries, Str(Payload));
            && (p.None? ==> Untag(reg, x) == Err(LookupError("KeyError: 'value'")))
            && (p.Some? && t in ["module", "type", "function"] && !p.value.Str? ==>
                  Untag(reg, x).Err? && Untag(reg, x).error.LookupError?)
            && (p.Some? && t == "module" && p.value.Str? && p.value.s !in reg.modules ==>
                  Untag(reg, x).Err? && Untag(reg, x).error.LookupError?)
            && (p.Some? && t in ["type", "function"] && p.value.Str? && Split(p.value.s).None? ==>
                  Untag(reg, x).Err? && Untag(reg, x).error.ValueError?)
            && (p.Some? && t in ["type", "function"] && p.value.Str? && Split(p.value.s).Some? &&
                Resolve(reg, Split(p.value.s).value.0, Split(p.value.s).value.1).Err? ==>
                  Untag(reg, x).Err? && Untag(reg, x).error.LookupError?)
  {
    var t := x.entries[k].1.s;
    assert Untag(reg, x) == UntagMarked(reg, x, k);
    match IndexOf(x.entries, Str(Payload))
    case None =>
    case Some(j) =>
      var p := x.entries[j].1;
      assert Untag(reg, x) == UntagBuiltin(reg, x, t, j);
      if t in ["module", "type", "function"] {
        assert t != "OrderedDict" && t != "tuple" && t != "set" && t != "Decimal" && t != "datetime" && t != "date";
        if p.Str? && t != "module" {
          match Split(p.s)
          case None =>
          case Some((m, c)) =>
            assert Resolve(reg, m, c).Err? ==> Untag(reg, x) == Err(Resolve(reg, m, c).error);
        }
      }
  }
}
