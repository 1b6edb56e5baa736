/** Fully-qualified identifiers `"<scope>:<name>"`, written with `"{}:{}".format`
    and read back with `m, c = s.split(":")`. */
module QualNames {
  import opened Results

  predicate NoColon(s: string) { forall i :: 0 <= i < |s| ==> s[i] != ':' }

  function Join(scope: string, name: string): string {
    scope + ":" + name
  }

  /** The position of the first ':' in `s`. */
  function ColonAt(s: string): (r: Option<nat>)
    ensures r.None? <==> NoColon(s)
    ensures r.Some? ==> r.value < |s| && s[r.value] == ':' && NoColon(s[..r.value])
  {
    if |s| == 0 then None
    else if s[0] == ':' then Some(0)
    else match ColonAt(s[1..])
      case None => None
      case Some(j) =>
        assert s[..j + 1] == [s[0]] + s[1..][..j];
        Some(j + 1)
  }

  /** `m, c = s.split(":")`: succeeds exactly when `s` holds one ':';
      None where the unpacking raises ValueError. */
  function Split(s: string): Option<(string, string)> {
    match ColonAt(s)
    case None => None
    case Some(i) => if NoColon(s[i + 1..]) then Some((s[..i], s[i + 1..])) else None
  }

  /** Splitting a joined identifier gives back both parts when neither holds a ':'. */
  lemma SplitJoin(scope: string, name: string)
    requires NoColon(scope) && NoColon(name)
    ensures Split(Join(scope, name)) == Some((scope, name))
  {
    var s := Join(scope, name);
    assert s[|scope|] == ':';
    assert s[..|scope|] == scope && s[|scope| + 1..] == name;
    assert forall i :: 0 <= i < |scope| ==> s[i] == scope[i];
  }

  /** What Split accepts is exactly a join of two colon-free parts. */
  lemma JoinSplit(s: string)
    requires Split(s).Some?
    ensures NoColon(Split(s).value.0) && NoColon(Split(s).value.1)
    ensures Join(Split(s).value.0, Split(s).value.1) == s
  {
    var i := ColonAt(s).value;
    assert s == s[..i] + [s[i]] + s[i + 1..];
  }

  /** A joined identifier always holds a ':' and so never equals a colon-free tag. */
  lemma JoinHasColon(scope: string, name: string)
    ensures !NoColon(Join(scope, name))
  {
    assert Join(scope, name)[|scope|] == ':';
  }
}
