/** The slice of Envoy's HTTP filter interface that the backend-routing
    filter touches: header entries, the header map it edits in place, and the
    statuses a decoder filter returns to the filter chain. */
module Http {
  import opened Strings

  /** One header entry; Envoy stores names lower-cased. */
  datatype Header = Header(name: string, value: string)

  /** The name of the request-path pseudo-header. */
  const PathName: string := ":path"

  /** What a decoder filter tells the chain after seeing the headers. */
  datatype FilterHeadersStatus =
    | Continue
    | StopIteration
    | ContinueAndEndStream
    | StopAllIterationAndBuffer
    | StopAllIterationAndWatermark

  /** What a decoder filter tells the chain after seeing a body chunk. */
  datatype FilterDataStatus =
    | Continue
    | StopIterationAndBuffer
    | StopIterationAndWatermark
    | StopIterationNoBuffer

  /** What a decoder filter tells the chain after seeing the trailers. */
  datatype FilterTrailersStatus = Continue | StopIteration

  /** The entries of `hs` not named `name`, each as often as before and in
      their original order (`WithoutConcat` shows the order is kept). */
  function Without(hs: seq<Header>, name: string): (r: seq<Header>)
    ensures forall h :: h in r <==> h in hs && h.name != name
    ensures forall h: Header :: h.name != name ==> multiset(r)[h] == multiset(hs)[h]
    ensures |r| <= |hs|
  {
    if |hs| == 0 then []
    else
      assert hs == [hs[0]] + hs[1..];
      if hs[0].name == name then Without(hs[1..], name)
      else [hs[0]] + Without(hs[1..], name)
  }

  /** How many entries of `hs` are named `name`. */
  function Count(hs: seq<Header>, name: string): nat {
    if |hs| == 0 then 0
    else (if hs[0].name == name then 1 else 0) + Count(hs[1..], name)
  }

  /** The value of the first entry named `name`, if any. */
  function FirstValue(hs: seq<Header>, name: string): (r: Option<string>)
    ensures r.Some? ==> Header(name, r.value) in hs
    ensures r.None? <==> forall h :: h in hs ==> h.name != name
  {
    if |hs| == 0 then None
    else if hs[0].name == name then Some(hs[0].value)
    else FirstValue(hs[1..], name)
  }

  lemma {:induction false} WithoutConcat(a: seq<Header>, b: seq<Header>, name: string)
    ensures Without(a + b, name) == Without(a, name) + Without(b, name)
  {
    if |a| > 0 {
      assert (a + b)[1..] == a[1..] + b;
      WithoutConcat(a[1..], b, name);
    } else {
      assert a + b == b;
    }
  }

  lemma {:induction false} CountConcat(a: seq<Header>, b: seq<Header>, name: string)
    ensures Count(a + b, name) == Count(a, name) + Count(b, name)
  {
    if |a| > 0 {
      assert (a + b)[1..] == a[1..] + b;
      CountConcat(a[1..], b, name);
    } else {
      assert a + b == b;
    }
  }

  /** A header list holding no entry named `name` counts none of them, and
      removing them changes nothing. */
  lemma {:induction false} Absent(hs: seq<Header>, name: string)
    requires forall h :: h in hs ==> h.name != name
    ensures Count(hs, name) == 0
    ensures Without(hs, name) == hs
  {
    if |hs| > 0 {
      assert hs[0] in hs;
      assert forall h :: h in hs[1..] ==> h in hs;
      Absent(hs[1..], name);
      assert hs == [hs[0]] + hs[1..];
    }
  }

  /** Entries before the first one named `name` do not change its value. */
  lemma {:induction false} FirstValueSkip(a: seq<Header>, b: seq<Header>, name: string)
    requires forall h :: h in a ==> h.name != name
    ensures FirstValue(a + b, name) == FirstValue(b, name)
  {
    if |a| > 0 {
      assert a[0] in a;
      assert forall h :: h in a[1..] ==> h in a;
      assert (a + b)[1..] == a[1..] + b;
      FirstValueSkip(a[1..], b, name);
    } else {
      assert a + b == b;
    }
  }

  /** Removing every entry named `name` and then adding one with `value`
      leaves exactly one such entry, holding `value`, and every other entry
      as it was. */
  lemma ReplaceLeavesOneEntry(hs: seq<Header>, name: string, value: string)
    ensures Count(Without(hs, name) + [Header(name, value)], name) == 1
    ensures FirstValue(Without(hs, name) + [Header(name, value)], name) == Some(value)
    ensures Without(Without(hs, name) + [Header(name, value)], name) == Without(hs, name)
  {
    var rest := Without(hs, name);
    var added := [Header(name, value)];
    Absent(rest, name);
    CountConcat(rest, added, name);
    WithoutConcat(rest, added, name);
    FirstValueSkip(rest, added, name);
    assert added[1..] == [];
  }

  /** A request's header map, edited in place by the filters of the chain. */
  class HeaderMap {
    var entries: seq<Header>

    constructor (entries: seq<Header>)
      ensures this.entries == entries
    {
      this.entries := entries;
    }

    /** The value of the header `name`, as the inline accessor
        (`headers.Path()`) returns it; `None` when the header is absent. */
    function Get(name: string): (r: Option<string>)
      reads this
      ensures r.Some? ==> Header(name, r.value) in entries
      ensures r.None? <==> forall h :: h in entries ==> h.name != name
    {
      FirstValue(entries, name)
    }

    /** Drops every entry named `name`. */
    method Remove(name: string)
      modifies this
      ensures entries == Without(old(entries), name)
    {
      entries := Without(entries, name);
    }

    /** Adds an entry holding copies of `name` and `value`. */
    method AddCopy(name: string, value: string)
      modifies this
      ensures entries == old(entries) + [Header(name, value)]
    {
      entries := entries + [Header(name, value)];
    }
  }
}
