/** Character search and the split of a request path into its path part and
    its query string, as the backend-routing filter sees them. */
module Strings {

  datatype Option<T> = None | Some(value: T)

  /** Position of the first occurrence of `c` in `s`, as `std::string::find`
      reports it for a single character; `None` stands for `npos`. */
  function FindFirst(s: string, c: char): (r: Option<nat>)
    ensures r.Some? ==> r.value < |s| && s[r.value] == c
    ensures r.Some? ==> forall j :: 0 <= j < r.value ==> s[j] != c
    ensures r.None? <==> c !in s
  {
    if |s| == 0 then None
    else if s[0] == c then Some(0)
    else match FindFirst(s[1..], c)
      case None => None
      case Some(i) => Some(i + 1)
  }

  /** Searching past a stretch free of `c` finds the first `c` after it. */
  lemma FindFirstAfter(a: string, b: string, c: char)
    requires c !in a
    ensures FindFirst(a + b, c) == match FindFirst(b, c)
                                  case None => None
                                  case Some(i) => Some(|a| + i)
  {
    var ab := a + b;
    match FindFirst(b, c)
    case None =>
      assert c !in ab by {
        forall k | 0 <= k < |ab| ensures ab[k] != c {
          if k < |a| { assert ab[k] == a[k]; } else { assert ab[k] == b[k - |a|]; }
        }
      }
    case Some(i) =>
      assert ab[|a| + i] == c;
      forall j | 0 <= j < |a| + i ensures ab[j] != c {
        if j < |a| { assert ab[j] == a[j]; } else { assert ab[j] == b[j - |a|]; }
      }
  }

  /** The path of a request target (the `:path` value) without its query: everything before the
      first '?', or the whole of it when there is none. */
  function PathPart(url: string): (p: string)
    ensures '?' !in p
  {
    match FindFirst(url, '?')
    case None => url
    case Some(i) => url[..i]
  }

  /** The query string of a request target: the text after the first '?', or
      `None` when the target has no '?' at all. */
  function QueryString(url: string): (q: Option<string>)
    ensures q.None? <==> '?' !in url
  {
    match FindFirst(url, '?')
    case None => None
    case Some(i) => Some(url[i + 1..])
  }

  /** Reassembles a request target from its two parts. */
  function JoinUrl(path: string, query: Option<string>): string {
    match query
    case None => path
    case Some(q) => path + "?" + q
  }

  /** Splitting a request target at its first '?' and joining the parts again
      gives the target back. */
  lemma SplitJoin(url: string)
    ensures JoinUrl(PathPart(url), QueryString(url)) == url
  {
    match FindFirst(url, '?')
    case None =>
    case Some(i) =>
      assert url == url[..i] + "?" + url[i + 1..];
  }

  /** Joining a '?'-free path with a query and splitting again gives the two
      parts back. */
  lemma JoinSplit(path: string, query: Option<string>)
    requires '?' !in path
    ensures PathPart(JoinUrl(path, query)) == path
    ensures QueryString(JoinUrl(path, query)) == query
  {
    match query
    case None =>
    case Some(q) =>
      var tail := "?" + q;
      assert path + "?" + q == path + tail;
      assert FindFirst(tail, '?') == Some(0);
      FindFirstAfter(path, tail, '?');
      assert (path + tail)[..|path|] == path;
      assert (path + tail)[|path| + 1..] == q;
  }
}
