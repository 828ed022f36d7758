/** The `pathname` of `new URL(s)`, for absolute URLs of the form scheme "://" host path [?query] [#fragment]. */
module Url {
  import opened Wrappers
  import opened Text

  predicate SchemeStart(c: char)
  {
    'a' <= c <= 'z' || 'A' <= c <= 'Z'
  }

  predicate SchemeChar(c: char)
  {
    SchemeStart(c) || '0' <= c <= '9' || c == '+' || c == '-' || c == '.'
  }

  predicate IsScheme(s: string)
  {
    |s| >= 1 && SchemeStart(s[0]) && forall i :: 0 <= i < |s| ==> SchemeChar(s[i])
  }

  const SchemeStops: set<char> := {':'}
  const HostStops: set<char> := {'/', '?', '#'}
  const PathStops: set<char> := {'?', '#'}

  /**
   * `new URL(s).pathname`; None where the constructor throws. The path is what follows the host,
   * up to the query or fragment, and is "/" when empty.
   */
  function PathName(s: string): (r: Option<string>)
    ensures r.Some? ==> |r.value| >= 1 && r.value[0] == '/'
    ensures r.Some? ==> forall i :: 0 <= i < |r.value| ==> r.value[i] !in PathStops
  {
    var scheme := TakeUntil(s, SchemeStops);
    var n := |scheme|;
    if !IsScheme(scheme) || n + 3 > |s| || s[n..n + 3] != "://" then None
    else HierPath(s[n + 3..])
  }

  /** The path of what follows "scheme://": a non-empty host, then the path up to '?' or '#'. */
  function HierPath(rest: string): (r: Option<string>)
    ensures r.Some? ==> |r.value| >= 1 && r.value[0] == '/'
    ensures r.Some? ==> forall i :: 0 <= i < |r.value| ==> r.value[i] !in PathStops
  {
    var host := TakeUntil(rest, HostStops);
    if host == "" then None
    else
      var path := TakeUntil(rest[|host|..], PathStops);
      if path == "" then Some("/") else Some(path)
  }

  /** A host free of '/', '?' and '#', then a path free of '?' and '#': the path is recovered. */
  lemma {:induction false} HierPathOf(host: string, path: string)
    requires host != ""
    requires forall i :: 0 <= i < |host| ==> host[i] !in HostStops
    requires |path| >= 1 && path[0] == '/'
    requires forall i :: 0 <= i < |path| ==> path[i] !in PathStops
    ensures HierPath(host + path) == Some(path)
  {
    var rest := host + path;
    TakeUntilPrefix(host, path, HostStops);
    assert rest[|host|..] == path;
    TakeUntilPrefix(path, "", PathStops);
    assert path + "" == path;
  }

  /** After a valid scheme and "://", the path is read from what follows. */
  lemma {:induction false} PathNameAfterScheme(scheme: string, rest: string)
    requires IsScheme(scheme)
    ensures PathName(scheme + "://" + rest) == HierPath(rest)
  {
    var tail := "://" + rest;
    var s := scheme + tail;
    assert scheme + "://" + rest == s;
    assert forall i :: 0 <= i < |scheme| ==> scheme[i] !in SchemeStops by {
      forall i | 0 <= i < |scheme| ensures scheme[i] !in SchemeStops { assert SchemeChar(scheme[i]); }
    }
    TakeUntilPrefix(scheme, tail, SchemeStops);
    var n := |scheme|;
    assert s[n..] == tail;
    assert s[n..n + 3] == "://";
    assert s[n + 3..] == rest;
  }

  /** Parsing `scheme://host` followed by a path free of '?' and '#' yields that path. */
  lemma {:induction false} PathNameOf(scheme: string, host: string, path: string)
    requires IsScheme(scheme) && host != ""
    requires forall i :: 0 <= i < |host| ==> host[i] !in HostStops
    requires |path| >= 1 && path[0] == '/'
    requires forall i :: 0 <= i < |path| ==> path[i] !in PathStops
    ensures PathName(scheme + "://" + host + path) == Some(path)
  {
    assert scheme + "://" + host + path == scheme + "://" + (host + path);
    PathNameAfterScheme(scheme, host + path);
    HierPathOf(host, path);
  }
}
