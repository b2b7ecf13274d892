/**
 * A minimal stand-in for wp_parse_url(): a URL is split into host and path
 * as `scheme://host/path?query#fragment`. A string without "://" has no host
 * and is all path, as PHP's parse_url() treats "github.com/owner/repo".
 */
module Urls {
  import opened Php

  datatype UrlParts = UrlParts(host: string, path: string)

  /** Index of the first "://" in s, if any. */
  function SchemeSeparator(s: string): (r: Option<nat>)
    ensures r.Some? ==> r.value + 3 <= |s| && s[r.value..r.value + 3] == "://"
    decreases |s|
  {
    if |s| < 3 then None
    else if s[..3] == "://" then Some(0)
    else match SchemeSeparator(s[1..])
      case Some(i) => Some(i + 1)
      case None => None
  }

  /** The path runs up to the first '?' or '#'. */
  function PathPart(s: string): string {
    s[..FirstOf(s, {'?', '#'})]
  }

  function ParseUrl(s: string): UrlParts {
    match SchemeSeparator(s)
    case Some(i) =>
      var rest := s[i + 3..];
      var h := FirstOf(rest, {'/', '?', '#'});
      UrlParts(rest[..h], PathPart(rest[h..]))
    case None => UrlParts("", PathPart(s))
  }

  /** The first "://" is found right after a scheme that holds no ':'. */
  lemma {:induction false} SchemeSeparatorAfter(scheme: string, rest: string)
    requires ':' !in scheme
    ensures SchemeSeparator(scheme + "://" + rest) == Some(|scheme|)
    decreases |scheme|
  {
    var s := scheme + "://" + rest;
    if scheme == [] {
      assert s[..3] == "://";
    } else {
      assert s[..3] != "://" by { assert s[0] == scheme[0]; }
      assert s[1..] == scheme[1..] + "://" + rest;
      SchemeSeparatorAfter(scheme[1..], rest);
    }
  }

  /** Characters that end a host. */
  predicate HostChar(c: char) {
    c != '/' && c != '?' && c != '#'
  }

  /** Characters that may appear in a path (no query or fragment start). */
  predicate PathChar(c: char) {
    c != '?' && c != '#'
  }

  /** The host of `host + path + tail` ends where the path or the tail begins. */
  lemma HostSplit(host: string, path: string, tail: string)
    requires forall j :: 0 <= j < |host| ==> HostChar(host[j])
    requires path == [] || path[0] == '/'
    requires tail == [] || tail[0] == '?' || tail[0] == '#'
    ensures var r := host + (path + tail);
      var h := FirstOf(r, {'/', '?', '#'});
      r[..h] == host && r[h..] == path + tail
  {
    var after := path + tail;
    assert after == [] || after[0] in {'/', '?', '#'};
    forall j | 0 <= j < |host| ensures host[j] !in {'/', '?', '#'} {
      assert HostChar(host[j]);
    }
    FirstOfAppend(host, after, {'/', '?', '#'});
    ConcatParts(host, after);
  }

  /** The path part of a path followed by a query or fragment is the path. */
  lemma PathEnd(path: string, tail: string)
    requires forall j :: 0 <= j < |path| ==> PathChar(path[j])
    requires tail == [] || tail[0] == '?' || tail[0] == '#'
    ensures PathPart(path + tail) == path
  {
    forall j | 0 <= j < |path| ensures path[j] !in {'?', '#'} {
      assert PathChar(path[j]);
    }
    FirstOfAppend(path, tail, {'?', '#'});
    assert (path + tail)[..|path|] == path;
  }

  /**
   * The splitter recovers host and path from `scheme://host` + path + tail
   * when the tail is empty or starts a query or fragment.
   */
  lemma ParseUrlOf(scheme: string, host: string, path: string, tail: string)
    requires ':' !in scheme
    requires forall j :: 0 <= j < |host| ==> HostChar(host[j])
    requires path == [] || path[0] == '/'
    requires forall j :: 0 <= j < |path| ==> PathChar(path[j])
    requires tail == [] || tail[0] == '?' || tail[0] == '#'
    ensures ParseUrl(scheme + "://" + host + path + tail) == UrlParts(host, path)
  {
    var rest := host + (path + tail);
    UrlRegroup(scheme + "://", host, path, tail);
    SchemeSeparatorAfter(scheme, rest);
    ConcatParts(scheme + "://", rest);
    ParseUrlAt(scheme + "://" + rest, |scheme|, rest);
    HostSplit(host, path, tail);
    PathEnd(path, tail);
  }

  lemma UrlRegroup(a: string, host: string, path: string, tail: string)
    ensures a + host + path + tail == a + (host + (path + tail))
  {
  }

  /** The splitter on a URL whose first "://" is at i. */
  lemma ParseUrlAt(s: string, i: nat, rest: string)
    requires SchemeSeparator(s) == Some(i) && s[i + 3..] == rest
    ensures ParseUrl(s) == UrlParts(rest[..FirstOf(rest, {'/', '?', '#'})], PathPart(rest[FirstOf(rest, {'/', '?', '#'})..]))
  {
  }
}
