/** Hosts named anywhere in a tool call's arguments or result (cmd/src/guard.rs). */
module Hosts {
  import opened Text
  import opened Json

  // ----- The host of a URL -----

  function LastIndexOf(s: string, c: char): Option<nat>
    ensures LastIndexOf(s, c).Some? ==> LastIndexOf(s, c).value < |s|
  {
    if s == [] then None
    else if s[|s| - 1] == c then Some(|s| - 1)
    else LastIndexOf(s[..|s| - 1], c)
  }

  /** Everything in front of the first character of `stops`. */
  function UpTo(s: string, stops: set<char>): string {
    if s == [] || s[0] in stops then [] else [s[0]] + UpTo(s[1..], stops)
  }

  function AfterScheme(url: string): string {
    var scheme := IndexFrom(url, "://", 0);
    if scheme.Some? then url[scheme.value + 3..] else url
  }

  function AfterLogin(authority: string): string {
    var at := LastIndexOf(authority, '@');
    if at.Some? then authority[at.value + 1..] else authority
  }

  /** Only a trailing port goes; a colon behind a closing bracket stays. */
  function BeforePort(host: string): string {
    var colon := LastIndexOf(host, ':');
    if colon.Some? && !EndsWith(host[..colon.value], "]") && (forall c <- host[colon.value + 1..] :: IsAsciiDigit(c))
    then host[..colon.value] else host
  }

  function HostOf(url: string): string {
    Lower(Trim(BeforePort(AfterLogin(UpTo(AfterScheme(url), {'/', '?', '#'})))))
  }

  // ----- Collecting -----

  const URL_HINT_KEYS: set<string> :=
    {"url", "href", "location", "targeturl", "finalurl", "newurl", "redirecturl", "link"}

  predicate LooksLikeUrl(s: string) {
    "http://" <= s || "https://" <= s
  }

  /** The hosts in a value found under `key`, in document order. */
  function HostsIn(key: string, v: Value): seq<string>
    decreases v
  {
    match v
    case Object(fields) => HostsInFields(fields)
    case Array(items) => HostsInItems(key, items)
    case Str(s) =>
      if (key in URL_HINT_KEYS || LooksLikeUrl(s)) && HostOf(s) != "" then [HostOf(s)] else []
    case _ => []
  }

  function HostsInFields(fields: seq<Field>): seq<string>
    decreases fields
  {
    if fields == [] then []
    else HostsIn(Lower(fields[0].name), fields[0].value) + HostsInFields(fields[1..])
  }

  function HostsInItems(key: string, items: seq<Value>): seq<string>
    decreases items
  {
    if items == [] then [] else HostsIn(key, items[0]) + HostsInItems(key, items[1..])
  }

  // ----- Sorted and unique -----

  predicate Less(a: string, b: string) {
    if b == [] then false
    else if a == [] then true
    else if a[0] != b[0] then a[0] < b[0]
    else Less(a[1..], b[1..])
  }

  function Insert(host: string, sorted: seq<string>): seq<string> {
    if sorted == [] then [host]
    else if host == sorted[0] then sorted
    else if Less(host, sorted[0]) then [host] + sorted
    else [sorted[0]] + Insert(host, sorted[1..])
  }

  function SortedUnique(hosts: seq<string>): seq<string> {
    if hosts == [] then [] else Insert(hosts[0], SortedUnique(hosts[1..]))
  }

  lemma {:induction false} InsertAdds(host: string, sorted: seq<string>)
    ensures forall h :: h in Insert(host, sorted) <==> h == host || h in sorted
  {
    if sorted != [] {
      InsertAdds(host, sorted[1..]);
      assert sorted == [sorted[0]] + sorted[1..];
    }
  }

  /** In order, and so each host once. */
  predicate Ascending(sorted: seq<string>) {
    forall i, j :: 0 <= i < j < |sorted| ==> Less(sorted[i], sorted[j])
  }

  lemma {:induction false} LessIsStrict(a: string, b: string, c: string)
    ensures !Less(a, a)
    ensures Less(a, b) && Less(b, c) ==> Less(a, c)
    ensures a == b || Less(a, b) || Less(b, a)
    decreases |a|
  {
    if a != [] {
      LessIsStrict(a[1..], if b != [] then b[1..] else [], if c != [] then c[1..] else []);
      assert a == [a[0]] + a[1..];
      assert b != [] ==> b == [b[0]] + b[1..];
    }
  }

  lemma {:induction false} InsertKeepsOrder(host: string, sorted: seq<string>)
    requires Ascending(sorted)
    ensures Ascending(Insert(host, sorted))
  {
    hide Less;
    if sorted != [] && host != sorted[0] {
      var first, rest := sorted[0], sorted[1..];
      LessIsStrict(host, first, first);
      assert sorted == [first] + rest;
      if Less(host, first) {
        forall h | h in rest
          ensures Less(host, h)
        {
          var i :| 0 <= i < |rest| && rest[i] == h;
          assert sorted[i + 1] == h;
          LessIsStrict(host, first, h);
        }
        AscendingCons(host, sorted);
      } else {
        InsertKeepsOrder(host, rest);
        InsertAdds(host, rest);
        forall h | h in Insert(host, rest)
          ensures Less(first, h)
        {
          if h != host {
            var i :| 0 <= i < |rest| && rest[i] == h;
            assert sorted[i + 1] == h;
          }
        }
        AscendingCons(first, Insert(host, rest));
      }
    } else if sorted == [] {
      AscendingCons(host, []);
      assert [host] + [] == [host];
    }
  }

  lemma AscendingCons(first: string, rest: seq<string>)
    requires Ascending(rest) && forall h <- rest :: Less(first, h)
    ensures Ascending([first] + rest)
  {
    hide Less;
    assert forall i :: 0 <= i < |rest| ==> rest[i] in rest;
  }

  lemma EachOnce(sorted: seq<string>)
    requires Ascending(sorted)
    ensures forall i, j :: 0 <= i < j < |sorted| ==> sorted[i] != sorted[j]
  {
    forall i, j | 0 <= i < j < |sorted|
      ensures sorted[i] != sorted[j]
    {
      LessIsStrict(sorted[i], sorted[j], sorted[j]);
    }
  }

  /** Sorting puts the hosts in order, each once, and drops nothing but repeats. */
  lemma {:induction false} SortedUniqueKeeps(hosts: seq<string>)
    ensures forall h :: h in SortedUnique(hosts) <==> h in hosts
    ensures Ascending(SortedUnique(hosts))
    ensures forall i, j :: 0 <= i < j < |SortedUnique(hosts)| ==> SortedUnique(hosts)[i] != SortedUnique(hosts)[j]
  {
    if hosts != [] {
      SortedUniqueKeeps(hosts[1..]);
      InsertAdds(hosts[0], SortedUnique(hosts[1..]));
      InsertKeepsOrder(hosts[0], SortedUnique(hosts[1..]));
      EachOnce(SortedUnique(hosts));
      hide Less, Ascending;
      assert hosts == [hosts[0]] + hosts[1..];
    }
  }

  // ----- Restricted and allowed -----

  const RESTRICTED_HOSTS: seq<string> :=
    ["linkedin.com", "facebook.com", "instagram.com", "x.com", "twitter.com", "threads.net"]

  /** The host itself, or something under it. */
  predicate Under(host: string, site: string) {
    host == site || EndsWith(host, "." + site)
  }

  predicate IsRestricted(host: string) {
    var h := Lower(Trim(host));
    exists p <- RESTRICTED_HOSTS :: Under(h, p)
  }

  predicate HostAllowed(allowlist: seq<string>, host: string) {
    exists a <- allowlist :: Under(host, a)
  }

  function StripWildcard(s: string): string {
    if "*." <= s then StripWildcard(s[2..]) else s
  }

  /** An allowlist as the guard keeps it: trimmed, without `*.`, lower-cased, blanks dropped. */
  function NormalAllowlist(raw: seq<string>): seq<string> {
    if raw == [] then []
    else
      var h := Lower(StripWildcard(Trim(raw[0])));
      (if h == "" then [] else [h]) + NormalAllowlist(raw[1..])
  }

  function FirstRestricted(hosts: seq<string>): (found: Option<string>)
    ensures found.Some? ==> found.value in hosts && IsRestricted(found.value)
    ensures found.None? ==> forall h <- hosts :: !IsRestricted(h)
  {
    if hosts == [] then None
    else if IsRestricted(hosts[0]) then Some(hosts[0])
    else FirstRestricted(hosts[1..])
  }

  function FirstForeign(allowlist: seq<string>, hosts: seq<string>): (found: Option<string>)
    ensures found.Some? ==> found.value in hosts && !HostAllowed(allowlist, found.value)
    ensures found.None? ==> forall h <- hosts :: HostAllowed(allowlist, h)
  {
    if hosts == [] then None
    else if !HostAllowed(allowlist, hosts[0]) then Some(hosts[0])
    else FirstForeign(allowlist, hosts[1..])
  }

  /** At most `n` from the front. */
  function AtMost(hosts: seq<string>, n: nat): seq<string> {
    if n < |hosts| then hosts[..n] else hosts
  }

  function AsSet(hosts: seq<string>): set<string> {
    set h | h in hosts
  }
}
