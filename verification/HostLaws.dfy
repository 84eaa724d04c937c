/** What the host of a URL is, where hosts are looked for, and which of them a list of sites covers
    (cmd/src/guard.rs). */
module HostLaws {
  import opened Text
  import opened Json
  import opened Hosts

  // ----- The host of a URL -----

  lemma {:induction false} UpToStops(s: string, rest: string, stops: set<char>)
    requires forall c <- s :: c !in stops
    requires rest != [] ==> rest[0] in stops
    ensures UpTo(s + rest, stops) == s
  {
    if s == [] {
      assert s + rest == rest;
    } else {
      assert s == [s[0]] + s[1..];
      assert (s + rest)[1..] == s[1..] + rest;
      UpToStops(s[1..], rest, stops);
    }
  }

  lemma {:induction false} LastIsFound(before: string, c: char, after: string)
    requires c !in after
    ensures LastIndexOf(before + [c] + after, c) == Some(|before|)
  {
    var s := before + [c] + after;
    if after != [] {
      assert s[|s| - 1] == after[|after| - 1] && after[|after| - 1] in after;
      assert s[..|s| - 1] == before + [c] + after[..|after| - 1];
      LastIsFound(before, c, after[..|after| - 1]);
    }
  }

  lemma {:induction false} NoneIsFound(s: string, c: char)
    requires c !in s
    ensures LastIndexOf(s, c) == None
  {
    if s != [] {
      assert s[|s| - 1] in s;
      NoneIsFound(s[..|s| - 1], c);
    }
  }

  /** Text with none of the characters that end an authority. */
  predicate IsWithinAuthority(s: string) {
    '/' !in s && '?' !in s && '#' !in s
  }

  /** A host as it is written: no user, port or path in it, and no closing bracket in front of a port. */
  predicate IsHostText(host: string) {
    IsWithinAuthority(host) && '@' !in host && ':' !in host && !EndsWith(host, "]")
  }

  predicate IsPort(port: string) {
    forall c <- port :: IsAsciiDigit(c)
  }

  function Login(user: Option<string>): string {
    if user.Some? then user.value + "@" else ""
  }

  function PortText(port: Option<string>): string {
    if port.Some? then ":" + port.value else ""
  }

  lemma SchemeIsCut(scheme: string, rest: string)
    requires ':' !in scheme
    ensures AfterScheme(scheme + "://" + rest) == rest
  {
    hide IndexFrom;
    var url := scheme + "://" + rest;
    assert ContainsAt(url, "://", |scheme|);
    forall j: nat | j < |scheme|
      ensures !ContainsAt(url, "://", j)
    {
      assert url[j] == scheme[j] && scheme[j] in scheme;
      NotAt(url, "://", j, 0);
    }
    FirstIsFound(url, "://", |scheme|);
  }

  lemma AuthorityIsCut(login: string, server: string, tail: string)
    requires IsWithinAuthority(login) && IsWithinAuthority(server)
    requires tail == [] || tail[0] in {'/', '?', '#'}
    ensures UpTo(login + server + tail, {'/', '?', '#'}) == login + server
  {
    hide UpTo;
    assert forall c <- login + server :: c in login || c in server;
    UpToStops(login + server, tail, {'/', '?', '#'});
  }

  lemma LoginIsCut(user: Option<string>, server: string)
    requires '@' !in server
    ensures AfterLogin(Login(user) + server) == server
  {
    hide LastIndexOf;
    if user.Some? {
      LastIsFound(user.value, '@', server);
      assert Login(user) + server == user.value + ['@'] + server;
    } else {
      NoneIsFound(server, '@');
      assert Login(user) + server == server;
    }
  }

  lemma PortIsCut(host: string, port: Option<string>)
    requires ':' !in host && !EndsWith(host, "]") && (port.Some? ==> IsPort(port.value))
    ensures BeforePort(host + PortText(port)) == host
  {
    hide LastIndexOf, EndsWith;
    if port.Some? {
      LastIsFound(host, ':', port.value);
      var server := host + [':'] + port.value;
      assert host + PortText(port) == server;
      assert server[..|host|] == host && server[|host| + 1..] == port.value;
    } else {
      NoneIsFound(host, ':');
      assert host + PortText(port) == host;
    }
  }

  /** Neither part in front of the path ends the authority, and only the first holds an `@`. */
  lemma PartsAreApart(user: Option<string>, host: string, port: Option<string>)
    requires user.Some? ==> IsWithinAuthority(user.value)
    requires IsHostText(host) && (port.Some? ==> IsPort(port.value))
    ensures IsWithinAuthority(Login(user)) && IsWithinAuthority(host + PortText(port))
    ensures '@' !in host + PortText(port)
  {
    var server := host + PortText(port);
    assert forall c <- server :: c in host || c == ':' || IsAsciiDigit(c);
    assert forall c <- Login(user) :: c == '@' || c in user.value;
  }

  /** Whatever stands in front of it and behind it, the host of a URL is the part between the login and the port: the
      last `@` ends the login, so a site's name in front of one hides nothing. */
  lemma HostReadsBack(scheme: string, user: Option<string>, host: string, port: Option<string>, tail: string)
    requires ':' !in scheme
    requires user.Some? ==> IsWithinAuthority(user.value)
    requires IsHostText(host) && (port.Some? ==> IsPort(port.value))
    requires tail == [] || tail[0] in {'/', '?', '#'}
    ensures HostOf(scheme + "://" + (Login(user) + host + PortText(port) + tail)) == Lower(Trim(host))
  {
    hide Lower, Trim, AfterScheme, UpTo, AfterLogin, BeforePort, IsPort, IsWithinAuthority, Login, PortText, EndsWith;
    var server := host + PortText(port);
    assert Login(user) + host + PortText(port) + tail == Login(user) + server + tail;
    PartsAreApart(user, host, port);
    SchemeIsCut(scheme, Login(user) + server + tail);
    AuthorityIsCut(Login(user), server, tail);
    LoginIsCut(user, server);
    PortIsCut(host, port);
  }

  /** A port behind a closing bracket is not taken off, so one IPv6 host has a name for every port it is reached on. */
  lemma BracketedPortStays(scheme: string, literal: string, port: string, tail: string)
    requires ':' !in scheme && IsWithinAuthority(literal) && '@' !in literal && EndsWith(literal, "]")
    requires IsPort(port) && (tail == [] || tail[0] in {'/', '?', '#'})
    ensures HostOf(scheme + "://" + (literal + ":" + port + tail)) == Lower(Trim(literal + ":" + port))
  {
    hide Lower, Trim, AfterScheme, UpTo, AfterLogin, LastIndexOf;
    var server := literal + ":" + port;
    assert ':' !in port;
    assert forall c <- server :: c in literal || c == ':' || IsAsciiDigit(c);
    assert server == literal + [':'] + port && server[..|literal|] == literal;
    SchemeIsCut(scheme, server + tail);
    assert "" + server + tail == server + tail && "" + server == server;
    AuthorityIsCut("", server, tail);
    LoginIsCut(None, server);
    LastIsFound(literal, ':', port);
  }

  // ----- Where hosts are looked for -----

  /** The string `s` stands somewhere in `v`, and the nearest field around it is named `named` in lower case. */
  ghost predicate StandsIn(key: string, v: Value, named: string, s: string)
    decreases v
  {
    match v
    case Object(fields) => exists f <- fields :: StandsIn(Lower(f.name), f.value, named, s)
    case Array(items) => exists item <- items :: StandsIn(key, item, named, s)
    case Str(text) => text == s && key == named
    case _ => false
  }

  /** A string that names a host: a link by its field's name, or by how it begins. */
  predicate NamesHost(named: string, s: string, host: string) {
    && (named in {"url", "href", "location", "targeturl", "finalurl", "newurl", "redirecturl", "link"}
        || "http://" <= s || "https://" <= s)
    && host != "" && host == HostOf(s)
  }

  lemma {:induction false} FieldsAreRead(fields: seq<Field>, host: string)
    ensures host in HostsInFields(fields) <==> exists f <- fields :: host in HostsIn(Lower(f.name), f.value)
    decreases |fields|
  {
    hide HostsIn;
    if fields != [] {
      FieldsAreRead(fields[1..], host);
      var first, rest := HostsIn(Lower(fields[0].name), fields[0].value), HostsInFields(fields[1..]);
      assert HostsInFields(fields) == first + rest;
      assert fields[0] in fields;
      if host in rest {
        var f :| f in fields[1..] && host in HostsIn(Lower(f.name), f.value);
        assert f in fields;
      }
      assert host in first + rest <==> host in first || host in rest;
    }
  }

  lemma {:induction false} ItemsAreRead(key: string, items: seq<Value>, host: string)
    ensures host in HostsInItems(key, items) <==> exists item <- items :: host in HostsIn(key, item)
    decreases |items|
  {
    hide HostsIn;
    if items != [] {
      ItemsAreRead(key, items[1..], host);
      var first, rest := HostsIn(key, items[0]), HostsInItems(key, items[1..]);
      assert host in first + rest <==> host in first || host in rest;
      assert items[0] in items;
      if host in rest {
        var item :| item in items[1..] && host in HostsIn(key, item);
        assert item in items;
      }
    }
  }

  ghost predicate SomeNamer(key: string, v: Value, host: string) {
    exists named, s :: StandsIn(key, v, named, s) && NamesHost(named, s, host)
  }

  /** A host is found in a value exactly when some string in it, however deep, names it. */
  lemma {:induction false} HostsAreFound(key: string, v: Value, host: string)
    ensures host in HostsIn(key, v) <==> SomeNamer(key, v, host)
    decreases v
  {
    hide HostOf;
    match v
    case Object(fields) =>
      FieldsAreRead(fields, host);
      forall f | f in fields
        ensures host in HostsIn(Lower(f.name), f.value) <==> SomeNamer(Lower(f.name), f.value, host)
      {
        HostsAreFound(Lower(f.name), f.value, host);
      }
      hide NamesHost, Lower, HostsInFields, HostsInItems;
    case Array(items) =>
      ItemsAreRead(key, items, host);
      forall item | item in items
        ensures host in HostsIn(key, item) <==> SomeNamer(key, item, host)
      {
        HostsAreFound(key, item, host);
      }
      hide NamesHost, Lower, HostsInFields, HostsInItems;
    case Str(s) =>
      assert StandsIn(key, v, key, s);
    case _ =>
  }

  // ----- What a list of sites covers -----

  lemma UnderIsWritten(host: string, site: string)
    ensures Under(host, site) <==> host == site || exists sub: string :: host == sub + "." + site
  {
    if EndsWith(host, "." + site) {
      var k := |host| - |site| - 1;
      assert host == host[..k] + ("." + site);
      assert host == host[..k] + "." + site;
    }
    if sub: string :| host == sub + "." + site {
      assert host == sub + ("." + site);
      assert host[|sub|..] == "." + site;
    }
  }

  /** A name that only ends like the site's is not under it. */
  lemma LookalikeIsOutside(front: string, site: string)
    requires front != "" && front[|front| - 1] != '.'
    ensures !Under(front + site, site)
  {
    var host := front + site;
    assert host[|host| - |site| - 1..][0] == front[|front| - 1];
  }

  function Wildcards(n: nat): string {
    if n == 0 then "" else "*." + Wildcards(n - 1)
  }

  lemma OneMoreWildcard(s: string, n: nat)
    requires "*." <= s && s[2..] == Wildcards(n) + StripWildcard(s[2..])
    ensures s == Wildcards(n + 1) + StripWildcard(s)
  {
    assert StripWildcard(s) == StripWildcard(s[2..]) && Wildcards(n + 1) == "*." + Wildcards(n);
    hide StripWildcard, Wildcards;
    var front, rest := Wildcards(n), StripWildcard(s[2..]);
    assert s == "*." + s[2..];
    assert "*." + (front + rest) == "*." + front + rest;
  }

  /** Every wildcard in front goes, and nothing else: what is left opens with none. */
  lemma {:induction false} StrippingMeans(s: string)
    ensures exists n: nat :: s == Wildcards(n) + StripWildcard(s)
    ensures !("*." <= StripWildcard(s))
  {
    hide Wildcards;
    if "*." <= s {
      StrippingMeans(s[2..]);
      var n: nat :| s[2..] == Wildcards(n) + StripWildcard(s[2..]);
      OneMoreWildcard(s, n);
    } else {
      NoWildcards(s);
    }
  }

  lemma NoWildcards(s: string)
    ensures s == Wildcards(0) + s
  {
  }

  /** The site an allowlist line stands for. */
  function SiteOf(line: string): string {
    Lower(StripWildcard(Trim(line)))
  }

  lemma {:induction false} AllowlistKeepsSites(raw: seq<string>, site: string)
    ensures site in NormalAllowlist(raw) <==> site != "" && exists line <- raw :: SiteOf(line) == site
  {
    hide Lower, StripWildcard, Trim;
    if raw != [] {
      AllowlistKeepsSites(raw[1..], site);
      assert forall line :: line in raw <==> line == raw[0] || line in raw[1..];
      var first := if SiteOf(raw[0]) == "" then [] else [SiteOf(raw[0])];
      assert NormalAllowlist(raw) == first + NormalAllowlist(raw[1..]);
    }
  }

  /** A host is allowed exactly when it is some line's site or under it; blank lines allow nothing. */
  lemma AllowedIsOnTheList(raw: seq<string>, host: string)
    ensures HostAllowed(NormalAllowlist(raw), host)
        <==> exists line <- raw :: SiteOf(line) != "" && Under(host, SiteOf(line))
  {
    hide SiteOf, Under, NormalAllowlist;
    forall site
      ensures site in NormalAllowlist(raw) <==> site != "" && exists line <- raw :: SiteOf(line) == site
    {
      AllowlistKeepsSites(raw, site);
    }
  }

  predicate IsPlainSite(site: string) {
    site != "" && IsTrimmed(site) && !("*." <= site)
  }

  /** However a site is written on the list - any case, white space around it, a wildcard in front - it and everything
      under it is allowed. */
  lemma ListedSiteIsAllowed(raw: seq<string>, line: string, site: string, sub: string)
    requires line in raw && IsPlainSite(site) && Trim(line) in {site, "*." + site}
    ensures HostAllowed(NormalAllowlist(raw), Lower(site))
    ensures HostAllowed(NormalAllowlist(raw), sub + "." + Lower(site))
  {
    assert ("*." + site)[2..] == site;
    assert StripWildcard(site) == site;
    assert SiteOf(line) == Lower(site);
    hide SiteOf, Under, NormalAllowlist, HostAllowed, Lower;
    AllowedIsOnTheList(raw, Lower(site));
    AllowedIsOnTheList(raw, sub + "." + Lower(site));
    UnderIsWritten(Lower(site), Lower(site));
    UnderIsWritten(sub + "." + Lower(site), Lower(site));
    assert Lower(site) != "";
  }

  /** The six platforms and everything under them are restricted, and nothing else is. */
  lemma RestrictedMeans(host: string)
    ensures IsRestricted(host)
        <==> exists site <- RESTRICTED_HOSTS ::
               Lower(Trim(host)) == site || exists sub: string :: Lower(Trim(host)) == sub + "." + site
    ensures RESTRICTED_HOSTS
         == ["linkedin.com", "facebook.com", "instagram.com", "x.com", "twitter.com", "threads.net"]
  {
    var h := Lower(Trim(host));
    hide Lower, Trim, Under;
    forall site: string
      ensures Under(h, site) <==> h == site || exists sub: string :: h == sub + "." + site
    {
      UnderIsWritten(h, site);
    }
  }
}
