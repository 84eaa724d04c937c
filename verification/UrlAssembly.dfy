/** Filling in the connection URLs a secret leaves out (cmd/src/aws.rs). */
module UrlAssembly {
  import opened Text
  import opened ConnectionUrl

  type Pairs = seq<(string, string)>

  const DATABASE_URL := "HUNTWELL_DATABASE_URL"
  const POOL_DATABASE_URL := "HUNTWELL_POOL_DATABASE_URL"
  const DEFAULT_DB := "huntwell"

  /** A list of pairs as a map: the last of a name counts. */
  function Collected(pairs: Pairs): Settings {
    if pairs == [] then map[]
    else Collected(pairs[..|pairs| - 1])[pairs[|pairs| - 1].0 := pairs[|pairs| - 1].1]
  }

  function ComposedUrl(settings: Settings, prefixes: seq<string>): Option<string> {
    var parts := PartsOf(settings, prefixes, DEFAULT_DB);
    if parts.None? then None else Some(UrlOf(parts.value))
  }

  function MainUrl(settings: Settings): Option<string> {
    ComposedUrl(settings, PG_PREFIXES)
  }

  /** Only when something names a pool host. */
  function PoolUrl(settings: Settings): Option<string> {
    if Field(settings, ["POOL_PG"], ["HOST"]).None? then None else ComposedUrl(settings, POOL_PREFIXES)
  }

  function Pushed(pairs: Pairs, settings: Settings, name: string, url: Option<string>): Pairs {
    if IsSet(settings, name) || url.None? then pairs else pairs + [(name, url.value)]
  }

  function Assembled(pairs: Pairs): Pairs {
    var settings := Collected(pairs);
    Pushed(Pushed(pairs, settings, DATABASE_URL, MainUrl(settings)), settings, POOL_DATABASE_URL, PoolUrl(settings))
  }

  method AssembleUrls(pairs: Pairs) returns (out: Pairs)
    ensures out == Assembled(pairs)
  {
    hide PartsOf, UrlOf, IsSet, Field, Collected, POOL_PREFIXES;
    out := pairs;
    var snapshot := Collected(pairs);
    if !IsSet(snapshot, DATABASE_URL) {
      var url := Compose(snapshot, PG_PREFIXES, DEFAULT_DB);
      if url.Some? {
        out := out + [(DATABASE_URL, url.value)];
      }
    }
    if !IsSet(snapshot, POOL_DATABASE_URL) && Field(snapshot, ["POOL_PG"], ["HOST"]).Some? {
      var url := Compose(snapshot, POOL_PREFIXES, DEFAULT_DB);
      if url.Some? {
        out := out + [(POOL_DATABASE_URL, url.value)];
      }
    }
  }

  // ----- What it comes to -----

  function At(settings: Settings, name: string): Option<string> {
    if name in settings then Some(settings[name]) else None
  }

  /** An explicit value stays; a blank or missing one gives way to a composed URL, if there is one. */
  function Settled(settings: Settings, name: string, url: Option<string>): Option<string> {
    if IsSet(settings, name) || url.None? then At(settings, name) else url
  }

  lemma CollectedMore(pairs: Pairs, name: string, value: string)
    ensures Collected(pairs + [(name, value)]) == Collected(pairs)[name := value]
  {
    assert (pairs + [(name, value)])[..|pairs|] == pairs;
  }

  lemma NamesDiffer()
    ensures DATABASE_URL != POOL_DATABASE_URL
  {
    assert |DATABASE_URL| != |POOL_DATABASE_URL|;
  }

  /** Assembling gives each URL its settled value and touches no other setting; what was there stays in front. */
  lemma AssemblingOnlyFillsIn(pairs: Pairs, name: string)
    ensures pairs <= Assembled(pairs)
    ensures var before, after := Collected(pairs), Collected(Assembled(pairs));
            At(after, name) ==
            if name == DATABASE_URL then Settled(before, name, MainUrl(before))
            else if name == POOL_DATABASE_URL then Settled(before, name, PoolUrl(before))
            else At(before, name)
  {
    NamesDiffer();
    var settings := Collected(pairs);
    var main, pool := MainUrl(settings), PoolUrl(settings);
    var first := Pushed(pairs, settings, DATABASE_URL, main);
    hide MainUrl, PoolUrl, IsSet, Collected, DATABASE_URL, POOL_DATABASE_URL;
    if main.Some? {
      CollectedMore(pairs, DATABASE_URL, main.value);
    }
    if pool.Some? {
      CollectedMore(first, POOL_DATABASE_URL, pool.value);
    }
  }

  /** An explicit URL is never replaced, whatever the fields say. */
  lemma ExplicitUrlStays(pairs: Pairs, name: string)
    requires IsSet(Collected(pairs), name)
    ensures At(Collected(Assembled(pairs)), name) == Some(Collected(pairs)[name])
  {
    AssemblingOnlyFillsIn(pairs, name);
    hide Assembled, MainUrl, PoolUrl, DATABASE_URL, POOL_DATABASE_URL;
  }

  /** A pool URL points at the pool's own host and nowhere else. */
  lemma PoolHostIsItsOwn(settings: Settings)
    requires PoolUrl(settings).Some?
    ensures IsSet(settings, "POOL_PG_HOST")
    ensures var parts := PartsOf(settings, POOL_PREFIXES, DEFAULT_DB);
            parts.Some? && parts.value.host == Trim(settings["POOL_PG_HOST"])
  {
    hide IsSet, Trim, UrlOf;
    var name := "POOL_PG" + "_" + "HOST";
    assert name == "POOL_PG_HOST";
    var own := Names(["POOL_PG"], ["HOST"]);
    assert own == [name] + Names([], ["HOST"]);
    assert FirstSet(settings, own[1..]) == None;
    var all := Names(POOL_PREFIXES, ["HOST"]);
    assert all[0] == name;
  }

  // ----- Assembling again -----

  /** Names no field goes by: the URLs' own, for one. */
  predicate NoneEndsLike(names: seq<string>, last: char) {
    forall i :: 0 <= i < |names| ==> names[i] != "" && names[i][|names[i]| - 1] != last
  }

  lemma {:induction false} NamesEndLikeStems(prefixes: seq<string>, stems: seq<string>, last: char)
    requires NoneEndsLike(stems, last)
    ensures NoneEndsLike(Names(prefixes, stems), last)
  {
    if prefixes != [] {
      NamesEndLikeStems(prefixes[1..], stems, last);
    }
  }

  /** Two settings that differ only in names ending in `L`. */
  ghost predicate SameFields(a: Settings, b: Settings) {
    forall name :: name != "" && name[|name| - 1] != 'L' ==> At(a, name) == At(b, name)
  }

  lemma {:induction false} SameFirstSet(a: Settings, b: Settings, names: seq<string>)
    requires SameFields(a, b) && NoneEndsLike(names, 'L')
    ensures FirstSet(a, names) == FirstSet(b, names)
  {
    if names != [] {
      assert At(a, names[0]) == At(b, names[0]);
      SameFirstSet(a, b, names[1..]);
    }
  }

  lemma SameField(a: Settings, b: Settings, prefixes: seq<string>, stems: seq<string>)
    requires SameFields(a, b) && NoneEndsLike(stems, 'L')
    ensures Field(a, prefixes, stems) == Field(b, prefixes, stems)
  {
    NamesEndLikeStems(prefixes, stems, 'L');
    SameFirstSet(a, b, Names(prefixes, stems));
  }

  lemma SamePartsOf(a: Settings, b: Settings, prefixes: seq<string>)
    requires SameFields(a, b)
    ensures PartsOf(a, prefixes, DEFAULT_DB) == PartsOf(b, prefixes, DEFAULT_DB)
  {
    hide SameFields, Field;
    SameField(a, b, prefixes, ["HOST"]);
    SameField(a, b, prefixes, ["PORT"]);
    SameField(a, b, prefixes, ["USERNAME", "USER"]);
    SameField(a, b, prefixes, ["DATABASE", "DBNAME", "NAME"]);
    SameField(a, b, prefixes, ["PASSWORD", "PASS"]);
    SameField(a, b, prefixes, ["SSLMODE"]);
  }

  lemma SameUrls(a: Settings, b: Settings)
    requires SameFields(a, b)
    ensures MainUrl(a) == MainUrl(b) && PoolUrl(a) == PoolUrl(b)
  {
    hide SameFields, PartsOf, Field, UrlOf;
    SamePartsOf(a, b, PG_PREFIXES);
    SamePartsOf(a, b, POOL_PREFIXES);
    SameField(a, b, ["POOL_PG"], ["HOST"]);
  }

  lemma AssemblingKeepsFields(pairs: Pairs)
    ensures SameFields(Collected(pairs), Collected(Assembled(pairs)))
  {
    assert DATABASE_URL[|DATABASE_URL| - 1] == 'L' && POOL_DATABASE_URL[|POOL_DATABASE_URL| - 1] == 'L';
    forall name: string | name != "" && name[|name| - 1] != 'L'
      ensures At(Collected(pairs), name) == At(Collected(Assembled(pairs)), name)
    {
      AssemblingOnlyFillsIn(pairs, name);
    }
    hide Collected, Assembled;
  }

  lemma ComposedIsSet(settings: Settings, prefixes: seq<string>)
    requires ComposedUrl(settings, prefixes).Some?
    ensures !IsBlank(ComposedUrl(settings, prefixes).value)
  {
    hide PartsOf, UserInfo, Address;
    var url := ComposedUrl(settings, prefixes).value;
    assert SCHEME <= url;
    assert url[0] == 'p' && url[0] in url;
  }

  lemma FilledInIsSet(before: Settings, after: Settings, name: string, url: Option<string>, pairs: Pairs)
    requires At(after, name) == Settled(before, name, url) && (url.Some? ==> !IsBlank(url.value))
    ensures Pushed(pairs, after, name, url) == pairs
  {
    hide IsBlank;
  }

  lemma ComposedUrlsAreSet(settings: Settings)
    ensures MainUrl(settings).Some? ==> !IsBlank(MainUrl(settings).value)
    ensures PoolUrl(settings).Some? ==> !IsBlank(PoolUrl(settings).value)
  {
    hide ComposedUrl, IsBlank, Field;
    if MainUrl(settings).Some? {
      ComposedIsSet(settings, PG_PREFIXES);
    }
    if PoolUrl(settings).Some? {
      ComposedIsSet(settings, POOL_PREFIXES);
    }
  }

  /** What was filled in once counts as explicit: assembling again changes nothing. */
  lemma AssemblingIsIdempotent(pairs: Pairs)
    ensures Assembled(Assembled(pairs)) == Assembled(pairs)
  {
    var once := Assembled(pairs);
    var before, after := Collected(pairs), Collected(once);
    AssemblingKeepsFields(pairs);
    SameUrls(before, after);
    ComposedUrlsAreSet(before);
    NamesDiffer();
    assert Assembled(once) ==
           Pushed(Pushed(once, after, DATABASE_URL, MainUrl(after)), after, POOL_DATABASE_URL, PoolUrl(after));
    hide *;
    AssemblingOnlyFillsIn(pairs, DATABASE_URL);
    AssemblingOnlyFillsIn(pairs, POOL_DATABASE_URL);
    FilledInIsSet(before, after, DATABASE_URL, MainUrl(after), once);
    FilledInIsSet(before, after, POOL_DATABASE_URL, PoolUrl(after), once);
  }
}
