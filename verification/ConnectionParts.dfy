/** Which setting becomes which part of a connection URL, and reading the parts back (cmd/src/aws.rs). */
module ConnectionParts {
  import opened Text
  import opened ConnectionUrl
  import U = UrlAssembly

  // ----- Which names a part goes by -----

  /** The value of the first of the names that says something, trimmed, and the default when none does. */
  ghost predicate Gives(settings: Settings, names: seq<string>, default: Option<string>, value: Option<string>) {
    if forall i :: 0 <= i < |names| ==> !IsSet(settings, names[i]) then value == default
    else exists i: nat :: IsFirstSet(settings, names, i) && value == Some(Trim(settings[names[i]]))
  }

  lemma {:induction false} SomeIsFirst(settings: Settings, names: seq<string>, n: nat) returns (first: nat)
    requires n < |names| && IsSet(settings, names[n])
    ensures IsFirstSet(settings, names, first)
  {
    hide IsSet;
    if i: nat :| i < n && IsSet(settings, names[i]) {
      first := SomeIsFirst(settings, names, i);
    } else {
      first := n;
    }
  }

  lemma FieldGives(settings: Settings, prefixes: seq<string>, stems: seq<string>, names: seq<string>)
    requires Names(prefixes, stems) == names
    ensures Gives(settings, names, None, Field(settings, prefixes, stems))
    ensures Field(settings, prefixes, stems).None? <==> forall i :: 0 <= i < |names| ==> !IsSet(settings, names[i])
  {
    hide IsSet, Trim, Names, FirstSet;
    FirstSetDecides(settings, names);
    if n: nat :| n < |names| && IsSet(settings, names[n]) {
      var first := SomeIsFirst(settings, names, n);
    }
  }

  lemma OrGives(settings: Settings, names: seq<string>, found: Option<string>, default: string)
    requires Gives(settings, names, None, found)
    ensures Gives(settings, names, Some(default), Some(Or(found, default)))
  {
    hide IsSet, Trim, IsFirstSet;
  }

  function Under(prefix: string, stems: seq<string>): seq<string> {
    seq(|stems|, i requires 0 <= i < |stems| => prefix + "_" + stems[i])
  }

  lemma NamesOf(prefix: string, more: seq<string>, stems: seq<string>)
    ensures Names([prefix] + more, stems) == Under(prefix, stems) + Names(more, stems)
  {
    assert ([prefix] + more)[1..] == more;
  }

  /** Every stem under a prefix before the next prefix. */
  lemma NamesUnder(stems: seq<string>)
    ensures Names(PG_PREFIXES, stems) == Under("HUNTWELL_PG", stems) + Under("PG", stems) + Under("DB", stems)
  {
    NothingUnder(stems);
    hide Names, Under;
    NamesOf("HUNTWELL_PG", ["PG", "DB"], stems);
    NamesOf("PG", ["DB"], stems);
    NamesOf("DB", [], stems);
    assert PG_PREFIXES == ["HUNTWELL_PG"] + ["PG", "DB"] && ["PG", "DB"] == ["PG"] + ["DB"] && ["DB"] == ["DB"] + [];
    var last := Under("DB", stems);
    assert last + [] == last;
  }

  lemma NothingUnder(stems: seq<string>)
    ensures Names([], stems) == []
  {
  }

  lemma OneStem(a: string)
    ensures Names(PG_PREFIXES, [a]) == ["HUNTWELL_PG" + "_" + a, "PG" + "_" + a, "DB" + "_" + a]
  {
    hide Names, PG_PREFIXES;
    NamesUnder([a]);
  }

  lemma TwoStems(a: string, b: string)
    ensures Names(PG_PREFIXES, [a, b])
         == ["HUNTWELL_PG" + "_" + a, "HUNTWELL_PG" + "_" + b, "PG" + "_" + a, "PG" + "_" + b,
             "DB" + "_" + a, "DB" + "_" + b]
  {
    hide Names, PG_PREFIXES;
    NamesUnder([a, b]);
  }

  lemma ThreeStems(a: string, b: string, c: string)
    ensures Names(PG_PREFIXES, [a, b, c])
         == ["HUNTWELL_PG" + "_" + a, "HUNTWELL_PG" + "_" + b, "HUNTWELL_PG" + "_" + c,
             "PG" + "_" + a, "PG" + "_" + b, "PG" + "_" + c, "DB" + "_" + a, "DB" + "_" + b, "DB" + "_" + c]
  {
    hide Names, PG_PREFIXES;
    NamesUnder([a, b, c]);
  }

  const HOST_NAMES := ["HUNTWELL_PG" + "_" + "HOST", "PG" + "_" + "HOST", "DB" + "_" + "HOST"]
  const PORT_NAMES := ["HUNTWELL_PG" + "_" + "PORT", "PG" + "_" + "PORT", "DB" + "_" + "PORT"]
  const USER_NAMES :=
    ["HUNTWELL_PG" + "_" + "USERNAME", "HUNTWELL_PG" + "_" + "USER", "PG" + "_" + "USERNAME", "PG" + "_" + "USER",
     "DB" + "_" + "USERNAME", "DB" + "_" + "USER"]
  const DATABASE_NAMES :=
    ["HUNTWELL_PG" + "_" + "DATABASE", "HUNTWELL_PG" + "_" + "DBNAME", "HUNTWELL_PG" + "_" + "NAME",
     "PG" + "_" + "DATABASE", "PG" + "_" + "DBNAME", "PG" + "_" + "NAME",
     "DB" + "_" + "DATABASE", "DB" + "_" + "DBNAME", "DB" + "_" + "NAME"]
  const PASSWORD_NAMES :=
    ["HUNTWELL_PG" + "_" + "PASSWORD", "HUNTWELL_PG" + "_" + "PASS", "PG" + "_" + "PASSWORD", "PG" + "_" + "PASS",
     "DB" + "_" + "PASSWORD", "DB" + "_" + "PASS"]
  const MODE_NAMES := ["HUNTWELL_PG" + "_" + "SSLMODE", "PG" + "_" + "SSLMODE", "DB" + "_" + "SSLMODE"]

  lemma TheNames()
    ensures Names(PG_PREFIXES, ["HOST"]) == HOST_NAMES && Names(PG_PREFIXES, ["PORT"]) == PORT_NAMES
    ensures Names(PG_PREFIXES, ["USERNAME", "USER"]) == USER_NAMES
    ensures Names(PG_PREFIXES, ["DATABASE", "DBNAME", "NAME"]) == DATABASE_NAMES
    ensures Names(PG_PREFIXES, ["PASSWORD", "PASS"]) == PASSWORD_NAMES
    ensures Names(PG_PREFIXES, ["SSLMODE"]) == MODE_NAMES
  {
    hide Names, PG_PREFIXES;
    OneStem("HOST");
    OneStem("PORT");
    TwoStems("USERNAME", "USER");
    ThreeStems("DATABASE", "DBNAME", "NAME");
    TwoStems("PASSWORD", "PASS");
    OneStem("SSLMODE");
  }

  /** There is a URL if and only if a host is set; each part is the first of its own names that says something, and the
      port, the user and the database have defaults. */
  lemma EachPartIsItsOwn(settings: Settings, defaultDb: string)
    ensures var parts := PartsOf(settings, PG_PREFIXES, defaultDb);
            && (parts.None? <==> forall i :: 0 <= i < |HOST_NAMES| ==> !IsSet(settings, HOST_NAMES[i]))
            && (parts.Some? ==>
                  && Gives(settings, HOST_NAMES, None, Some(parts.value.host))
                  && Gives(settings, PORT_NAMES, Some("5432"), Some(parts.value.port))
                  && Gives(settings, USER_NAMES, Some("postgres"), Some(parts.value.user))
                  && Gives(settings, DATABASE_NAMES, Some(defaultDb), Some(parts.value.db))
                  && Gives(settings, PASSWORD_NAMES, None, parts.value.pass)
                  && Gives(settings, MODE_NAMES, None, parts.value.sslmode))
  {
    hide IsSet, Gives, Field, Names, PG_PREFIXES;
    hide HOST_NAMES, PORT_NAMES, USER_NAMES, DATABASE_NAMES, PASSWORD_NAMES, MODE_NAMES;
    TheNames();
    FieldGives(settings, PG_PREFIXES, ["HOST"], HOST_NAMES);
    FieldGives(settings, PG_PREFIXES, ["PORT"], PORT_NAMES);
    FieldGives(settings, PG_PREFIXES, ["USERNAME", "USER"], USER_NAMES);
    FieldGives(settings, PG_PREFIXES, ["DATABASE", "DBNAME", "NAME"], DATABASE_NAMES);
    FieldGives(settings, PG_PREFIXES, ["PASSWORD", "PASS"], PASSWORD_NAMES);
    FieldGives(settings, PG_PREFIXES, ["SSLMODE"], MODE_NAMES);
    OrGives(settings, PORT_NAMES, Field(settings, PG_PREFIXES, ["PORT"]), "5432");
    OrGives(settings, USER_NAMES, Field(settings, PG_PREFIXES, ["USERNAME", "USER"]), "postgres");
    OrGives(settings, DATABASE_NAMES, Field(settings, PG_PREFIXES, ["DATABASE", "DBNAME", "NAME"]), defaultDb);
  }

  lemma {:induction false} FirstOfBoth(settings: Settings, a: seq<string>, b: seq<string>)
    ensures FirstSet(settings, a + b)
         == if FirstSet(settings, a).Some? then FirstSet(settings, a) else FirstSet(settings, b)
  {
    hide IsSet, Trim;
    if a == [] {
      assert a + b == b;
    } else {
      assert (a + b)[1..] == a[1..] + b;
      FirstOfBoth(settings, a[1..], b);
    }
  }

  /** What the pool does not say of itself it takes from the main database, part by part. */
  lemma PoolFallsBack(settings: Settings, stems: seq<string>)
    ensures var own := Field(settings, ["POOL_PG"], stems);
            Field(settings, POOL_PREFIXES, stems) == if own.Some? then own else Field(settings, PG_PREFIXES, stems)
  {
    assert POOL_PREFIXES == ["POOL_PG"] + PG_PREFIXES && ["POOL_PG"] == ["POOL_PG"] + [];
    NothingUnder(stems);
    hide Names, FirstSet, PG_PREFIXES, POOL_PREFIXES;
    NamesOf("POOL_PG", PG_PREFIXES, stems);
    NamesOf("POOL_PG", [], stems);
    var own := Under("POOL_PG", stems);
    assert own + [] == own;
    FirstOfBoth(settings, own, Names(PG_PREFIXES, stems));
  }

  // ----- Which URLs there are -----

  /** After assembling, the main URL is there if it was or a host is set, and the pool's if it was or the pool's own
      host is set; one that was not there is that database's parts put together. */
  lemma UrlsAreThere(pairs: U.Pairs)
    ensures var before, after := U.Collected(pairs), U.Collected(U.Assembled(pairs));
            var main, pool := PartsOf(before, PG_PREFIXES, "huntwell"), PartsOf(before, POOL_PREFIXES, "huntwell");
            && (main.Some? && !IsSet(before, "HUNTWELL_DATABASE_URL") ==>
                  U.At(after, "HUNTWELL_DATABASE_URL") == Some(UrlOf(main.value)))
            && (main.None? ==> U.At(after, "HUNTWELL_DATABASE_URL") == U.At(before, "HUNTWELL_DATABASE_URL"))
            && (IsSet(before, "POOL_PG_HOST") ==> pool.Some?)
            && (IsSet(before, "POOL_PG_HOST") && !IsSet(before, "HUNTWELL_POOL_DATABASE_URL") ==>
                  U.At(after, "HUNTWELL_POOL_DATABASE_URL") == Some(UrlOf(pool.value)))
            && (!IsSet(before, "POOL_PG_HOST") ==>
                  U.At(after, "HUNTWELL_POOL_DATABASE_URL") == U.At(before, "HUNTWELL_POOL_DATABASE_URL"))
  {
    var before := U.Collected(pairs);
    U.AssemblingOnlyFillsIn(pairs, U.DATABASE_URL);
    U.AssemblingOnlyFillsIn(pairs, U.POOL_DATABASE_URL);
    U.NamesDiffer();
    PoolHostIsNamed(before);
    hide U.Collected, U.Assembled, UrlOf, IsSet, Field, PG_PREFIXES, POOL_PREFIXES;
    PoolFallsBack(before, ["HOST"]);
  }

  lemma PoolHostIsNamed(settings: Settings)
    ensures Field(settings, ["POOL_PG"], ["HOST"]).Some? <==> IsSet(settings, "POOL_PG_HOST")
  {
    hide IsSet, Trim;
    assert "POOL_PG" + "_" + "HOST" == "POOL_PG_HOST";
    NothingUnder(["HOST"]);
    NamesOf("POOL_PG", [], ["HOST"]);
    assert ["POOL_PG"] == ["POOL_PG"] + [];
    FieldGives(settings, ["POOL_PG"], ["HOST"], ["POOL_PG_HOST"]);
  }

  // ----- The address -----

  const QUERY := "?sslmode="

  function ReadMode(query: string): Option<string> {
    if QUERY <= query then Some(query[|QUERY|..]) else None
  }

  /** The database, up to a question mark, and the mode behind it. */
  function ReadTail(tail: string): (string, Option<string>) {
    var mark := FirstAt(tail, '?');
    (tail[..mark], ReadMode(tail[mark..]))
  }

  /** Host, port, database and mode, read off everything after the `@`. */
  function ReadAddress(address: string): (string, string, string, Option<string>) {
    var (host, afterHost) := CutAt(address, ':');
    var (port, tail) := CutAt(afterHost, '/');
    var (db, mode) := ReadTail(tail);
    (host, port, db, mode)
  }

  function CutAt(s: string, c: char): (string, string) {
    var i := FirstAt(s, c);
    (s[..i], if i < |s| then s[i + 1..] else "")
  }

  lemma CutReadsBack(front: string, c: char, rest: string)
    requires c !in front
    ensures CutAt(front + [c] + rest, c) == (front, rest)
  {
    hide FirstAt;
    FirstAtConcat(front, c, rest);
    var s := front + [c] + rest;
    assert s[..|front|] == front && s[|front| + 1..] == rest;
  }

  function ModeText(mode: Option<string>): string {
    if mode.Some? then QUERY + mode.value else ""
  }

  lemma ModeReadsBack(mode: Option<string>)
    ensures ReadMode(ModeText(mode)) == mode
    ensures mode.Some? ==> ModeText(mode) != "" && ModeText(mode)[0] == '?'
  {
    if mode.Some? {
      assert ModeText(mode)[|QUERY|..] == mode.value;
    }
  }

  lemma TailReadsBack(db: string, mode: Option<string>)
    requires '?' !in db
    ensures ReadTail(db + ModeText(mode)) == (db, mode)
  {
    ModeReadsBack(mode);
    hide FirstAt, ReadMode, ModeText;
    var query := ModeText(mode);
    var tail := db + query;
    if mode.Some? {
      FirstAtConcat(db, '?', query[1..]);
      assert query == ['?'] + query[1..];
      assert tail == db + ['?'] + query[1..];
    } else {
      EmptyMode();
      FirstAtNowhere(db, '?');
      assert tail == db;
    }
    assert tail[..|db|] == db && tail[|db|..] == query;
  }

  lemma EmptyMode()
    ensures ModeText(None) == ""
  {
  }

  lemma AddressIs(parts: Parts)
    ensures Address(parts) == parts.host + [':'] + (parts.port + ['/'] + (parts.db + ModeText(parts.sslmode)))
  {
  }

  /** The address gives back its four parts, each where it belongs, unless one holds the character that ends it. */
  lemma AddressReadsBack(parts: Parts)
    requires ':' !in parts.host && '/' !in parts.port && '?' !in parts.db
    ensures ReadAddress(Address(parts)) == (parts.host, parts.port, parts.db, parts.sslmode)
  {
    hide CutAt, ReadTail, ModeText, Address;
    var tail := parts.db + ModeText(parts.sslmode);
    AddressIs(parts);
    CutReadsBack(parts.host, ':', parts.port + ['/'] + tail);
    CutReadsBack(parts.port, '/', tail);
    TailReadsBack(parts.db, parts.sslmode);
  }
}
