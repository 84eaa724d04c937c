/** Settings in layers, and the environment a child process inherits (cmd/src/config.rs). */
module Settings {
  import opened Text

  type Layer = map<string, string>

  /** What a process reads its settings from. Settings it wrote into its own environment are remembered in
      `exported`, so that they are not mistaken for an operator's. */
  datatype Process = Process(env: Layer, exported: Layer, db: Layer, remote: Layer, file: Layer)

  function At(layer: Layer, key: string): Option<string> {
    if key in layer then Some(layer[key]) else None
  }

  function NonEmpty(v: Option<string>): Option<string> {
    if v.Some? && IsBlank(v.value) then None else v
  }

  function Or(a: Option<string>, b: Option<string>): Option<string> {
    if a.Some? then a else b
  }

  /** The layers alone, highest first. */
  function Layered(db: Option<string>, remote: Option<string>, file: Option<string>): Option<string> {
    Or(Or(NonEmpty(db), NonEmpty(remote)), NonEmpty(file))
  }

  function Pick(live: Option<string>, ours: Option<string>, db: Option<string>, remote: Option<string>,
                file: Option<string>): Option<string> {
    if NonEmpty(live).Some? && ours != live then live else Layered(db, remote, file)
  }

  function Lookup(p: Process, key: string): Option<string> {
    Pick(At(p.env, key), At(p.exported, key), At(p.db, key), At(p.remote, key), At(p.file, key))
  }

  // ----- Writing the environment -----

  /** The environment holds a value for the key that this process did not export: an operator's. */
  predicate Held(p: Process, key: string) {
    key in p.env && At(p.env, key) != At(p.exported, key)
  }

  lemma HeldMeans(p: Process, key: string)
    ensures Held(p, key) <==> !(key !in p.env || At(p.env, key) == At(p.exported, key))
  {
  }

  /** The part of a layer that may be written over the environment. */
  function Free(p: Process, layer: Layer): Layer {
    map k | k in layer && !Held(p, k) :: layer[k]
  }

  /** A layer laid over the environment; each key is decided apart, so the order they are walked in is no matter. */
  function Laid(p: Process, layer: Layer): Process {
    p.(env := p.env + Free(p, layer), exported := p.exported + Free(p, layer))
  }

  function ExportedAll(p: Process): Process {
    Laid(Laid(Laid(p, p.file), p.remote), p.db)
  }

  /** The rows that count, trimmed; of two for one key, the later. */
  function Kept(rows: seq<(string, string)>): Layer {
    if rows == [] then map[]
    else
      var (k, v) := rows[|rows| - 1];
      var front := Kept(rows[..|rows| - 1]);
      if IsBlank(v) then front else front[k := Trim(v)]
  }

  function Installed(p: Process, rows: seq<(string, string)>): Process {
    Laid(p, Kept(rows)).(db := Kept(rows))
  }

  class Settings {
    var env: Layer
    var exported: Layer
    var db: Layer
    const remote: Layer
    const file: Layer

    /** A process starts with what it inherited, having exported nothing and opened no database. */
    constructor (env: Layer, remote: Layer, file: Layer)
      ensures Now() == Process(env, map[], map[], remote, file)
    {
      this.env, exported, db := env, map[], map[];
      this.remote, this.file := remote, file;
    }

    function Now(): Process
      reads this
    {
      Process(env, exported, db, remote, file)
    }

    method Get(key: string) returns (value: Option<string>)
      ensures value == Lookup(Now(), key)
      ensures Held(Now(), key) && !IsBlank(env[key]) ==> value == Some(env[key])
      ensures !(Held(Now(), key) && !IsBlank(env[key])) ==>
                value == HighestSaying([At(db, key), At(remote, key), At(file, key)])
    {
      LookupMeans(Now(), key);
      value := Pick(At(env, key), At(exported, key), At(db, key), At(remote, key), At(file, key));
    }

    method Export(key: string, value: string)
      modifies this`env, this`exported
      ensures env == old(env)[key := value] && exported == old(exported)[key := value]
    {
      env := env[key := value];
      exported := exported[key := value];
    }

    /** The loop both writers share; a hash map gives its keys in any order. */
    method ExportLayer(layer: Layer)
      modifies this`env, this`exported
      ensures Now() == Laid(old(Now()), layer)
    {
      ghost var was := Now();
      var rest := layer.Keys;
      WalkedEnds(layer);
      LaidNothing(was);
      hide Walked, Laid, Held;
      while rest != {}
        invariant rest <= layer.Keys
        invariant Now() == Laid(was, Walked(layer, rest))
        decreases rest
      {
        var k :| k in rest;
        WalkedOneMore(layer, rest, k);
        LaidAt(was, Walked(layer, rest), k);
        LaidOneMore(was, Walked(layer, rest), k, layer[k]);
        HeldMeans(Now(), k);
        if k !in env || At(env, k) == At(exported, k) {
          Export(k, layer[k]);
        }
        rest := rest - {k};
      }
    }

    method InstallDbSettings(rows: seq<(string, string)>)
      modifies this`env, this`exported, this`db
      ensures Now() == Installed(old(Now()), rows)
    {
      ExportLayer(Kept(rows));
      db := Kept(rows);
    }

    method ExportToEnv()
      modifies this`env, this`exported
      ensures Now() == ExportedAll(old(Now()))
    {
      ExportLayer(file);
      ExportLayer(remote);
      ExportLayer(db);
    }
  }

  lemma PlusOneMore(base: Layer, more: Layer, k: string, v: string)
    ensures base + more[k := v] == (base + more)[k := v]
  {
  }

  lemma FreeOneMore(p: Process, layer: Layer, k: string, v: string)
    requires k !in layer
    ensures Free(p, layer[k := v]) == if Held(p, k) then Free(p, layer) else Free(p, layer)[k := v]
  {
    hide Held;
  }

  lemma LaidOneMore(p: Process, layer: Layer, k: string, v: string)
    requires k !in layer
    ensures var q := Laid(p, layer);
            Laid(p, layer[k := v]) ==
            if Held(p, k) then q else q.(env := q.env[k := v], exported := q.exported[k := v])
  {
    hide Held, Free;
    FreeOneMore(p, layer, k, v);
    PlusOneMore(p.env, Free(p, layer), k, v);
    PlusOneMore(p.exported, Free(p, layer), k, v);
  }

  /** The keys of a layer walked so far, when those in `rest` are not. */
  function Walked(layer: Layer, rest: set<string>): Layer {
    map k | k in layer && k !in rest :: layer[k]
  }

  lemma WalkedEnds(layer: Layer)
    ensures Walked(layer, layer.Keys) == map[] && Walked(layer, {}) == layer
  {
  }

  lemma WalkedOneMore(layer: Layer, rest: set<string>, k: string)
    requires k in rest && rest <= layer.Keys
    ensures Walked(layer, rest - {k}) == Walked(layer, rest)[k := layer[k]] && k !in Walked(layer, rest)
  {
  }

  lemma LaidNothing(p: Process)
    ensures Laid(p, map[]) == p
  {
    assert Free(p, map[]) == map[];
    assert p.env + map[] == p.env && p.exported + map[] == p.exported;
  }

  // ----- Laying a layer, key by key -----

  /** A held key keeps its value and stays held; a free one that the layer defines takes the layer's value and stays
      free; any other is untouched. */
  lemma LaidAt(p: Process, layer: Layer, k: string)
    ensures var q := Laid(p, layer);
            && Held(q, k) == Held(p, k)
            && At(q.env, k) == (if k in layer && !Held(p, k) then Some(layer[k]) else At(p.env, k))
            && At(q.exported, k) == (if k in layer && !Held(p, k) then Some(layer[k]) else At(p.exported, k))
            && q.db == p.db && q.remote == p.remote && q.file == p.file
  {
  }

  /** The highest layer that defines the key, blank or not. */
  function Top(p: Process, key: string): Option<string> {
    Or(Or(At(p.db, key), At(p.remote, key)), At(p.file, key))
  }

  lemma ExportedAt(p: Process, k: string)
    ensures var q := ExportedAll(p);
            && Held(q, k) == Held(p, k)
            && At(q.env, k) == (if Held(p, k) then At(p.env, k) else Or(Top(p, k), At(p.env, k)))
            && At(q.exported, k) == (if Held(p, k) then At(p.exported, k) else Or(Top(p, k), At(p.exported, k)))
            && q.db == p.db && q.remote == p.remote && q.file == p.file
  {
    LaidAt(p, p.file, k);
    LaidAt(Laid(p, p.file), p.remote, k);
    LaidAt(Laid(Laid(p, p.file), p.remote), p.db, k);
    hide Laid, Held;
  }

  /** The first value that is there and not blank. */
  function HighestSaying(values: seq<Option<string>>): Option<string> {
    if values == [] then None
    else if values[0].Some? && !IsBlank(values[0].value) then values[0]
    else HighestSaying(values[1..])
  }

  lemma LayeredMeans(db: Option<string>, remote: Option<string>, file: Option<string>)
    ensures Layered(db, remote, file) == HighestSaying([db, remote, file])
  {
    hide IsBlank;
    var all := [db, remote, file];
    assert all[1..] == [remote, file] && [remote, file][1..] == [file] && [file][1..] == [];
    assert HighestSaying([file]) == NonEmpty(file);
    assert HighestSaying([remote, file]) == Or(NonEmpty(remote), NonEmpty(file));
  }

  /** What a lookup means: an operator's value when it says something, else the layers. */
  lemma LookupMeans(p: Process, k: string)
    ensures Lookup(p, k) ==
            if Held(p, k) && !IsBlank(p.env[k]) then Some(p.env[k])
            else Layered(At(p.db, k), At(p.remote, k), At(p.file, k))
    ensures Layered(At(p.db, k), At(p.remote, k), At(p.file, k))
         == HighestSaying([At(p.db, k), At(p.remote, k), At(p.file, k)])
  {
    LayeredMeans(At(p.db, k), At(p.remote, k), At(p.file, k));
    hide HighestSaying, IsBlank;
  }

  // ----- What exporting does to lookups -----

  /** Exporting changes the answer for no key. */
  lemma ExportKeepsEveryLookup(p: Process, k: string)
    ensures Lookup(ExportedAll(p), k) == Lookup(p, k)
  {
    ExportedAt(p, k);
    LookupMeans(p, k);
    LookupMeans(ExportedAll(p), k);
    hide ExportedAll, Layered, IsBlank, Lookup, Top;
  }

  /** Installing rows answers as if only the database layer had been replaced. */
  lemma InstallReplacesTheLayer(p: Process, rows: seq<(string, string)>, k: string)
    ensures Lookup(Installed(p, rows), k) == Lookup(p.(db := Kept(rows)), k)
  {
    LaidAt(p, Kept(rows), k);
    LookupMeans(Installed(p, rows), k);
    LookupMeans(p.(db := Kept(rows)), k);
    hide Kept, Layered, IsBlank, Lookup;
  }

  /** After exporting, the inherited value of a key is what a lookup answers exactly when the value that decides,
      the operator's or else the highest layer's, is not blank; or when nothing defines the key anywhere. */
  lemma InheritedIsTheAnswer(p: Process, k: string)
    ensures At(ExportedAll(p).env, k) == Lookup(p, k) <==>
            if Held(p, k) then !IsBlank(p.env[k])
            else if Top(p, k).Some? then !IsBlank(Top(p, k).value)
            else k !in p.env
  {
    ExportedAt(p, k);
    LookupMeans(p, k);
    hide ExportedAll, Lookup;
    LayeredFacts(p, k);
    hide IsBlank, Layered, Top;
  }

  lemma LayeredFacts(p: Process, k: string)
    ensures var answer := Layered(At(p.db, k), At(p.remote, k), At(p.file, k));
            && (answer.Some? ==> !IsBlank(answer.value) && Top(p, k).Some?)
            && (Top(p, k).Some? && !IsBlank(Top(p, k).value) ==> answer == Top(p, k))
  {
    hide IsBlank;
  }

  // ----- What a child sees -----

  /** A child starts with its parent's environment and the same layers, having exported nothing itself. */
  function Child(p: Process): Process {
    p.(exported := map[])
  }

  /** A value the process exported that no layer defines any more. */
  predicate Stale(p: Process, k: string) {
    k in p.env && !Held(p, k) && Top(p, k).None? && !IsBlank(p.env[k])
  }

  /** A child of a process that has just exported answers as its parent does, except for the stale exports. */
  lemma ChildAgreesUnlessStale(p: Process, k: string)
    ensures Lookup(Child(ExportedAll(p)), k) == Lookup(p, k) <==> !Stale(p, k)
  {
    ExportedAt(p, k);
    LookupMeans(p, k);
    LookupMeans(Child(ExportedAll(p)), k);
    hide ExportedAll, Lookup;
    LayeredFacts(p, k);
    hide IsBlank, Layered, Top;
  }

  // ----- Which rows count -----

  predicate Decides(rows: seq<(string, string)>, i: int, k: string)
    requires 0 <= i < |rows|
  {
    && rows[i].0 == k && !IsBlank(rows[i].1)
    && forall j :: i < j < |rows| && rows[j].0 == k ==> IsBlank(rows[j].1)
  }

  lemma KeptMore(rows: seq<(string, string)>, k: string)
    requires rows != []
    ensures var n := |rows| - 1;
            At(Kept(rows), k) == if rows[n].0 == k && !IsBlank(rows[n].1) then Some(Trim(rows[n].1))
                                 else At(Kept(rows[..n]), k)
  {
    hide IsBlank, Trim;
  }

  /** Of the rows for a key the last one that is not blank decides, and its value is kept trimmed. */
  lemma {:induction false} LastRowDecides(rows: seq<(string, string)>, i: nat, k: string)
    requires i < |rows| && Decides(rows, i, k)
    ensures At(Kept(rows), k) == Some(Trim(rows[i].1))
  {
    hide IsBlank, Trim, Kept, At;
    var n := |rows| - 1;
    KeptMore(rows, k);
    if i < n {
      LastRowDecides(rows[..n], i, k);
    }
  }

  /** And a key no row decides is not kept. */
  lemma {:induction false} KeptIsDecided(rows: seq<(string, string)>, k: string)
    ensures k in Kept(rows) <==> exists i :: 0 <= i < |rows| && Decides(rows, i, k)
  {
    hide IsBlank, Trim, Kept;
    if rows == [] {
      NothingKept();
    } else {
      var n := |rows| - 1;
      KeptMore(rows, k);
      KeptIsDecided(rows[..n], k);
      if rows[n].0 == k && !IsBlank(rows[n].1) {
        assert Decides(rows, n, k);
      } else {
        forall i | 0 <= i < n
          ensures Decides(rows, i, k) <==> Decides(rows[..n], i, k)
        {
          DecidesInFront(rows, i, k);
        }
        hide Decides;
        if k in Kept(rows[..n]) {
          var i :| 0 <= i < n && Decides(rows[..n], i, k);
          assert Decides(rows, i, k);
        }
      }
    }
  }

  lemma NothingKept()
    ensures Kept([]) == map[]
  {
  }

  lemma DecidesInFront(rows: seq<(string, string)>, i: nat, k: string)
    requires i < |rows| - 1 && (rows[|rows| - 1].0 == k ==> IsBlank(rows[|rows| - 1].1))
    ensures Decides(rows, i, k) <==> Decides(rows[..|rows| - 1], i, k)
  {
    hide IsBlank;
    var front := rows[..|rows| - 1];
    assert forall j :: 0 <= j < |front| ==> front[j] == rows[j];
  }

  // ----- Whole runs -----

  /** What happens to a process's settings: rows are installed, everything is exported, or the process sets a
      variable for itself. */
  datatype Event =
    | Install(rows: seq<(string, string)>)
    | ExportAll
    | SetVar(key: string, value: string)

  function Step(p: Process, e: Event): Process {
    match e
    case Install(rows) => Installed(p, rows)
    case ExportAll => ExportedAll(p)
    case SetVar(key, value) => p.(env := p.env[key := value])
  }

  function Run(p: Process, events: seq<Event>): Process {
    if events == [] then p else Step(Run(p, events[..|events| - 1]), events[|events| - 1])
  }

  predicate SetsNowhere(events: seq<Event>, k: string) {
    forall e <- events :: e.SetVar? ==> e.key != k
  }

  /** No run ever writes over an operator's value, and it wins every lookup for as long as it says something. */
  lemma {:induction false} OperatorsValueIsSafe(p: Process, events: seq<Event>, k: string)
    requires Held(p, k) && SetsNowhere(events, k)
    ensures var q := Run(p, events);
            Held(q, k) && At(q.env, k) == At(p.env, k) && (!IsBlank(p.env[k]) ==> Lookup(q, k) == At(p.env, k))
  {
    if events == [] {
      LookupMeans(p, k);
    } else {
      var front, e := events[..|events| - 1], events[|events| - 1];
      assert e in events && forall x <- front :: x in events;
      OperatorsValueIsSafe(p, front, k);
      var q := Run(p, front);
      if e.Install? {
        LaidAt(q, Kept(e.rows), k);
      } else if e.ExportAll? {
        ExportedAt(q, k);
      }
      hide Laid, ExportedAll, Kept, IsBlank;
      LookupMeans(Run(p, events), k);
    }
  }

  /** The environment passes on a value that is not an operator's, and not what the layers say. */
  predicate Misleads(p: Process, k: string) {
    && k in p.env && !Held(p, k) && !IsBlank(p.env[k])
    && Layered(At(p.db, k), At(p.remote, k), At(p.file, k)) != Some(p.env[k])
  }

  /** For any process at any time, a child started now answers as its parent unless the environment misleads it. */
  lemma ChildAgreesUnlessMisled(p: Process, k: string)
    ensures Lookup(Child(p), k) == Lookup(p, k) <==> !Misleads(p, k)
  {
    LookupMeans(p, k);
    LookupMeans(Child(p), k);
    hide Lookup, Layered, IsBlank, HighestSaying;
  }

  /** An install drops a value that was exported, and what is left in the layers says otherwise. */
  predicate Drops(p: Process, rows: seq<(string, string)>, k: string) {
    && k in p.env && !Held(p, k) && k !in Kept(rows) && !IsBlank(p.env[k])
    && Layered(None, At(p.remote, k), At(p.file, k)) != Some(p.env[k])
  }

  /** After an install, with an export or without, a child agrees on a key exactly when the install did not drop it. */
  lemma ChildAgreesAfterInstall(p: Process, rows: seq<(string, string)>, k: string)
    ensures var q := Installed(p, rows);
            Lookup(Child(q), k) == Lookup(q, k) <==> !Drops(p, rows, k)
  {
    ChildAgreesUnlessMisled(Installed(p, rows), k);
    InstallMisleads(p, rows, k);
    hide Lookup, Misleads, Drops;
  }

  lemma InstallMisleads(p: Process, rows: seq<(string, string)>, k: string)
    ensures Misleads(Installed(p, rows), k) <==> Drops(p, rows, k)
  {
    LaidAt(p, Kept(rows), k);
    if k in Kept(rows) {
      KeptSays(rows, k);
    }
    hide Laid, Kept, IsBlank;
  }

  lemma {:induction false} KeptSays(rows: seq<(string, string)>, k: string)
    requires k in Kept(rows)
    ensures !IsBlank(Kept(rows)[k])
  {
    var n := |rows| - 1;
    if !IsBlank(rows[n].1) && rows[n].0 == k {
      TrimBlank(rows[n].1);
      TrimIsTrimmed(rows[n].1);
      TrimmedSays(Trim(rows[n].1));
    } else {
      KeptSays(rows[..n], k);
    }
  }

  lemma TrimmedSays(s: string)
    requires IsTrimmed(s) && s != ""
    ensures !IsBlank(s)
  {
    assert s[0] in s;
  }

  /** The steps that mislead a key's readers: an install that drops it, or the process setting the variable back to what
      was exported for it when the layers no longer say so. */
  predicate Breaks(p: Process, e: Event, k: string) {
    match e
    case Install(rows) => Drops(p, rows, k)
    case ExportAll => false
    case SetVar(key, value) =>
      && key == k && At(p.exported, k) == Some(value) && !IsBlank(value)
      && Layered(At(p.db, k), At(p.remote, k), At(p.file, k)) != Some(value)
  }

  lemma StepMisleadsExactly(p: Process, e: Event, k: string)
    requires !Misleads(p, k)
    ensures Misleads(Step(p, e), k) <==> Breaks(p, e, k)
  {
    match e
    case Install(rows) => InstallMisleads(p, rows, k);
    case ExportAll =>
      ExportedAt(p, k);
      LayeredFacts(p, k);
      hide ExportedAll, Layered, Top, IsBlank;
    case SetVar(key, value) =>
      hide Layered, IsBlank;
  }

  lemma RunStep(p: Process, events: seq<Event>, i: nat)
    requires i < |events|
    ensures Run(p, events[..i + 1]) == Step(Run(p, events[..i]), events[i])
  {
    assert events[..i + 1][..i] == events[..i];
  }

  lemma NothingMisleadsAtFirst(p: Process, events: seq<Event>, k: string)
    requires p.exported == map[]
    ensures !Misleads(Run(p, events[..0]), k)
  {
  }

  /** A child started after the first `i` events answers as its parent does then. */
  predicate AgreesAt(p: Process, events: seq<Event>, i: int, k: string)
    requires 0 <= i <= |events|
  {
    var q := Run(p, events[..i]);
    Lookup(Child(q), k) == Lookup(q, k)
  }

  predicate BreaksAt(p: Process, events: seq<Event>, i: int, k: string)
    requires 0 <= i < |events|
  {
    Breaks(Run(p, events[..i]), events[i], k)
  }

  /** While a child would agree, the next step makes it disagree exactly when it breaks the key. */
  lemma BreakShows(p: Process, events: seq<Event>, i: nat, k: string)
    requires i < |events|
    ensures AgreesAt(p, events, i, k) ==> (AgreesAt(p, events, i + 1, k) <==> !BreaksAt(p, events, i, k))
  {
    hide Run, Breaks, Misleads, Lookup, Child;
    RunStep(p, events, i);
    var q := Run(p, events[..i]);
    ChildAgreesUnlessMisled(q, k);
    ChildAgreesUnlessMisled(Step(q, events[i]), k);
    if !Misleads(q, k) {
      StepMisleadsExactly(q, events[i], k);
    }
  }

  /** Over any run, with exports or without: a child started at any point of it answers as its parent does about a key,
      if and only if no step of the run broke it. Nothing else is asked of the steps. */
  lemma EveryChildAgrees(p: Process, events: seq<Event>, k: string)
    requires p.exported == map[]
    ensures (forall i :: 0 <= i <= |events| ==> AgreesAt(p, events, i, k))
       <==> (forall i :: 0 <= i < |events| ==> !BreaksAt(p, events, i, k))
  {
    hide AgreesAt, BreaksAt;
    if forall i :: 0 <= i < |events| ==> !BreaksAt(p, events, i, k) {
      forall n: nat | n <= |events|
        ensures AgreesAt(p, events, n, k)
      {
        AgreesUntilBroken(p, events, n, k);
      }
    } else {
      var i :| 0 <= i < |events| && BreaksAt(p, events, i, k);
      BreakShows(p, events, i, k);
      assert !AgreesAt(p, events, i, k) || !AgreesAt(p, events, i + 1, k);
    }
  }

  lemma {:induction false} AgreesUntilBroken(p: Process, events: seq<Event>, n: nat, k: string)
    requires p.exported == map[] && n <= |events|
    requires forall i :: 0 <= i < n ==> !BreaksAt(p, events, i, k)
    ensures AgreesAt(p, events, n, k)
  {
    hide AgreesAt, BreaksAt;
    if n == 0 {
      AgreesAtFirst(p, events, k);
    } else {
      AgreesUntilBroken(p, events, n - 1, k);
      BreakShows(p, events, n - 1, k);
    }
  }

  lemma AgreesAtFirst(p: Process, events: seq<Event>, k: string)
    requires p.exported == map[]
    ensures AgreesAt(p, events, 0, k)
  {
    hide Misleads, Lookup, Run, Child;
    NothingMisleadsAtFirst(p, events, k);
    ChildAgreesUnlessMisled(Run(p, events[..0]), k);
  }

  /** Dropping a row behind an operator's value is harmless, and so is every other step that does not set that key
      itself: a held key never misleads. */
  lemma HeldKeyNeverMisleads(p: Process, e: Event, k: string)
    requires Held(p, k) && !(e.SetVar? && e.key == k)
    ensures !Breaks(p, e, k)
  {
    hide Kept, Layered, IsBlank;
  }

  lemma RunOneMore(p: Process, events: seq<Event>, e: Event)
    ensures Run(p, events + [e]) == Step(Run(p, events), e)
  {
    assert (events + [e])[..|events|] == events;
  }

  lemma OneRowKept()
    ensures Kept([("K", "v")]) == map["K" := "v"] && Kept([]) == map[] && !IsBlank("v")
  {
    assert [("K", "v")][..0] == [];
    assert "v"[0] in "v";
  }

  /** Without steadiness they can part: a row that is removed stays behind in the environment, and only the child
      believes it, whether or not everything is exported afterwards. */
  lemma DroppedRowLivesOn(start: Process, again: bool)
    requires start == Process(map[], map[], map[], map[], map[])
    ensures var gone := Run(start, [Install([("K", "v")])] + [Install([])]);
            var q := if again then Step(gone, ExportAll) else gone;
            Lookup(q, "K") == None && Lookup(Child(q), "K") == Some("v")
  {
    OneRowKept();
    hide Kept, IsBlank;
    RunOneMore(start, [], Install([("K", "v")]));
    assert [] + [Install([("K", "v")])] == [Install([("K", "v")])];
    RunOneMore(start, [Install([("K", "v")])], Install([]));
    LaidAt(start, map["K" := "v"], "K");
    var first := Installed(start, [("K", "v")]);
    LaidAt(first, map[], "K");
    var gone := Installed(first, []);
    ExportedAt(gone, "K");
    hide Run, Laid, ExportedAll;
  }
}
