/** Closing the browser tabs an agent call leaves behind (cmd/src/browser.rs). No other client acts meanwhile, and a
    listing answers, except where it is said not to. */
module Tabs {

  type TabId = string

  /** What came of one request to close a tab. `Lost` closed it, but the reply never arrived. */
  datatype Answer = Done | Refused | Lost

  // ----- The tab list -----

  predicate Distinct(tabs: seq<TabId>) {
    forall i, j :: 0 <= i < j < |tabs| ==> tabs[i] != tabs[j]
  }

  /** The tabs outside a set, in order. */
  function Outside(tabs: seq<TabId>, s: set<TabId>): seq<TabId> {
    if tabs == [] then []
    else if tabs[0] in s then Outside(tabs[1..], s)
    else [tabs[0]] + Outside(tabs[1..], s)
  }

  /** The tabs inside a set, in order. */
  function Inside(tabs: seq<TabId>, s: set<TabId>): seq<TabId> {
    if tabs == [] then []
    else if tabs[0] in s then [tabs[0]] + Inside(tabs[1..], s)
    else Inside(tabs[1..], s)
  }

  /** One list is the other with some tabs left out: the same order, and so newest first like the listing. */
  predicate IsPartOf(part: seq<TabId>, tabs: seq<TabId>)
    decreases |tabs|
  {
    if part == [] then true
    else if tabs == [] then false
    else (part[0] == tabs[0] && IsPartOf(part[1..], tabs[1..])) || IsPartOf(part, tabs[1..])
  }

  function Without(tabs: seq<TabId>, id: TabId): seq<TabId> {
    Outside(tabs, {id})
  }

  function Ids(tabs: seq<TabId>): set<TabId> {
    set t | t in tabs
  }

  // ----- Closing -----

  datatype Outcome = Outcome(tabs: seq<TabId>, closed: nat)

  /** Asking for each tab in turn to be closed, for as long as more than one is thought to remain. */
  function Closing(tabs: seq<TabId>, ids: seq<TabId>, remaining: nat, answers: seq<Answer>): Outcome
    requires |answers| == |ids|
    decreases |ids|
  {
    if ids == [] || remaining <= 1 then Outcome(tabs, 0)
    else
      match answers[0]
      case Refused => Closing(tabs, ids[1..], remaining, answers[1..])
      case Lost => Closing(Without(tabs, ids[0]), ids[1..], remaining, answers[1..])
      case Done =>
        var rest := Closing(Without(tabs, ids[0]), ids[1..], remaining - 1, answers[1..]);
        Outcome(rest.tabs, rest.closed + 1)
  }

  function Trimmed(tabs: seq<TabId>, before: set<TabId>, max: nat): seq<TabId> {
    var mine := Outside(tabs, before);
    if max == 0 || |mine| <= max then [] else mine[max..]
  }

  class Browser {
    var tabs: seq<TabId>

    constructor (tabs: seq<TabId>)
      ensures this.tabs == tabs
    {
      this.tabs := tabs;
    }

    method CloseTarget(id: TabId, answer: Answer) returns (replied: bool)
      modifies this
      ensures tabs == if answer.Refused? then old(tabs) else Without(old(tabs), id)
      ensures replied <==> answer.Done?
    {
      if !answer.Refused? {
        tabs := Without(tabs, id);
      }
      replied := answer.Done?;
    }
  }

  class TabScope {
    const browser: Browser
    const before: set<TabId>

    /** Records the tabs that already exist; a listing that does not answer counts as none. */
    constructor (browser: Browser, answered: bool)
      ensures this.browser == browser
      ensures before == if answered then Ids(browser.tabs) else {}
    {
      this.browser := browser;
      before := if answered then Ids(browser.tabs) else {};
    }

    method Mine() returns (mine: seq<TabId>)
      ensures mine == Outside(browser.tabs, before)
      ensures forall t :: t in mine <==> t in browser.tabs && t !in before
      ensures IsPartOf(mine, browser.tabs)
    {
      mine := Outside(browser.tabs, before);
      OutsideKeeps(browser.tabs, before);
      OutsideIsPart(browser.tabs, before);
    }

    method Close(ids: seq<TabId>, answers: seq<Answer>) returns (closed: nat)
      requires |answers| == |ids|
      modifies browser
      ensures Outcome(browser.tabs, closed) == Closing(old(browser.tabs), ids, |old(browser.tabs)|, answers)
    {
      closed := 0;
      if ids == [] {
        return;
      }
      var remaining: nat := |browser.tabs|;
      ghost var goal := Closing(browser.tabs, ids, remaining, answers);
      assert ids[0..] == ids && answers[0..] == answers;
      for i := 0 to |ids|
        invariant var rest := Closing(browser.tabs, ids[i..], remaining, answers[i..]);
                  goal == Outcome(rest.tabs, closed + rest.closed)
      {
        assert ids[i..][1..] == ids[i + 1..] && answers[i..][1..] == answers[i + 1..];
        if remaining <= 1 {
          break;
        }
        var replied := browser.CloseTarget(ids[i], answers[i]);
        if replied {
          closed := closed + 1;
          remaining := remaining - 1;
        }
      }
    }

    method Reap(answers: seq<Answer>) returns (closed: nat)
      requires |answers| == |Outside(browser.tabs, before)|
      modifies browser
      ensures Outcome(browser.tabs, closed)
           == Closing(old(browser.tabs), Outside(old(browser.tabs), before), |old(browser.tabs)|, answers)
    {
      var mine := Mine();
      closed := Close(mine, answers);
    }

    method Trim(max: nat, answers: seq<Answer>) returns (closed: nat)
      requires |answers| == |Trimmed(browser.tabs, before, max)|
      modifies browser
      ensures Outcome(browser.tabs, closed)
           == Closing(old(browser.tabs), Trimmed(old(browser.tabs), before, max), |old(browser.tabs)|, answers)
    {
      if max == 0 {
        return 0;
      }
      var mine := Mine();
      if |mine| <= max {
        return 0;
      }
      closed := Close(mine[max..], answers);
    }
  }

  // ----- Lists -----

  lemma OutsideCons(t: TabId, rest: seq<TabId>, s: set<TabId>)
    ensures Outside([t] + rest, s) == if t in s then Outside(rest, s) else [t] + Outside(rest, s)
  {
    assert ([t] + rest)[1..] == rest;
  }

  lemma InsideCons(t: TabId, rest: seq<TabId>, s: set<TabId>)
    ensures Inside([t] + rest, s) == if t in s then [t] + Inside(rest, s) else Inside(rest, s)
  {
    assert ([t] + rest)[1..] == rest;
  }

  lemma {:induction false} OutsideKeeps(tabs: seq<TabId>, s: set<TabId>)
    ensures forall t :: t in Outside(tabs, s) <==> t in tabs && t !in s
    ensures Distinct(tabs) ==> Distinct(Outside(tabs, s))
    ensures |Outside(tabs, s)| + |Inside(tabs, s)| == |tabs|
  {
    if tabs != [] {
      var rest := tabs[1..];
      OutsideKeeps(rest, s);
      assert tabs == [tabs[0]] + rest;
      if Distinct(tabs) {
        HeadIsElsewhere(tabs);
        DistinctCons(tabs[0], Outside(rest, s));
      }
    }
  }

  lemma HeadIsElsewhere(tabs: seq<TabId>)
    requires tabs != [] && Distinct(tabs)
    ensures tabs[0] !in tabs[1..] && Distinct(tabs[1..])
  {
  }

  lemma DistinctCons(t: TabId, rest: seq<TabId>)
    ensures Distinct(rest) && t !in rest ==> Distinct([t] + rest)
  {
  }

  lemma {:induction false} OutsideIsPart(tabs: seq<TabId>, s: set<TabId>)
    ensures IsPartOf(Outside(tabs, s), tabs)
  {
    if tabs != [] {
      OutsideIsPart(tabs[1..], s);
      assert ([tabs[0]] + Outside(tabs[1..], s))[1..] == Outside(tabs[1..], s);
    }
  }

  /** Leaving out one set and then another is leaving out both. */
  lemma {:induction false} OutsideBoth(tabs: seq<TabId>, s: set<TabId>, t: set<TabId>)
    ensures Outside(Outside(tabs, s), t) == Outside(tabs, s + t)
  {
    if tabs != [] {
      OutsideBoth(tabs[1..], s, t);
      OutsideCons(tabs[0], Outside(tabs[1..], s), t);
    }
  }

  lemma OutsideTwice(tabs: seq<TabId>, s: set<TabId>, t: set<TabId>)
    ensures Outside(Outside(tabs, s), t) == Outside(Outside(tabs, t), s)
  {
    OutsideBoth(tabs, s, t);
    OutsideBoth(tabs, t, s);
    assert s + t == t + s;
  }

  /** Leaving out tabs that are not in a set leaves the set's alone. */
  lemma {:induction false} InsideOfOutside(tabs: seq<TabId>, t: set<TabId>, s: set<TabId>)
    requires s !! t
    ensures Inside(Outside(tabs, t), s) == Inside(tabs, s)
  {
    if tabs != [] {
      InsideOfOutside(tabs[1..], t, s);
      InsideCons(tabs[0], Outside(tabs[1..], t), s);
    }
  }

  /** Closing one of a list of distinct tabs takes one away. */
  lemma {:induction false} WithoutOne(tabs: seq<TabId>, id: TabId)
    requires Distinct(tabs) && id in tabs
    ensures |Without(tabs, id)| == |tabs| - 1
  {
    HeadIsElsewhere(tabs);
    if tabs[0] == id {
      OutsideNone(tabs[1..], {id});
    } else {
      WithoutOne(tabs[1..], id);
    }
  }

  lemma {:induction false} OutsideNone(tabs: seq<TabId>, s: set<TabId>)
    requires forall t <- tabs :: t !in s
    ensures Outside(tabs, s) == tabs
  {
    if tabs != [] {
      assert tabs[0] in tabs;
      OutsideNone(tabs[1..], s);
    }
  }

  // ----- Whatever the answers -----

  /** No tab but those asked for is ever touched, whatever the replies; the rest stay in order. */
  lemma {:induction false} OthersAreLeftAlone(tabs: seq<TabId>, ids: seq<TabId>, remaining: nat, answers: seq<Answer>,
                                              s: set<TabId>)
    requires |answers| == |ids| && forall t <- ids :: t !in s
    ensures Inside(Closing(tabs, ids, remaining, answers).tabs, s) == Inside(tabs, s)
    decreases |ids|
  {
    if ids != [] && remaining > 1 {
      assert ids[0] in ids;
      InsideOfOutside(tabs, {ids[0]}, s);
      match answers[0]
      case Refused => OthersAreLeftAlone(tabs, ids[1..], remaining, answers[1..], s);
      case Lost => OthersAreLeftAlone(Without(tabs, ids[0]), ids[1..], remaining, answers[1..], s);
      case Done => OthersAreLeftAlone(Without(tabs, ids[0]), ids[1..], remaining - 1, answers[1..], s);
    }
  }

  predicate AreTabs(ids: seq<TabId>, tabs: seq<TabId>) {
    Distinct(tabs) && Distinct(ids) && forall t <- ids :: t in tabs
  }

  /** The count is never too high, and while every reply arrives it is right. */
  lemma {:induction false} CountIsRight(tabs: seq<TabId>, ids: seq<TabId>, remaining: nat, answers: seq<Answer>)
    requires |answers| == |ids| && AreTabs(ids, tabs)
    ensures var out := Closing(tabs, ids, remaining, answers);
            && Distinct(out.tabs) && |out.tabs| + out.closed <= |tabs|
            && ((forall a <- answers :: !a.Lost?) ==> |out.tabs| + out.closed == |tabs|)
    decreases |ids|
  {
    if ids != [] && remaining > 1 {
      assert answers[0] in answers && forall a <- answers[1..] :: a in answers;
      OneClosed(tabs, ids);
      StillTabs(tabs, ids);
      hide Outside, AreTabs;
      match answers[0]
      case Refused => CountIsRight(tabs, ids[1..], remaining, answers[1..]);
      case Lost => CountIsRight(Without(tabs, ids[0]), ids[1..], remaining, answers[1..]);
      case Done => CountIsRight(Without(tabs, ids[0]), ids[1..], remaining - 1, answers[1..]);
    }
  }

  lemma {:induction false} AskedAreFew(tabs: seq<TabId>, ids: seq<TabId>)
    requires AreTabs(ids, tabs)
    ensures |ids| <= |tabs|
    decreases |ids|
  {
    if ids != [] {
      OneClosed(tabs, ids);
      AskedAreFew(Without(tabs, ids[0]), ids[1..]);
    }
  }

  predicate NoneRefused(answers: seq<Answer>) {
    forall a <- answers :: !a.Refused?
  }

  /** A reply was lost while there were still tabs to ask for. */
  predicate LostEarly(answers: seq<Answer>) {
    exists i :: 0 <= i < |answers| - 1 && answers[i].Lost?
  }

  lemma LaterAnswers(answers: seq<Answer>)
    requires |answers| > 1
    ensures NoneRefused(answers) <==> !answers[0].Refused? && NoneRefused(answers[1..])
    ensures LostEarly(answers) <==> answers[0].Lost? || LostEarly(answers[1..])
  {
    var rest := answers[1..];
    assert answers == [answers[0]] + rest;
    assert forall i :: 0 <= i < |rest| ==> answers[i + 1] == rest[i];
    assert forall i :: 1 <= i < |answers| - 1 ==> answers[i] == rest[i - 1];
  }

  lemma OneAnswer(a: Answer)
    ensures NoneRefused([a]) <==> !a.Refused?
    ensures !LostEarly([a])
  {
    assert [a][0] == a;
  }

  /** As many tabs may be thought to remain as do, or more: every lost reply leaves the count one too high. */
  lemma {:induction false} EmptiesExactlyFrom(tabs: seq<TabId>, ids: seq<TabId>, remaining: nat, answers: seq<Answer>)
    requires |answers| == |ids| && AreTabs(ids, tabs) && tabs != [] && |tabs| <= remaining
    ensures Closing(tabs, ids, remaining, answers).tabs == []
        <==> |ids| == |tabs| && NoneRefused(answers) && (|tabs| < remaining || LostEarly(answers))
    decreases |ids|
  {
    if ids != [] && remaining > 1 {
      hide NoneRefused, LostEarly, AreTabs, Outside;
      AskedAreFew(tabs, ids);
      OneClosed(tabs, ids);
      var rest := Without(tabs, ids[0]);
      AskedAreFew(rest, ids[1..]);
      if |ids| > 1 {
        LaterAnswers(answers);
      } else {
        OneAnswer(answers[0]);
        assert answers == [answers[0]];
      }
      if answers[0].Refused? {
        StillTabs(tabs, ids);
        EmptiesExactlyFrom(tabs, ids[1..], remaining, answers[1..]);
      } else if rest != [] {
        EmptiesExactlyFrom(rest, ids[1..], if answers[0].Done? then remaining - 1 else remaining, answers[1..]);
      } else {
        assert ids[1..] == [];
      }
    } else if ids != [] {
      OneTabAtMost(tabs, ids, answers);
    }
  }

  lemma StillTabs(tabs: seq<TabId>, ids: seq<TabId>)
    requires AreTabs(ids, tabs) && ids != []
    ensures AreTabs(ids[1..], tabs)
  {
    HeadIsElsewhere(ids);
  }

  lemma OneTabAtMost(tabs: seq<TabId>, ids: seq<TabId>, answers: seq<Answer>)
    requires AreTabs(ids, tabs) && |tabs| <= 1 && |answers| == |ids|
    ensures !LostEarly(answers)
  {
    AskedAreFew(tabs, ids);
  }

  /** The browser loses its last tab exactly when every tab was asked for, none was refused, and a reply was lost before
      the last was asked for. */
  lemma EmptiesExactly(tabs: seq<TabId>, ids: seq<TabId>, answers: seq<Answer>)
    requires |answers| == |ids| && AreTabs(ids, tabs) && tabs != []
    ensures Closing(tabs, ids, |tabs|, answers).tabs == []
        <==> |ids| == |tabs| && NoneRefused(answers) && LostEarly(answers)
  {
    EmptiesExactlyFrom(tabs, ids, |tabs|, answers);
  }

  /** So a tab that is not asked for keeps the browser open, whatever the replies. */
  lemma UnaskedTabIsLeft(tabs: seq<TabId>, ids: seq<TabId>, remaining: nat, answers: seq<Answer>, kept: TabId)
    requires |answers| == |ids| && kept in tabs && kept !in ids
    ensures kept in Closing(tabs, ids, remaining, answers).tabs
  {
    var end := Closing(tabs, ids, remaining, answers).tabs;
    OthersAreLeftAlone(tabs, ids, remaining, answers, {kept});
    InsideHas(tabs, kept);
    InsideHas(end, kept);
  }

  lemma {:induction false} InsideHas(tabs: seq<TabId>, t: TabId)
    ensures Inside(tabs, {t}) != [] <==> t in tabs
  {
    if tabs != [] {
      InsideHas(tabs[1..], t);
    }
  }

  /** And when all are asked for, one lost reply can close them all. */
  lemma LostReplyCanCloseTheBrowser(a: TabId, b: TabId)
    requires a != b
    ensures Closing([a, b], [a, b], 2, [Lost, Done]).tabs == []
  {
    assert [Lost, Done][0].Lost?;
    EmptiesExactly([a, b], [a, b], [Lost, Done]);
  }

  // ----- When every close succeeds -----

  function AllDone(n: nat): (answers: seq<Answer>)
    ensures |answers| == n && forall i :: 0 <= i < n ==> answers[i] == Done
  {
    seq(n, i => Done)
  }

  function Min(a: nat, b: nat): nat {
    if a <= b then a else b
  }

  /** How many closes are made of those asked for. */
  function Closable(asked: nat, total: nat): nat {
    if total == 0 then 0 else Min(asked, total - 1)
  }

  lemma IdsOneMore(ids: seq<TabId>, n: nat)
    requires n < |ids|
    ensures Ids(ids[..n + 1]) == {ids[0]} + Ids(ids[1..][..n])
  {
    assert ids[..n + 1] == [ids[0]] + ids[1..][..n];
  }

  lemma OneClosed(tabs: seq<TabId>, ids: seq<TabId>)
    requires AreTabs(ids, tabs) && ids != []
    ensures var rest := Without(tabs, ids[0]);
            |rest| == |tabs| - 1 && AreTabs(ids[1..], rest)
  {
    assert ids[0] in ids;
    OutsideKeeps(tabs, {ids[0]});
    WithoutOne(tabs, ids[0]);
    HeadIsElsewhere(ids);
  }

  lemma ClosingStep(tabs: seq<TabId>, ids: seq<TabId>)
    requires ids != [] && |tabs| > 1
    ensures var rest := Closing(Without(tabs, ids[0]), ids[1..], |tabs| - 1, AllDone(|ids| - 1));
            Closing(tabs, ids, |tabs|, AllDone(|ids|)) == Outcome(rest.tabs, rest.closed + 1)
  {
    assert AllDone(|ids|)[1..] == AllDone(|ids| - 1);
  }

  /** The tabs asked for are closed in order until one is left: `closed` of them, and nothing else. */
  lemma {:induction false} ClosesInOrder(tabs: seq<TabId>, ids: seq<TabId>)
    requires AreTabs(ids, tabs)
    ensures var out := Closing(tabs, ids, |tabs|, AllDone(|ids|));
            && out.closed == Closable(|ids|, |tabs|)
            && out.tabs == Outside(tabs, Ids(ids[..out.closed]))
    decreases |ids|
  {
    if ids == [] || |tabs| <= 1 {
      OutsideNone(tabs, {});
      assert Ids(ids[..0]) == {};
    } else {
      hide Outside, Closing, AreTabs, Ids;
      OneClosed(tabs, ids);
      ClosingStep(tabs, ids);
      ClosesInOrder(Without(tabs, ids[0]), ids[1..]);
      var n := Closable(|ids| - 1, |tabs| - 1);
      OutsideBoth(tabs, {ids[0]}, Ids(ids[1..][..n]));
      IdsOneMore(ids, n);
    }
  }

  /** Taking a tail's tabs away leaves the head. */
  lemma {:induction false} OutsideTail(tabs: seq<TabId>, n: nat)
    requires Distinct(tabs) && n <= |tabs|
    ensures Outside(tabs, Ids(tabs[n..])) == tabs[..n]
    decreases n
  {
    if n == 0 {
      OutsideAll(tabs, Ids(tabs[0..]));
    } else {
      assert tabs[1..][n - 1..] == tabs[n..];
      OutsideTail(tabs[1..], n - 1);
      assert tabs[..n] == [tabs[0]] + tabs[1..][..n - 1];
    }
  }

  lemma {:induction false} OutsideAll(tabs: seq<TabId>, s: set<TabId>)
    requires forall t <- tabs :: t in s
    ensures Outside(tabs, s) == []
  {
    if tabs != [] {
      assert tabs[0] in tabs;
      OutsideAll(tabs[1..], s);
    }
  }

  /** And taking a head's tabs away leaves the tail. */
  lemma {:induction false} OutsideHead(tabs: seq<TabId>, n: nat)
    requires Distinct(tabs) && n <= |tabs|
    ensures Outside(tabs, Ids(tabs[..n])) == tabs[n..]
    decreases |tabs|
  {
    if n == 0 {
      OutsideNone(tabs, {});
      assert Ids(tabs[..0]) == {};
    } else if n < |tabs| {
      var last := tabs[|tabs| - 1];
      var front := tabs[..|tabs| - 1];
      assert front[..n] == tabs[..n];
      OutsideHead(front, n);
      OutsideSnoc(front, last, Ids(tabs[..n]));
      assert front + [last] == tabs;
      assert front[n..] + [last] == tabs[n..];
    } else {
      assert tabs[..n] == tabs;
      OutsideAll(tabs, Ids(tabs));
    }
  }

  lemma {:induction false} OutsideSnoc(tabs: seq<TabId>, t: TabId, s: set<TabId>)
    ensures Outside(tabs + [t], s) == Outside(tabs, s) + if t in s then [] else [t]
  {
    if tabs != [] {
      assert (tabs + [t])[1..] == tabs[1..] + [t];
      OutsideSnoc(tabs[1..], t, s);
    } else {
      assert [t][1..] == [];
    }
  }

  /** A trim leaves exactly the newest `max` of the call's tabs, and a second one has nothing to close. */
  lemma TrimKeepsTheNewest(tabs: seq<TabId>, before: set<TabId>, max: nat)
    requires Distinct(tabs) && max > 0
    ensures var ids := Trimmed(tabs, before, max);
            var out := Closing(tabs, ids, |tabs|, AllDone(|ids|));
            var mine := Outside(tabs, before);
            && out.closed == |ids| == |mine| - Min(max, |mine|)
            && Outside(out.tabs, before) == mine[..Min(max, |mine|)]
            && Trimmed(out.tabs, before, max) == []
  {
    hide Closing, Outside, Inside, Distinct, AreTabs;
    var mine, ids := Outside(tabs, before), Trimmed(tabs, before, max);
    OutsideKeeps(tabs, before);
    AskedAreMine(tabs, before, TrimTo(max, []));
    ClosesInOrder(tabs, ids);
    assert ids[..|ids|] == ids;
    OutsideTwice(tabs, Ids(ids), before);
    if |mine| <= max {
      OutsideNone(mine, {});
      assert Ids(ids) == {};
      assert mine[..|mine|] == mine;
    } else {
      OutsideTail(mine, max);
    }
  }

  /** A reap closes all of the call's tabs, sparing the oldest only when nothing else would be left. */
  lemma ReapClosesAllButOne(tabs: seq<TabId>, before: set<TabId>)
    requires Distinct(tabs)
    ensures var mine := Outside(tabs, before);
            var out := Closing(tabs, mine, |tabs|, AllDone(|mine|));
            && out.closed == Closable(|mine|, |tabs|)
            && Outside(out.tabs, before) == (if |mine| < |tabs| || mine == [] then [] else [mine[|mine| - 1]])
            && Inside(out.tabs, before) == Inside(tabs, before)
  {
    var mine := Outside(tabs, before);
    OutsideKeeps(tabs, before);
    ClosesInOrder(tabs, mine);
    var n := Closable(|mine|, |tabs|);
    OutsideTwice(tabs, Ids(mine[..n]), before);
    OutsideHead(mine, n);
    OthersAreLeftAlone(tabs, mine, |tabs|, AllDone(|mine|), before);
  }

  // ----- A whole call -----

  /** What happens to the tabs during a call: the agent opens one, the watchdog trims, or the call ends. */
  datatype Event =
    | Opened(id: TabId)
    | TrimTo(max: nat, answers: seq<Answer>)
    | Reaped(answers: seq<Answer>)

  predicate CanHappen(tabs: seq<TabId>, before: set<TabId>, e: Event) {
    match e
    case Opened(id) => id !in tabs && id !in before
    case TrimTo(max, answers) => |answers| == |Trimmed(tabs, before, max)|
    case Reaped(answers) => |answers| == |Outside(tabs, before)|
  }

  function After(tabs: seq<TabId>, before: set<TabId>, e: Event): seq<TabId>
    requires CanHappen(tabs, before, e)
  {
    match e
    case Opened(id) => [id] + tabs
    case TrimTo(max, answers) => Closing(tabs, Trimmed(tabs, before, max), |tabs|, answers).tabs
    case Reaped(answers) => Closing(tabs, Outside(tabs, before), |tabs|, answers).tabs
  }

  /** A run of a call that can happen, event by event. */
  predicate IsRun(tabs: seq<TabId>, before: set<TabId>, events: seq<Event>, end: seq<TabId>)
    decreases |events|
  {
    if events == [] then end == tabs
    else CanHappen(tabs, before, events[0]) && IsRun(After(tabs, before, events[0]), before, events[1..], end)
  }

  /** The tabs an event asks to have closed. */
  function Asked(tabs: seq<TabId>, before: set<TabId>, e: Event): seq<TabId> {
    match e
    case Opened(_) => []
    case TrimTo(max, _) => Trimmed(tabs, before, max)
    case Reaped(_) => Outside(tabs, before)
  }

  lemma AskedAreMine(tabs: seq<TabId>, before: set<TabId>, e: Event)
    ensures forall t <- Asked(tabs, before, e) :: t in tabs && t !in before
    ensures Distinct(tabs) ==> AreTabs(Asked(tabs, before, e), tabs)
    ensures e.TrimTo? && tabs != [] ==> |Asked(tabs, before, e)| < |tabs|
    ensures e.Reaped? ==> (|Asked(tabs, before, e)| == |tabs| <==> Inside(tabs, before) == [])
  {
    OutsideKeeps(tabs, before);
    assert forall t <- Asked(tabs, before, e) :: t in Outside(tabs, before);
  }

  lemma EventKeeps(tabs: seq<TabId>, before: set<TabId>, e: Event)
    requires CanHappen(tabs, before, e)
    ensures Inside(After(tabs, before, e), before) == Inside(tabs, before)
    ensures Distinct(tabs) ==> Distinct(After(tabs, before, e))
  {
    AskedAreMine(tabs, before, e);
    if e.Opened? {
      assert ([e.id] + tabs)[1..] == tabs;
      DistinctCons(e.id, tabs);
    } else {
      OthersAreLeftAlone(tabs, Asked(tabs, before, e), |tabs|, e.answers, before);
      if Distinct(tabs) {
        CountIsRight(tabs, Asked(tabs, before, e), |tabs|, e.answers);
      }
    }
  }

  /** What can take the last tab: a reap whose closes all went through, one of them unheard. Never a trim. */
  predicate MayEmpty(e: Event) {
    e.Reaped? && NoneRefused(e.answers) && LostEarly(e.answers)
  }

  /** And it does so exactly when no earlier tab is left. */
  lemma EventEmptiesExactly(tabs: seq<TabId>, before: set<TabId>, e: Event)
    requires Distinct(tabs) && tabs != [] && CanHappen(tabs, before, e)
    ensures After(tabs, before, e) == [] <==> MayEmpty(e) && Inside(tabs, before) == []
  {
    if !e.Opened? {
      hide Outside, Inside, Distinct, LostEarly, NoneRefused, Closing;
      AskedAreMine(tabs, before, e);
      EmptiesExactly(tabs, Asked(tabs, before, e), e.answers);
    }
  }

  /** Over any call at all, replies lost and closes refused included: the tabs that were there when it opened are all
      still there at the end, in order. So if there was one, the browser never loses its last tab. */
  lemma {:induction false} CallLeavesTheRestAlone(tabs: seq<TabId>, before: set<TabId>, events: seq<Event>,
                                                  end: seq<TabId>)
    requires IsRun(tabs, before, events, end)
    ensures Inside(end, before) == Inside(tabs, before)
    ensures Inside(tabs, before) != [] ==> end != []
    decreases |events|
  {
    if events != [] {
      EventKeeps(tabs, before, events[0]);
      CallLeavesTheRestAlone(After(tabs, before, events[0]), before, events[1..], end);
    }
  }

  /** And where there was none, it keeps one unless a reap loses a reply while closing all it asks for. */
  lemma {:induction false} CallKeepsOneTab(tabs: seq<TabId>, before: set<TabId>, events: seq<Event>, end: seq<TabId>)
    requires Distinct(tabs) && tabs != [] && IsRun(tabs, before, events, end)
    requires Inside(tabs, before) != [] || forall e <- events :: !MayEmpty(e)
    ensures end != []
    decreases |events|
  {
    if events != [] {
      assert events[0] in events && forall e <- events[1..] :: e in events;
      EventKeeps(tabs, before, events[0]);
      EventEmptiesExactly(tabs, before, events[0]);
      CallKeepsOneTab(After(tabs, before, events[0]), before, events[1..], end);
    }
  }

  lemma {:induction false} InsideAll(tabs: seq<TabId>, s: set<TabId>)
    requires forall t <- tabs :: t in s
    ensures Inside(tabs, s) == tabs
  {
    if tabs != [] {
      assert tabs[0] in tabs;
      InsideAll(tabs[1..], s);
    }
  }

  /** The scope protects what it recorded: all the tabs there were, or, when the listing did not answer, none; then a
      reap at once leaves only the oldest tab of somebody else's. */
  lemma UnansweredListingProtectsNothing(tabs: seq<TabId>)
    requires Distinct(tabs) && tabs != []
    ensures Inside(tabs, Ids(tabs)) == tabs && Outside(tabs, Ids(tabs)) == []
    ensures var out := Closing(tabs, Outside(tabs, {}), |tabs|, AllDone(|Outside(tabs, {})|));
            out.tabs == [tabs[|tabs| - 1]]
  {
    InsideAll(tabs, Ids(tabs));
    OutsideAll(tabs, Ids(tabs));
    OutsideNone(tabs, {});
    ReapClosesAllButOne(tabs, {});
    OutsideNone(Closing(tabs, tabs, |tabs|, AllDone(|tabs|)).tabs, {});
  }
}
