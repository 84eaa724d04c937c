/** The first balanced span in a model's reply (cmd/src/agent.rs). The brackets are single octets of UTF-8, which
    occur inside no other character, so characters stand for the octets the source walks. */
module Span {
  import opened Text

  /** Opening brackets less closing ones. */
  function Net(t: string, open: char, close: char): int {
    if t == "" then 0
    else
      var c := t[|t| - 1];
      Net(t[..|t| - 1], open, close) + if c == open then 1 else if c == close then -1 else 0
  }

  /** A text whose first bracket is closed by its last character and not before. */
  predicate IsGroup(t: string, open: char, close: char) {
    && |t| >= 2 && Net(t, open, close) == 0
    && forall k :: 0 < k < |t| ==> Net(t[..k], open, close) > 0
  }

  /** How many brackets are open; a closing one with none open is passed over. */
  function Depth(s: string, open: char, close: char): nat {
    if s == "" then 0
    else
      var d, c := Depth(s[..|s| - 1], open, close), s[|s| - 1];
      if c == open then d + 1 else if c == close && d > 0 then d - 1 else d
  }

  /** A group that stands inside no other bracket. */
  ghost predicate IsTop(s: string, open: char, close: char, start: nat, end: nat) {
    start < end <= |s| && Depth(s[..start], open, close) == 0 && IsGroup(s[start..end], open, close)
  }

  ghost predicate HasTop(s: string, open: char, close: char) {
    exists start: nat, end: nat :: IsTop(s, open, close, start, end)
  }

  ghost predicate IsFirst(s: string, open: char, close: char, start: nat, end: nat) {
    && IsTop(s, open, close, start, end)
    && forall st: nat, e: nat :: IsTop(s, open, close, st, e) ==> end <= e
  }

  /** The first top-level group, if there is one. */
  ghost predicate Finds(s: string, open: char, close: char, span: Option<string>) {
    if span.None? then !HasTop(s, open, close)
    else exists start: nat, end: nat :: IsFirst(s, open, close, start, end) && span.value == s[start..end]
  }

  /** Square brackets are tried first; braces only when they give nothing. */
  ghost predicate IsSpan(s: string, span: Option<string>) {
    if HasTop(s, '[', ']') then Finds(s, '[', ']', span) else Finds(s, '{', '}', span)
  }

  // ----- Depth and groups -----

  lemma NetStep(s: string, open: char, close: char, start: nat, i: nat)
    requires start <= i < |s|
    ensures Net(s[start..i + 1], open, close)
         == Net(s[start..i], open, close) + if s[i] == open then 1 else if s[i] == close then -1 else 0
  {
    assert s[start..i + 1][..i - start] == s[start..i];
  }

  lemma DepthStep(s: string, open: char, close: char, i: nat)
    requires i < |s|
    ensures var d := Depth(s[..i], open, close);
            Depth(s[..i + 1], open, close) ==
            if s[i] == open then d + 1 else if s[i] == close && d > 0 then d - 1 else d
  {
    assert s[..i + 1][..i] == s[..i];
  }

  /** From a place outside every bracket, while more are open than closed, the depth is the difference. */
  lemma {:induction false} DepthIsNet(s: string, open: char, close: char, start: nat, end: nat)
    requires start <= end <= |s| && open != close && Depth(s[..start], open, close) == 0
    requires forall k :: start < k < end ==> Net(s[start..k], open, close) > 0
    requires start < end ==> s[start] == open
    ensures Net(s[start..end], open, close) >= 0
    ensures Depth(s[..end], open, close) == Net(s[start..end], open, close)
    decreases end
  {
    hide Depth, Net;
    if start == end {
      NetOfNothing(s[start..end], open, close);
    } else {
      DepthIsNet(s, open, close, start, end - 1);
      if end - 1 == start {
        NetOfNothing(s[start..start], open, close);
      }
      NetStep(s, open, close, start, end - 1);
      DepthStep(s, open, close, end - 1);
    }
  }

  lemma NetOfNothing(t: string, open: char, close: char)
    requires t == ""
    ensures Net(t, open, close) == 0
  {
  }

  /** A top-level group's prefixes are its text's prefixes. */
  lemma GroupPrefixes(s: string, open: char, close: char, start: nat, end: nat)
    requires IsTop(s, open, close, start, end) && open != close
    ensures end - start >= 2 && s[start] == open
    ensures forall k :: start < k < end ==> Net(s[start..k], open, close) > 0
  {
    var t := s[start..end];
    forall k | start < k < end
      ensures Net(s[start..k], open, close) > 0
    {
      assert t[..k - start] == s[start..k];
    }
    hide Net;
    NetStep(s, open, close, start, start);
    NetOfNothing(s[start..start], open, close);
  }

  /** Such a group ends where the depth falls from one to none. */
  lemma TopEndsAtZero(s: string, open: char, close: char, start: nat, end: nat)
    requires IsTop(s, open, close, start, end) && open != close
    ensures Depth(s[..end], open, close) == 0 && Depth(s[..end - 1], open, close) == 1
    ensures s[end - 1] == close
  {
    GroupPrefixes(s, open, close, start, end);
    DepthIsNet(s, open, close, start, end);
    DepthIsNet(s, open, close, start, end - 1);
    NetStep(s, open, close, start, end - 1);
  }

  /** The bracket at `start` was opened outside every other and is still open at `i`. */
  ghost predicate IsOpen(s: string, open: char, close: char, start: nat, i: nat) {
    && start < i <= |s| && s[start] == open && Depth(s[..start], open, close) == 0
    && forall k :: start < k <= i ==> Net(s[start..k], open, close) > 0
  }

  lemma OpenDepth(s: string, open: char, close: char, start: nat, i: nat)
    requires IsOpen(s, open, close, start, i) && open != close
    ensures Depth(s[..i], open, close) == Net(s[start..i], open, close)
  {
    DepthIsNet(s, open, close, start, i);
  }

  lemma NewlyOpen(s: string, open: char, close: char, i: nat)
    requires i < |s| && s[i] == open && Depth(s[..i], open, close) == 0
    ensures IsOpen(s, open, close, i, i + 1)
  {
    NetStep(s, open, close, i, i);
    NetOfNothing(s[i..i], open, close);
  }

  lemma StaysOpen(s: string, open: char, close: char, start: nat, i: nat)
    requires IsOpen(s, open, close, start, i) && open != close
    requires i < |s| && Depth(s[..i + 1], open, close) > 0
    ensures IsOpen(s, open, close, start, i + 1)
  {
    hide Net;
    OpenDepth(s, open, close, start, i);
    NetStep(s, open, close, start, i);
    DepthStep(s, open, close, i);
  }

  lemma NowClosed(s: string, open: char, close: char, start: nat, i: nat)
    requires IsOpen(s, open, close, start, i) && open != close
    requires i < |s| && s[i] == close && Depth(s[..i], open, close) == 1
    ensures start < i && IsTop(s, open, close, start, i + 1)
  {
    hide Net;
    OpenDepth(s, open, close, start, i);
    NetStep(s, open, close, start, i);
    var t := s[start..i + 1];
    forall k | 0 < k < |t|
      ensures Net(t[..k], open, close) > 0
    {
      assert t[..k] == s[start..start + k];
    }
  }

  ghost predicate NoneEndsBy(s: string, open: char, close: char, i: nat) {
    forall start: nat, end: nat :: IsTop(s, open, close, start, end) ==> end > i
  }

  lemma NoneEndsHere(s: string, open: char, close: char, i: nat)
    requires i < |s| && open != close && NoneEndsBy(s, open, close, i)
    requires Depth(s[..i], open, close) != 1 || s[i] != close
    ensures NoneEndsBy(s, open, close, i + 1)
  {
    hide Depth, IsTop;
    forall start: nat, end: nat | IsTop(s, open, close, start, end)
      ensures end > i + 1
    {
      TopEndsAtZero(s, open, close, start, end);
    }
  }

  // ----- The search -----

  method FindSpan(s: string, open: char, close: char) returns (span: Option<string>)
    requires open != close
    ensures Finds(s, open, close, span)
  {
    hide Depth, IsTop, IsOpen;
    var depth := 0;
    var start := 0;
    DepthOfNothing(open, close);
    assert s[..0] == "";
    NothingYet(s, open, close);
    for i := 0 to |s|
      invariant depth == Depth(s[..i], open, close)
      invariant depth > 0 ==> 0 <= start && IsOpen(s, open, close, start, i)
      invariant NoneEndsBy(s, open, close, i)
    {
      DepthStep(s, open, close, i);
      if s[i] == open {
        NoneEndsHere(s, open, close, i);
        if depth == 0 {
          start := i;
          NewlyOpen(s, open, close, i);
        } else {
          StaysOpen(s, open, close, start, i);
        }
        depth := depth + 1;
      } else if s[i] == close && depth > 0 {
        depth := depth - 1;
        if depth == 0 {
          NowClosed(s, open, close, start, i);
          assert IsFirst(s, open, close, start, i + 1);
          return Some(s[start..i + 1]);
        }
        StaysOpen(s, open, close, start, i);
        NoneEndsHere(s, open, close, i);
      } else {
        NoneEndsHere(s, open, close, i);
        if depth > 0 {
          StaysOpen(s, open, close, start, i);
        }
      }
    }
    EndsInside(s, open, close);
    span := None;
  }

  lemma DepthOfNothing(open: char, close: char)
    ensures Depth("", open, close) == 0
  {
  }

  lemma NothingYet(s: string, open: char, close: char)
    ensures NoneEndsBy(s, open, close, 0)
  {
    hide Depth, IsGroup;
  }

  lemma EndsInside(s: string, open: char, close: char)
    ensures forall start: nat, end: nat :: IsTop(s, open, close, start, end) ==> end <= |s|
  {
    hide Depth, IsGroup;
  }

  method BalancedSpan(s: string) returns (span: Option<string>)
    ensures IsSpan(s, span)
  {
    hide IsFirst, IsTop;
    span := FindSpan(s, '[', ']');
    if span.Some? {
      FoundIsThere(s, '[', ']', span);
      return;
    }
    span := FindSpan(s, '{', '}');
  }

  lemma FoundIsThere(s: string, open: char, close: char, span: Option<string>)
    requires Finds(s, open, close, span) && span.Some?
    ensures HasTop(s, open, close)
  {
    hide IsTop;
  }

  // ----- What it comes to -----

  /** The top-level group ending at a place is the only one. */
  lemma TopIsUnique(s: string, open: char, close: char, a: nat, b: nat, end: nat)
    requires IsTop(s, open, close, a, end) && IsTop(s, open, close, b, end) && open != close
    ensures a == b
  {
    GroupPrefixes(s, open, close, a, end);
    GroupPrefixes(s, open, close, b, end);
    hide Depth, IsGroup, Net;
    if a < b {
      DepthIsNet(s, open, close, a, b);
    } else if b < a {
      DepthIsNet(s, open, close, b, a);
    }
  }

  lemma FindsIsUnique(s: string, open: char, close: char, a: Option<string>, b: Option<string>)
    requires open != close && Finds(s, open, close, a) && Finds(s, open, close, b)
    ensures a == b
    ensures a.Some? ==> IsGroup(a.value, open, close)
  {
    hide IsGroup, Depth;
    if a.Some? && b.Some? {
      var p: nat, m: nat :| IsFirst(s, open, close, p, m) && a.value == s[p..m];
      var q: nat, n: nat :| IsFirst(s, open, close, q, n) && b.value == s[q..n];
      assert m == n;
      hide IsFirst;
      TopIsUnique(s, open, close, p, q, m);
    }
  }

  /** So the search has one right answer: the group, if any, that ends first among those inside no other bracket. */
  lemma SpanIsUnique(s: string, a: Option<string>, b: Option<string>)
    requires IsSpan(s, a) && IsSpan(s, b)
    ensures a == b
    ensures a.Some? ==> IsGroup(a.value, '[', ']') || IsGroup(a.value, '{', '}')
  {
    hide Finds, HasTop, IsGroup;
    if HasTop(s, '[', ']') {
      FindsIsUnique(s, '[', ']', a, b);
    } else {
      FindsIsUnique(s, '{', '}', a, b);
    }
  }

  predicate HasNo(s: string, c: char) {
    forall x <- s :: x != c
  }

  lemma {:induction false} ProseHasNoDepth(s: string, open: char, close: char)
    requires HasNo(s, open)
    ensures Depth(s, open, close) == 0
  {
    if s != "" {
      var front := s[..|s| - 1];
      assert s[|s| - 1] in s && forall x <- front :: x in s;
      ProseHasNoDepth(front, open, close);
    }
  }

  /** A group after prose with no opening bracket is found exactly, whatever follows it. */
  lemma GroupAfterProse(prose: string, group: string, rest: string, open: char, close: char)
    requires open != close && HasNo(prose, open) && IsGroup(group, open, close)
    ensures Finds(prose + group + rest, open, close, Some(group))
  {
    var s, start, end := prose + group + rest, |prose|, |prose| + |group|;
    assert s[..start] == prose && s[start..end] == group;
    ProseHasNoDepth(prose, open, close);
    forall i | 0 <= i < start
      ensures s[i] != open
    {
      assert s[i] == prose[i] && prose[i] in prose;
    }
    assert IsTop(s, open, close, start, end);
    forall st: nat, e: nat | IsTop(s, open, close, st, e)
      ensures end <= e
    {
      GroupPrefixes(s, open, close, st, e);
      TopEndsAtZero(s, open, close, st, e);
      GroupPrefixes(s, open, close, start, end);
      if e < end && start < e {
        DepthIsNet(s, open, close, start, e);
      }
    }
    assert IsFirst(s, open, close, start, end);
  }

  /** The span a reply's array or object comes back as, when nothing bracketed stands in front of it. */
  lemma ReplyAfterProse(prose: string, group: string, rest: string)
    requires HasNo(prose, '[')
    ensures IsGroup(group, '[', ']') ==> IsSpan(prose + group + rest, Some(group))
    ensures IsGroup(group, '{', '}') && HasNo(prose, '{') && !HasTop(prose + group + rest, '[', ']') ==>
              IsSpan(prose + group + rest, Some(group))
  {
    hide IsGroup, IsFirst, HasNo, HasTop;
    if IsGroup(group, '[', ']') {
      GroupAfterProse(prose, group, rest, '[', ']');
      FoundIsThere(prose + group + rest, '[', ']', Some(group));
    }
    if IsGroup(group, '{', '}') && HasNo(prose, '{') {
      GroupAfterProse(prose, group, rest, '{', '}');
    }
  }

  /** An unclosed bracket hides every group behind it: only what ended in front of it can be found. */
  lemma UnclosedBracketHides(s: string, open: char, close: char, j: nat)
    requires j < |s| && open != close && IsOpen(s, open, close, j, |s|)
    ensures forall start: nat, end: nat :: IsTop(s, open, close, start, end) ==> end <= j
  {
    forall start: nat, end: nat | IsTop(s, open, close, start, end)
      ensures end <= j
    {
      GroupPrefixes(s, open, close, start, end);
      TopEndsAtZero(s, open, close, start, end);
      hide IsTop, Depth, Net;
      if end > j {
        DepthIsNet(s, open, close, j, end);
      }
    }
  }

  /** Strings mean nothing to the search: the first closing brace ends a flat object, even one inside a quoted value. */
  lemma FirstClosingBraceEnds(inner: string, rest: string)
    requires HasNo(inner, '{') && HasNo(inner, '}')
    ensures Finds(['{'] + inner + ['}'] + rest, '{', '}', Some(['{'] + inner + ['}']))
  {
    var group := ['{'] + inner + ['}'];
    GroupOfPlain(inner, '{', '}');
    GroupAfterProse("", group, rest, '{', '}');
    assert "" + group + rest == group + rest;
  }

  lemma {:induction false} NetOfPlain(t: string, open: char, close: char)
    requires t != "" && t[0] == open && forall k :: 0 < k < |t| ==> t[k] != open && t[k] != close
    ensures Net(t, open, close) == 1
  {
    if |t| > 1 {
      NetOfPlain(t[..|t| - 1], open, close);
    } else {
      assert t[..0] == "";
    }
  }

  lemma GroupOfPlain(inner: string, open: char, close: char)
    requires open != close && HasNo(inner, open) && HasNo(inner, close)
    ensures IsGroup([open] + inner + [close], open, close)
  {
    var t := [open] + inner + [close];
    forall k | 0 < k < |t|
      ensures Net(t[..k], open, close) == 1
    {
      forall i | 0 < i < k
        ensures t[i] != open && t[i] != close
      {
        assert t[i] == inner[i - 1] && inner[i - 1] in inner;
      }
      NetOfPlain(t[..k], open, close);
    }
    assert t[..|t| - 1] == [open] + inner;
  }
}
