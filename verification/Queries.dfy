/** Terminal queries in a byte stream and their removal from replayed output. */
module Queries {
  import opened Basics
  import opened Utf8

  const ESC: byte := 0x1B
  const BRACKET: byte := 0x5B

  /** Parameter bytes of a control sequence, section 5.4 of ECMA-48. */
  predicate IsParam(b: byte) {
    0x30 <= b <= 0x3F
  }

  /** The program's own class: digits and the characters : ; ? < = > */
  predicate InQueryClass(b: byte) {
    0x30 <= b <= 0x39 || b == 0x3A || b == 0x3B || b == 0x3F || b == 0x3C || b == 0x3D || b == 0x3E
  }

  lemma QueryClassIsParam(b: byte)
    ensures InQueryClass(b) <==> IsParam(b)
  {
  }

  /** Final bytes n (Device Status Report) and c (Device Attributes). */
  predicate IsFinal(b: byte) {
    b == 0x6E || b == 0x63
  }

  /** data[i..j] is a query: ESC [ params* final. */
  predicate Query(data: seq<byte>, i: int, j: int) {
    && 0 <= i && i + 3 <= j <= |data|
    && data[i] == ESC && data[i + 1] == BRACKET && IsFinal(data[j - 1])
    && (forall k :: i + 2 <= k < j - 1 ==> InQueryClass(data[k]))
  }

  // ---------------------------------------------------------------------------
  // The leftmost scan

  /** How many class bytes lead `data`. */
  function ParamRun(data: seq<byte>): (n: nat)
    ensures n <= |data|
    ensures forall k :: 0 <= k < n ==> InQueryClass(data[k])
    ensures n < |data| ==> !InQueryClass(data[n])
  {
    if data == [] || !InQueryClass(data[0]) then 0 else 1 + ParamRun(data[1..])
  }

  /** The length of the match at the front of `data`, or 0. */
  function MatchLength(data: seq<byte>): (n: nat)
    ensures n <= |data|
  {
    if |data| >= 2 && data[0] == ESC && data[1] == BRACKET then
      var run := ParamRun(data[2..]);
      if run + 2 < |data| && IsFinal(data[run + 2]) then run + 3 else 0
    else
      0
  }

  /** How far the scan moves at a non-empty `data`: past a match, or one byte. */
  function Advance(data: seq<byte>): (n: nat)
    requires data != []
    ensures 1 <= n <= |data|
  {
    if MatchLength(data) > 0 then MatchLength(data) else 1
  }

  /** What that move keeps. */
  function Emitted(data: seq<byte>): (r: seq<byte>)
    requires data != []
    ensures |r| <= 1
  {
    if MatchLength(data) > 0 then [] else [data[0]]
  }

  function Strip(data: seq<byte>): (r: seq<byte>)
    ensures |r| <= |data|
  {
    if data == [] then [] else Emitted(data) + Strip(data[Advance(data)..])
  }

  /** The scanner finds a match exactly where a query starts, and its only end. */
  lemma MatchIsQuery(data: seq<byte>, j: nat)
    ensures MatchLength(data) == j && j > 0 <==> Query(data, 0, j)
  {
    if |data| >= 2 {
      var run := ParamRun(data[2..]);
      forall k | 2 <= k < run + 2 ensures InQueryClass(data[k]) {
        assert data[k] == data[2..][k - 2];
      }
      assert run + 2 < |data| ==> data[run + 2] == data[2..][run];
    }
  }

  // ---------------------------------------------------------------------------
  // What the scan means

  /** Two queries that share a byte are the same query: a start has one end, and
      no query begins inside another. */
  lemma QueriesDisjoint(data: seq<byte>, i: int, j: int, i': int, j': int)
    requires Query(data, i, j) && Query(data, i', j')
    ensures i == i' ==> j == j'
    ensures i < i' ==> j <= i'
  {
  }

  ghost predicate Covered(data: seq<byte>, p: int) {
    exists i, j :: Query(data, i, j) && i <= p < j
  }

  /** The bytes from `from` on that belong to no query, in order. */
  ghost function Kept(data: seq<byte>, from: nat): seq<byte>
    requires from <= |data|
    decreases |data| - from
  {
    if from == |data| then []
    else (if Covered(data, from) then [] else [data[from]]) + Kept(data, from + 1)
  }

  lemma QueryShift(data: seq<byte>, from: nat, i: int, j: int)
    requires from <= |data| && 0 <= i
    ensures Query(data[from..], i, j) <==> Query(data, from + i, from + j)
  {
    if Query(data, from + i, from + j) {
      forall k | i + 2 <= k < j - 1 ensures InQueryClass(data[from..][k]) {
        assert InQueryClass(data[from + k]);
      }
    }
    if Query(data[from..], i, j) {
      forall k | from + i + 2 <= k < from + j - 1 ensures InQueryClass(data[k]) {
        assert InQueryClass(data[from..][k - from]);
      }
    }
  }

  /** No query runs across position `p`. */
  ghost predicate CleanCut(data: seq<byte>, p: int) {
    forall i, j :: Query(data, i, j) ==> !(i < p < j)
  }

  lemma QueryEdgesClean(d: seq<byte>, i: int, j: int)
    requires Query(d, i, j)
    ensures CleanCut(d, i) && CleanCut(d, j)
  {
    forall i', j' | Query(d, i', j') ensures !(i' < i < j') && !(i' < j < j') {
      QueriesDisjoint(d, i, j, i', j');
      QueriesDisjoint(d, i', j', i, j);
    }
  }

  lemma {:induction false} KeptSkips(data: seq<byte>, from: nat, to: nat)
    requires from <= to <= |data|
    requires forall p :: from <= p < to ==> Covered(data, p)
    ensures Kept(data, from) == Kept(data, to)
    decreases |data| - from
  {
    if from < to {
      KeptSkips(data, from + 1, to);
    }
  }

  /** The leftmost scan deletes exactly the bytes of all queries and keeps the
      rest in order, from any position no query runs across. */
  lemma {:induction false} StripFrom(data: seq<byte>, from: nat)
    requires from <= |data| && CleanCut(data, from)
    ensures Strip(data[from..]) == Kept(data, from)
    decreases |data| - from
  {
    hide Strip, Kept, MatchLength, Covered, CleanCut, Query;
    if from == |data| {
      NothingLeft(data);
    } else {
      var n := MatchLength(data[from..]);
      if n > 0 {
        MatchAtSkips(data, from, n);
        StripFrom(data, from + n);
      } else {
        NoMatchKeeps(data, from);
        StripFrom(data, from + 1);
      }
    }
  }

  lemma NothingLeft(data: seq<byte>)
    ensures Strip(data[|data|..]) == Kept(data, |data|)
  {
    assert data[|data|..] == [];
  }

  /** Where the scan finds a match, it skips exactly the bytes one query covers. */
  lemma MatchAtSkips(data: seq<byte>, from: nat, n: nat)
    requires from <= |data| && n == MatchLength(data[from..]) && n > 0
    ensures from + n <= |data| && CleanCut(data, from + n)
    ensures Strip(data[from..]) == Strip(data[from + n..])
    ensures Kept(data, from) == Kept(data, from + n)
  {
    hide Strip, Kept;
    MatchIsQuery(data[from..], n);
    QueryShift(data, from, 0, n);
    QueryEdgesClean(data, from, from + n);
    KeptSkips(data, from, from + n) by {
      assert Query(data, from, from + n);
    }
    StripMatchAt(data, from, from + n);
  }

  lemma StripMatchAt(d: seq<byte>, i: int, j: int)
    requires Query(d, i, j)
    ensures Strip(d[i..]) == Strip(d[j..])
  {
    hide Query, MatchLength, Strip;
    QueryNotEmpty(d, i, j);
    QueryShift(d, i, 0, j - i);
    MatchIsQuery(d[i..], j - i);
    StripUnfolds(d[i..]);
    assert d[i..][j - i..] == d[j..];
  }

  lemma QueryNotEmpty(d: seq<byte>, i: int, j: int)
    requires Query(d, i, j)
    ensures 0 <= i && i + 3 <= j <= |d|
  {
  }

  lemma StripUnfolds(d: seq<byte>)
    requires d != []
    ensures Strip(d) == Emitted(d) + Strip(d[Advance(d)..])
  {
  }

  /** Where the scan finds nothing no query covers the byte, and it is kept. */
  lemma NoMatchKeeps(data: seq<byte>, from: nat)
    requires from < |data| && CleanCut(data, from) && MatchLength(data[from..]) == 0
    ensures CleanCut(data, from + 1) && !Covered(data, from)
    ensures Strip(data[from..]) == [data[from]] + Strip(data[from + 1..])
    ensures Kept(data, from) == [data[from]] + Kept(data, from + 1)
  {
    forall i, j | Query(data, i, j) ensures i != from {
      QueryShift(data, from, 0, j - from);
      MatchIsQuery(data[from..], if j > from then j - from else 0);
    }
    assert data[from..][1..] == data[from + 1..];
  }

  lemma StripKeepsUncovered(data: seq<byte>)
    ensures Strip(data) == Kept(data, 0)
  {
    StripFrom(data, 0);
    assert data[0..] == data;
  }

  // ---------------------------------------------------------------------------
  // Cutting a stream

  lemma QueryPrefix(a: seq<byte>, b: seq<byte>, i: int, j: int)
    requires j <= |a|
    ensures Query(a, i, j) <==> Query(a + b, i, j)
  {
    if Query(a + b, i, j) {
      forall k | i + 2 <= k < j - 1 ensures InQueryClass(a[k]) {
        assert InQueryClass((a + b)[k]);
      }
    }
  }

  lemma QuerySuffix(a: seq<byte>, b: seq<byte>, i: int, j: int)
    requires 0 <= i
    ensures Query(b, i, j) <==> Query(a + b, |a| + i, |a| + j)
  {
    QueryShift(a + b, |a|, i, j);
    assert (a + b)[|a|..] == b;
  }

  lemma CleanCutAfter(a: seq<byte>, b: seq<byte>, m: nat)
    requires m <= |a| && CleanCut(a + b, |a|)
    ensures CleanCut(a[m..] + b, |a| - m)
  {
    forall i, j | Query(a[m..] + b, i, j) ensures !(i < |a| - m < j) {
      QuerySuffix(a[..m], a[m..] + b, i, j);
      assert a[..m] + (a[m..] + b) == a + b;
    }
  }

  /** A match that starts in `a` is decided within `a`, if no query runs across. */
  lemma MatchWithin(a: seq<byte>, b: seq<byte>)
    requires a != [] && CleanCut(a + b, |a|)
    ensures MatchLength(a + b) == MatchLength(a)
  {
    var n, m := MatchLength(a + b), MatchLength(a);
    MatchIsQuery(a + b, n);
    MatchIsQuery(a, m);
    if n > 0 {
      QueryPrefix(a, b, 0, n);
      MatchIsQuery(a, n);
    } else if m > 0 {
      QueryPrefix(a, b, 0, m);
      MatchIsQuery(a + b, m);
    }
  }

  /** Stripping two parts separately equals stripping the whole when no query
      runs across the cut. */
  lemma {:induction false} StripSplit(a: seq<byte>, b: seq<byte>)
    requires CleanCut(a + b, |a|)
    ensures Strip(a + b) == Strip(a) + Strip(b)
    decreases |a|
  {
    hide Strip, CleanCut;
    if a == [] {
      assert a + b == b && Strip(a) == [] by { StripNothing(a); }
    } else {
      MatchWithin(a, b);
      var m := Advance(a);
      CleanCutAfter(a, b, m);
      assert (a + b)[m..] == a[m..] + b && (a + b)[0] == a[0];
      StripUnfolds(a);
      StripUnfolds(a + b);
      StripSplit(a[m..], b);
      Associative(Emitted(a), Strip(a[m..]), Strip(b));
    }
  }

  lemma StripNothing(a: seq<byte>)
    requires a == []
    ensures Strip(a) == []
  {
  }

  /** Around one query: what is kept is what is kept before it and after it. */
  lemma StripAround(d: seq<byte>, i: int, j: int)
    requires Query(d, i, j)
    ensures Strip(d) == Strip(d[..i]) + Strip(d[j..])
  {
    QueryEdgesClean(d, i, j);
    assert d[..i] + d[i..] == d;
    StripSplit(d[..i], d[i..]);
    StripMatchAt(d, i, j);
  }

  /** The part of a straddling query before the cut is kept, if cut off. */
  lemma CutOffFrontKept(a: seq<byte>, b: seq<byte>, i: nat, j: nat)
    requires Query(a + b, i, j) && i < |a| < j
    ensures Strip(a) == Strip(a[..i]) + Strip(a[i..]) && Strip(a[i..]) != []
  {
    forall i', j' | Query(a, i', j') ensures !(i' < i < j') && i' != i {
      QueryPrefix(a, b, i', j');
      QueriesDisjoint(a + b, i, j, i', j');
      QueriesDisjoint(a + b, i', j', i, j);
    }
    assert a[..i] + a[i..] == a;
    StripSplit(a[..i], a[i..]);
    var m := MatchLength(a[i..]);
    MatchIsQuery(a[i..], m);
    QueryShift(a, i, 0, m);
  }

  lemma CutOffBackClean(a: seq<byte>, b: seq<byte>, i: nat, j: nat)
    requires Query(a + b, i, j) && i < |a| < j
    ensures Strip(b) == Strip(b[..j - |a|]) + Strip(b[j - |a|..])
  {
    var k := j - |a|;
    forall i', j' | Query(b, i', j') ensures !(i' < k < j') {
      QuerySuffix(a, b, i', j');
      QueriesDisjoint(a + b, i, j, |a| + i', |a| + j');
    }
    assert b[..k] + b[k..] == b;
    StripSplit(b[..k], b[k..]);
  }

  /** A query across the cut makes the separate results strictly longer. */
  lemma {:induction false} StraddlingCosts(a: seq<byte>, b: seq<byte>, i: nat, j: nat)
    requires Query(a + b, i, j) && i < |a| < j
    ensures |Strip(a + b)| < |Strip(a)| + |Strip(b)|
  {
    hide Strip, Query;
    StripAround(a + b, i, j);
    QueryNotEmpty(a + b, i, j);
    CutOffFrontKept(a, b, i, j);
    CutOffBackClean(a, b, i, j);
    assert (a + b)[..i] == a[..i] && (a + b)[j..] == b[j - |a|..];
  }

  /** Stripping distributes over a cut exactly when no query runs across it. */
  lemma StripDistributesIff(a: seq<byte>, b: seq<byte>)
    ensures Strip(a + b) == Strip(a) + Strip(b) <==> CleanCut(a + b, |a|)
  {
    if CleanCut(a + b, |a|) {
      StripSplit(a, b);
    } else {
      var i, j :| Query(a + b, i, j) && i < |a| < j;
      StraddlingCosts(a, b, i, j);
    }
  }

  // ---------------------------------------------------------------------------
  // When is stripped output free of queries?

  ghost predicate QueryFree(data: seq<byte>) {
    forall i, j :: !Query(data, i, j)
  }

  lemma {:induction false} QueryFreeKept(data: seq<byte>)
    requires QueryFree(data)
    ensures Strip(data) == data
  {
    if data != [] {
      MatchIsQuery(data, MatchLength(data));
      forall i, j ensures !Query(data[1..], i, j) {
        if Query(data[1..], i, j) {
          QueryShift(data, 1, i, j);
        }
      }
      QueryFreeKept(data[1..]);
    }
  }

  /** Stripping changes nothing exactly when there is no query. */
  lemma {:induction false} StripFixedIff(data: seq<byte>)
    ensures Strip(data) == data <==> QueryFree(data)
  {
    if QueryFree(data) {
      QueryFreeKept(data);
    } else {
      var i, j :| Query(data, i, j);
      StripAround(data, i, j);
    }
  }

  /** `data` ends in a sequence that has begun and not finished: ESC, or ESC [ params*. */
  ghost predicate Unfinished(data: seq<byte>) {
    exists i :: 0 <= i < |data| && data[i] == ESC && UnfinishedFrom(data, i)
  }

  predicate UnfinishedFrom(data: seq<byte>, i: nat)
    requires i < |data|
  {
    && (i + 1 < |data| ==> data[i + 1] == BRACKET)
    && (forall k :: i + 2 <= k < |data| ==> InQueryClass(data[k]))
  }

  /** Passing over the bytes of all queries, d[i..e] reads ESC [ params* final: an ESC at
      `i` that starts no query, its bracket at `p` and its final at `e`, torn apart by the
      queries in between. */
  ghost predicate Torn(d: seq<byte>, i: int, p: int, e: int) {
    && 0 <= i && !Covered(d, i) && i < |d| && d[i] == ESC
    && Opened(d, i + 1, p, e)
  }

  /** Passing over queries, d[from..] goes on with a bracket at `p` and ends at `e`. */
  ghost predicate Opened(d: seq<byte>, from: int, p: int, e: int) {
    && 0 <= from <= p < |d| && d[p] == BRACKET && !Covered(d, p)
    && (forall k :: from <= k < p ==> Covered(d, k))
    && Closed(d, p + 1, e)
  }

  /** Passing over queries, d[from..e] is parameters and d[e] a final. */
  ghost predicate Closed(d: seq<byte>, from: int, e: int) {
    && 0 <= from <= e < |d| && IsFinal(d[e]) && !Covered(d, e)
    && (forall k :: from <= k < e ==> Covered(d, k) || InQueryClass(d[k]))
  }

  // --- the same of what is left once the queries are gone

  predicate ReadsFinal(s: seq<byte>) {
    s != [] && (IsFinal(s[0]) || (InQueryClass(s[0]) && ReadsFinal(s[1..])))
  }

  predicate ReadsBracket(s: seq<byte>) {
    s != [] && s[0] == BRACKET && ReadsFinal(s[1..])
  }

  lemma {:induction false} ReadsFinalRun(s: seq<byte>)
    ensures ReadsFinal(s) <==> ParamRun(s) < |s| && IsFinal(s[ParamRun(s)])
  {
    if s != [] && InQueryClass(s[0]) {
      ReadsFinalRun(s[1..]);
    }
  }

  lemma MatchReads(s: seq<byte>)
    requires s != []
    ensures MatchLength(s) > 0 <==> s[0] == ESC && ReadsBracket(s[1..])
  {
    if |s| >= 2 {
      ReadsFinalRun(s[2..]);
      assert s[1..][1..] == s[2..];
    }
  }

  lemma ClosedStep(d: seq<byte>, from: nat, e: int)
    requires from < |d|
    ensures Closed(d, from, e) <==>
            if e == from then !Covered(d, from) && IsFinal(d[from])
            else Closed(d, from + 1, e) && (Covered(d, from) || InQueryClass(d[from]))
  {
    hide Covered;
  }

  lemma {:induction false} ClosedIff(d: seq<byte>, from: nat)
    requires from <= |d|
    ensures ReadsFinal(Kept(d, from)) <==> exists e :: Closed(d, from, e)
    decreases |d| - from
  {
    hide Covered, Closed, Kept;
    if from == |d| {
      NoneClosed(d);
    } else {
      var next := from + 1;
      ClosedIff(d, next);
      ClosedStep(d, from, from);
      if e :| Closed(d, from, e) {
        ClosedStep(d, from, e);
      }
      if e :| Closed(d, next, e) {
        ClosedStep(d, from, e);
        ClosedNotBefore(d, next, e);
      }
      KeptStep(d, from, next);
    }
  }

  lemma KeptStep(d: seq<byte>, from: nat, next: nat)
    requires from < |d| && next == from + 1
    ensures if Covered(d, from) then Kept(d, from) == Kept(d, next)
            else Kept(d, from) == [d[from]] + Kept(d, next) && Kept(d, from)[1..] == Kept(d, next)
  {
    hide Covered;
  }

  lemma NoneClosed(d: seq<byte>)
    ensures Kept(d, |d|) == []
    ensures forall e :: !Closed(d, |d|, e)
    ensures forall p, e :: !Opened(d, |d|, p, e)
  {
  }

  lemma OpenedStep(d: seq<byte>, from: nat, p: int, e: int)
    requires from < |d|
    ensures Opened(d, from, p, e) <==>
            if p == from then !Covered(d, from) && d[from] == BRACKET && Closed(d, from + 1, e)
            else Opened(d, from + 1, p, e) && Covered(d, from)
  {
    hide Covered, Closed;
  }

  lemma {:induction false} OpenedIff(d: seq<byte>, from: nat)
    requires from <= |d|
    ensures ReadsBracket(Kept(d, from)) <==> exists p, e :: Opened(d, from, p, e)
    decreases |d| - from
  {
    hide Covered, Closed, Opened, ReadsFinal, Kept;
    if from == |d| {
      NoneClosed(d);
    } else {
      var next := from + 1;
      OpenedIff(d, next);
      ClosedIff(d, next);
      if p, e :| Opened(d, from, p, e) {
        OpenedStep(d, from, p, e);
      }
      if p, e :| Opened(d, next, p, e) {
        OpenedStep(d, from, p, e);
        OpenedNotBefore(d, next, p, e);
      }
      if e :| Closed(d, next, e) {
        OpenedStep(d, from, from, e);
      }
      KeptStep(d, from, next);
    }
  }

  lemma ClosedNotBefore(d: seq<byte>, from: int, e: int)
    requires Closed(d, from, e)
    ensures 0 <= from <= e < |d|
  {
  }

  lemma OpenedNotBefore(d: seq<byte>, from: int, p: int, e: int)
    requires Opened(d, from, p, e)
    ensures 0 <= from <= p < e < |d|
  {
  }

  lemma QueryFreeStep(c: byte, s: seq<byte>)
    ensures QueryFree([c] + s) <==> MatchLength([c] + s) == 0 && QueryFree(s)
  {
    var d := [c] + s;
    assert d[1..] == s;
    MatchIsQuery(d, MatchLength(d));
    forall i, j ensures Query(s, i, j) ==> Query(d, i + 1, j + 1) {
      if i >= 0 {
        QueryShift(d, 1, i, j);
      }
    }
    forall i, j | Query(d, i, j) ensures MatchLength(d) > 0 || Query(s, i - 1, j - 1) {
      if i == 0 {
        MatchIsQuery(d, j);
      } else {
        QueryShift(d, 1, i - 1, j - 1);
      }
    }
  }

  lemma {:induction false} TornFrom(d: seq<byte>, from: nat)
    requires from <= |d|
    ensures QueryFree(Kept(d, from)) <==> forall i, p, e :: Torn(d, i, p, e) ==> i < from
    decreases |d| - from
  {
    hide Covered, Opened, QueryFree, ReadsBracket, MatchLength;
    if from == |d| {
      NoQueryInNothing();
    } else {
      var next := from + 1;
      TornFrom(d, next);
      OpenedIff(d, next);
      KeptStep(d, from, next);
      if !Covered(d, from) {
        QueryFreeStep(d[from], Kept(d, next));
        MatchReads(Kept(d, from));
        TornHere(d, from, next);
      }
    }
  }

  lemma NoQueryInNothing()
    ensures QueryFree([])
  {
  }

  lemma TornHere(d: seq<byte>, i: nat, next: nat)
    requires i < |d| && next == i + 1 && !Covered(d, i)
    ensures (exists p, e :: Torn(d, i, p, e)) <==> d[i] == ESC && exists p, e :: Opened(d, next, p, e)
  {
    hide Covered, Opened;
    if p, e :| Opened(d, next, p, e) && d[i] == ESC {
      assert Torn(d, i, p, e);
    }
    if p, e :| Torn(d, i, p, e) {
      assert Opened(d, next, p, e);
    }
  }

  /** A replay is free of queries exactly when the stream has no ESC [ params* final torn
      apart by queries. */
  lemma {:induction false} ReplayQueryFreeIff(d: seq<byte>)
    ensures QueryFree(Strip(d)) <==> !exists i, p, e :: Torn(d, i, p, e)
  {
    hide *;
    StripKeepsUncovered(d);
    TornFrom(d, 0);
    forall i, p, e | Torn(d, i, p, e) ensures i >= 0 {
      TornEnds(d, i, p, e);
    }
  }

  /** Stripping twice is stripping once under the same exact condition. */
  lemma {:induction false} StripIdempotentIff(d: seq<byte>)
    ensures Strip(Strip(d)) == Strip(d) <==> !exists i, p, e :: Torn(d, i, p, e)
  {
    hide *;
    ReplayQueryFreeIff(d);
    StripFixedIff(Strip(d));
  }

  lemma {:induction false} FirstCovered(d: seq<byte>, lo: int, hi: int) returns (k: int)
    requires 0 <= lo <= hi <= |d|
    requires exists q :: lo <= q < hi && Covered(d, q)
    ensures lo <= k < hi && Covered(d, k)
    ensures forall q :: lo <= q < k ==> !Covered(d, q)
    decreases hi - lo
  {
    k := lo;
    if !Covered(d, lo) {
      k := FirstCovered(d, lo + 1, hi);
    }
  }

  lemma UntornIsQuery(d: seq<byte>, i: int, e: int)
    requires 0 <= i && i + 2 <= e < |d|
    ensures d[i] == ESC && d[i + 1] == BRACKET && IsFinal(d[e]) && (forall k :: i + 2 <= k < e ==> InQueryClass(d[k]))
            ==> Covered(d, i)
  {
    assert Query(d, i, e + 1) ==> Covered(d, i);
  }

  lemma TornHoldsCovered(d: seq<byte>, i: int, p: int, e: int)
    requires Torn(d, i, p, e)
    ensures exists q :: i + 1 <= q < e && Covered(d, q)
  {
    hide Covered;
    UntornIsQuery(d, i, e);
    assert p > i + 1 ==> Covered(d, i + 1);
  }

  lemma UnfinishedUpTo(d: seq<byte>, i: int, p: int, e: int, a: int)
    requires Torn(d, i, p, e) && i < a < e && Covered(d, a)
    requires forall q :: i + 1 <= q < a ==> !Covered(d, q)
    ensures Unfinished(d[..a])
  {
    hide Covered;
    assert p > i + 1 ==> Covered(d, i + 1);
    assert UnfinishedFrom(d[..a], i);
  }

  /** What tears it apart: a query directly after its unfinished beginning. */
  lemma TornByQuery(d: seq<byte>, i: int, p: int, e: int) returns (a: int, b: int)
    requires Torn(d, i, p, e)
    ensures i < a && b <= e && Query(d, a, b) && Unfinished(d[..a])
  {
    hide Query, Torn, Unfinished;
    TornHoldsCovered(d, i, p, e);
    TornEnds(d, i, p, e);
    a := FirstCovered(d, i + 1, e);
    ghost var start: int;
    start, b :| Query(d, start, b) && start <= a < b;
    QueryNotEmpty(d, start, b);
    assert Covered(d, start);
    assert b <= e && start == a;
    UnfinishedUpTo(d, i, p, e, a);
  }

  lemma TornEnds(d: seq<byte>, i: int, p: int, e: int)
    requires Torn(d, i, p, e)
    ensures 0 <= i < p < e < |d| && !Covered(d, i) && !Covered(d, e)
  {
  }

  /** If a query is left in a replay, the stream holds such a sequence with a removed query
      standing inside it. */
  lemma LeftoverQuerySplits(d: seq<byte>, i: int, j: int)
    requires Query(Strip(d), i, j)
    ensures exists start, p, e, a, b ::
              Torn(d, start, p, e) && start < a && b <= e && Query(d, a, b) && Unfinished(d[..a])
  {
    hide Torn, Unfinished, Strip, Query;
    assert !QueryFree(Strip(d));
    ReplayQueryFreeIff(d);
    var start, p, e :| Torn(d, start, p, e);
    var a, b := TornByQuery(d, start, p, e);
  }

  /** In particular a replay is free of queries, and stripping again changes nothing,
      when no query directly follows an unfinished sequence. */
  lemma ReplayQueryFree(d: seq<byte>)
    requires forall a, b :: Query(d, a, b) ==> !Unfinished(d[..a])
    ensures QueryFree(Strip(d)) && Strip(Strip(d)) == Strip(d)
  {
    hide Torn, Unfinished, Strip, Query, QueryFree;
    ReplayQueryFreeIff(d);
    if i, p, e :| Torn(d, i, p, e) {
      var a, b := TornByQuery(d, i, p, e);
    }
    StripFixedIff(Strip(d));
  }

  /** The two queries, with any parameters, go entirely; a sequence with another final
      stays. */
  lemma QueriesGo(params: seq<byte>, final: byte)
    requires forall k :: 0 <= k < |params| ==> 0x30 <= params[k] <= 0x3F
    ensures final == 0x6E || final == 0x63 ==> Strip([0x1B, 0x5B] + params + [final]) == []
    ensures 0x40 <= final <= 0x7E && final != 0x6E && final != 0x63 ==>
              Strip([0x1B, 0x5B] + params + [final]) == [0x1B, 0x5B] + params + [final]
  {
    hide Strip;
    var d := [0x1B, 0x5B] + params + [final];
    assert forall k :: 2 <= k < |d| - 1 ==> d[k] == params[k - 2];
    assert d[|d| - 1] == final;
    if final == 0x6E || final == 0x63 {
      assert Query(d, 0, |d|);
      StripAround(d, 0, |d|);
      StripNothing(d[..0]);
      StripNothing(d[|d|..]);
    } else if 0x40 <= final <= 0x7E {
      assert forall i, j :: Query(d, i, j) ==> i == 0 && IsFinal(d[j - 1]);
      StripFixedIff(d);
    }
  }

  /** The condition is needed: ESC [ ESC [ 6 n 6 n strips to the query ESC [ 6 n. */
  lemma NestedQueryLeftOver()
    ensures var q: seq<byte> := [ESC, BRACKET, 0x36, 0x6E];
            Strip([ESC, BRACKET] + q + [0x36, 0x6E]) == q && Query(q, 0, 4)
  {
    hide Strip;
    var q: seq<byte> := [ESC, BRACKET, 0x36, 0x6E];
    var d := [ESC, BRACKET] + q + [0x36, 0x6E];
    assert Query(d, 2, 6);
    StripAround(d, 2, 6);
    assert d[..2] == [ESC, BRACKET] && d[6..] == [0x36, 0x6E];
    StripShort([ESC, BRACKET]);
    StripShort([0x36, 0x6E]);
  }

  lemma StripShort(d: seq<byte>)
    requires |d| < 3
    ensures Strip(d) == d
  {
    QueryFreeKept(d);
  }
}
