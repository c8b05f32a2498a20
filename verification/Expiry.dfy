/** `CacheItems.Filter` of `client/doomsday/client.go` and the windows the dashboard cuts with it. A certificate's
    expiry is a whole number of seconds, a cutoff a number of nanoseconds. */
module Expiry {
  import opened Options
  import opened Times

  datatype CacheItem = CacheItem(commonName: string, notAfter: int)

  /** `cutoff.Before(time.Unix(notAfter, 0))`. */
  predicate After(x: CacheItem, cutoff: int) {
    cutoff < x.notAfter * SECOND
  }

  ghost predicate ByExpiry(s: seq<CacheItem>) {
    forall i, j | 0 <= i < j < |s| :: s[i].notAfter <= s[j].notAfter
  }

  /** The items that expire after the cutoff, and those that do not, in order. */
  function Later(s: seq<CacheItem>, cutoff: int): seq<CacheItem> {
    if s == [] then [] else (if After(s[0], cutoff) then [s[0]] else []) + Later(s[1..], cutoff)
  }

  function UpTo(s: seq<CacheItem>, cutoff: int): seq<CacheItem> {
    if s == [] then [] else (if After(s[0], cutoff) then [] else [s[0]]) + UpTo(s[1..], cutoff)
  }

  lemma {:induction false} AllAfter(s: seq<CacheItem>, cutoff: int)
    requires forall x | x in s :: After(x, cutoff)
    ensures Later(s, cutoff) == s && UpTo(s, cutoff) == []
  {
    if s != [] {
      AllAfter(s[1..], cutoff);
    }
  }

  lemma {:induction false} NoneAfter(s: seq<CacheItem>, cutoff: int)
    requires forall x | x in s :: !After(x, cutoff)
    ensures Later(s, cutoff) == [] && UpTo(s, cutoff) == s
  {
    if s != [] {
      NoneAfter(s[1..], cutoff);
    }
  }

  lemma {:induction false} Concat(s: seq<CacheItem>, t: seq<CacheItem>, cutoff: int)
    ensures Later(s + t, cutoff) == Later(s, cutoff) + Later(t, cutoff)
    ensures UpTo(s + t, cutoff) == UpTo(s, cutoff) + UpTo(t, cutoff)
  {
    if s == [] {
      assert s + t == t;
    } else {
      assert (s + t)[0] == s[0] && (s + t)[1..] == s[1..] + t;
      Concat(s[1..], t, cutoff);
      hide After;
      var later, upTo := if After(s[0], cutoff) then [s[0]] else [], if After(s[0], cutoff) then [] else [s[0]];
      assert later + (Later(s[1..], cutoff) + Later(t, cutoff)) == later + Later(s[1..], cutoff) + Later(t, cutoff);
      assert upTo + (UpTo(s[1..], cutoff) + UpTo(t, cutoff)) == upTo + UpTo(s[1..], cutoff) + UpTo(t, cutoff);
    }
  }

  /** On a sorted list the first item after the cutoff splits it in two. */
  lemma SplitAt(s: seq<CacheItem>, k: nat, cutoff: int)
    requires ByExpiry(s) && k <= |s|
    requires forall i | 0 <= i < k :: !After(s[i], cutoff)
    requires k < |s| ==> After(s[k], cutoff)
    ensures Later(s, cutoff) == s[k..] && UpTo(s, cutoff) == s[..k]
  {
    hide Later, UpTo;
    assert s == s[..k] + s[k..];
    SuffixAfter(s, k, cutoff);
    NoneAfter(s[..k], cutoff);
    AllAfter(s[k..], cutoff);
    Concat(s[..k], s[k..], cutoff);
  }

  lemma SuffixAfter(s: seq<CacheItem>, k: nat, cutoff: int)
    requires ByExpiry(s) && k <= |s| && (k < |s| ==> After(s[k], cutoff))
    ensures forall x | x in s[k..] :: After(x, cutoff)
  {
    forall i | k <= i < |s|
      ensures After(s[i], cutoff)
    {
      assert s[k].notAfter <= s[i].notAfter;
    }
  }

  lemma SuffixByExpiry(s: seq<CacheItem>, k: nat)
    requires ByExpiry(s) && k <= |s|
    ensures ByExpiry(s[k..])
  {
  }

  /** What the two loops of `Filter` keep: with no later item at all, `Beyond` keeps everything. */
  function Beyond(s: seq<CacheItem>, cutoff: int): seq<CacheItem> {
    if Later(s, cutoff) == [] then s else Later(s, cutoff)
  }

  /** In numbers, with both cutoffs in nanoseconds: the list starts with the first item that expires after the first
      cutoff, or at the front if there is none, and goes on up to the next item that expires after the second one. */
  ghost predicate IsCut(s: seq<CacheItem>, beyond: Option<int>, within: Option<int>, from: int, to: int) {
    && 0 <= from <= to <= |s|
    && (match beyond
        case None => from == 0
        case Some(cutoff) =>
          || (from == 0 && forall i | 0 <= i < |s| :: s[i].notAfter * 1_000_000_000 <= cutoff)
          || ((forall i | 0 <= i < from :: s[i].notAfter * 1_000_000_000 <= cutoff)
              && from < |s| && s[from].notAfter * 1_000_000_000 > cutoff))
    && (match within
        case None => to == |s|
        case Some(cutoff) =>
          && (forall i | from <= i < to :: s[i].notAfter * 1_000_000_000 <= cutoff)
          && (to < |s| ==> s[to].notAfter * 1_000_000_000 > cutoff))
  }

  ghost predicate CutOut(s: seq<CacheItem>, beyond: Option<int>, within: Option<int>, part: seq<CacheItem>) {
    exists from, to :: IsCut(s, beyond, within, from, to) && part == s[from..to]
  }

  /** The clock is read once for each cutoff. Whatever the order of the list, it is cut as `CutOut` says; on a sorted
      list that leaves what lies between the cutoffs. */
  method Filter(c: seq<CacheItem>, beyond: Option<int>, within: Option<int>, first: int, second: int)
    returns (ret: seq<CacheItem>)
    ensures CutOut(c, CutoffAt(beyond, first), CutoffAt(within, second), ret)
    ensures ByExpiry(c) ==>
              var b := if beyond.Some? then Beyond(c, first + beyond.value) else c;
              ret == if within.Some? then UpTo(b, second + within.value) else b
  {
    hide Later, UpTo, Beyond, IsCut, CutOut, After, ByExpiry;
    var from: nat := 0;
    CutNowhere(c);
    if beyond.Some? {
      var cutoff := first + beyond.value;
      var i := FirstLater(c, cutoff);
      from := if i < |c| then i else 0;
      CutBeyond(c, i, cutoff);
    } else {
      assert c[from..] == c;
    }
    ret := KeepWithin(c[from..], within, second);
    CutsTogether(c, beyond, within, first, second, from, ret);
  }

  lemma CutNowhere(c: seq<CacheItem>)
    ensures IsCut(c, None, None, 0, |c|)
  {
  }

  lemma CutBeyond(c: seq<CacheItem>, i: nat, cutoff: int)
    requires i <= |c| && (forall k | 0 <= k < i :: !After(c[k], cutoff)) && (i < |c| ==> After(c[i], cutoff))
    ensures var from := if i < |c| then i else 0;
            && IsCut(c, Some(cutoff), None, from, |c|)
            && (ByExpiry(c) ==> c[from..] == Beyond(c, cutoff) && ByExpiry(c[from..]))
  {
    hide Later, UpTo;
    if ByExpiry(c) {
      SplitAt(c, i, cutoff);
      SuffixByExpiry(c, i);
      assert c[0..] == c;
    }
  }

  /** A cutoff, from a reading of the clock. */
  function CutoffAt(bound: Option<int>, now: int): Option<int> {
    if bound.Some? then Some(now + bound.value) else None
  }

  lemma CutsTogether(c: seq<CacheItem>, beyond: Option<int>, within: Option<int>, first: int, second: int, from: nat,
                     ret: seq<CacheItem>)
    requires from <= |c| && IsCut(c[from..], None, CutoffAt(within, second), 0, |ret|) && ret == c[from..][..|ret|]
    requires IsCut(c, CutoffAt(beyond, first), None, from, |c|)
    ensures CutOut(c, CutoffAt(beyond, first), CutoffAt(within, second), ret)
  {
    assert forall i | from <= i < |c| :: c[i] == c[from..][i-from];
    assert IsCut(c, CutoffAt(beyond, first), CutoffAt(within, second), from, from + |ret|);
    assert ret == c[from..from+|ret|];
  }

  /** The loop that looks for the first item that expires after the cutoff. */
  method FirstLater(s: seq<CacheItem>, cutoff: int) returns (i: nat)
    ensures i <= |s| && (forall k | 0 <= k < i :: !After(s[k], cutoff)) && (i < |s| ==> After(s[i], cutoff))
  {
    i := 0;
    while i < |s|
      invariant 0 <= i <= |s|
      invariant forall k | 0 <= k < i :: !After(s[k], cutoff)
    {
      if After(s[i], cutoff) {
        break;
      }
      i := i + 1;
    }
  }

  /** The second loop of `Filter`. */
  method KeepWithin(c: seq<CacheItem>, within: Option<int>, now: int) returns (ret: seq<CacheItem>)
    ensures |ret| <= |c| && ret == c[..|ret|] && IsCut(c, None, CutoffAt(within, now), 0, |ret|)
    ensures ByExpiry(c) ==> ret == if within.Some? then UpTo(c, now + within.value) else c
  {
    ret := c;
    if within.Some? {
      var cutoff := now + within.value;
      var i := FirstLater(c, cutoff);
      if ByExpiry(c) {
        SplitAt(c, i, cutoff);
      }
      ret := ret[..i];
    }
  }

  // ---------- the dashboard

  const THREE_DAYS: int := 3 * DAY
  const TWO_WEEKS: int := 14 * DAY
  const FOUR_WEEKS: int := 28 * DAY

  function Window(s: seq<CacheItem>, from: int, to: int): seq<CacheItem> {
    UpTo(Beyond(s, from), to)
  }

  /** What expires after one cutoff and not after another. */
  function Between(s: seq<CacheItem>, from: int, to: int): seq<CacheItem> {
    UpTo(Later(s, from), to)
  }

  /** The cutoffs of the dashboard's five lists, in the order in which it reads the clock. */
  function Cutoffs(clock: seq<int>): seq<int>
    requires |clock| == 8
  {
    [clock[0], clock[1], clock[2] + THREE_DAYS, clock[3] + THREE_DAYS, clock[4] + TWO_WEEKS, clock[5] + TWO_WEEKS,
     clock[6] + FOUR_WEEKS, clock[7] + FOUR_WEEKS]
  }

  /** The first four lists are disjoint and make up the last one. */
  predicate Tiles(s: seq<CacheItem>, c: seq<int>)
    requires |c| == 8
  {
    UpTo(s, c[0]) + Window(s, c[1], c[2]) + Window(s, c[3], c[4]) + Window(s, c[5], c[6]) == UpTo(s, c[7])
  }

  method Dashboard(results: seq<CacheItem>, clock: seq<int>)
    returns (expired: seq<CacheItem>, within3Days: seq<CacheItem>, within2Weeks: seq<CacheItem>,
             within4Weeks: seq<CacheItem>, withinDash: seq<CacheItem>)
    requires ByExpiry(results) && |clock| == 8
    ensures expired == UpTo(results, clock[0]) && withinDash == UpTo(results, clock[7] + FOUR_WEEKS)
    ensures within3Days == Window(results, clock[1], clock[2] + THREE_DAYS)
    ensures within2Weeks == Window(results, clock[3] + THREE_DAYS, clock[4] + TWO_WEEKS)
    ensures within4Weeks == Window(results, clock[5] + TWO_WEEKS, clock[6] + FOUR_WEEKS)
    ensures expired + within3Days + within2Weeks + within4Weeks == withinDash <==> Tiles(results, Cutoffs(clock))
    ensures CutOut(results, None, Some(clock[0]), expired)
    ensures CutOut(results, Some(clock[1]), Some(clock[2] + 259_200_000_000_000), within3Days)
    ensures CutOut(results, Some(clock[3] + 259_200_000_000_000), Some(clock[4] + 1_209_600_000_000_000), within2Weeks)
    ensures CutOut(results, Some(clock[5] + 1_209_600_000_000_000), Some(clock[6] + 2_419_200_000_000_000),
                   within4Weeks)
    ensures CutOut(results, None, Some(clock[7] + 2_419_200_000_000_000), withinDash)
  {
    hide Later, UpTo, Beyond, CutOut, IsCut;
    expired := Filter(results, None, Some(0), clock[0], clock[0]);
    within3Days := Filter(results, Some(0), Some(THREE_DAYS), clock[1], clock[2]);
    within2Weeks := Filter(results, Some(THREE_DAYS), Some(TWO_WEEKS), clock[3], clock[4]);
    within4Weeks := Filter(results, Some(TWO_WEEKS), Some(FOUR_WEEKS), clock[5], clock[6]);
    withinDash := Filter(results, None, Some(FOUR_WEEKS), clock[7], clock[7]);
  }

  lemma {:induction false} SplitLengths(s: seq<CacheItem>, cutoff: int)
    ensures |UpTo(s, cutoff)| + |Later(s, cutoff)| == |s|
  {
    if s != [] {
      SplitLengths(s[1..], cutoff);
    }
  }

  lemma {:induction false} LaterThanLater(s: seq<CacheItem>, c: int, d: int)
    requires c <= d
    ensures Later(Later(s, c), d) == Later(s, d)
  {
    if s != [] {
      LaterThanLater(s[1..], c, d);
      var l := Later(s[1..], c);
      if After(s[0], c) {
        assert Later(s, c) == [s[0]] + l && ([s[0]] + l)[1..] == l;
      } else {
        assert Later(s, c) == l && Later(s, d) == Later(s[1..], d);
      }
    }
  }

  /** A prefix up to a cutoff, followed by what comes after it up to the next one, is the longer prefix. */
  lemma WindowExtends(s: seq<CacheItem>, c: int, d: int)
    requires ByExpiry(s) && c <= d
    ensures UpTo(s, c) + UpTo(Later(s, c), d) == UpTo(s, d)
  {
    var k := FirstAfter(s, c);
    SplitAt(s, k, c);
    assert s == s[..k] + s[k..];
    Concat(s[..k], s[k..], d);
    NoneAfter(s[..k], d);
  }

  function FirstAfter(s: seq<CacheItem>, cutoff: int): (k: nat)
    ensures k <= |s| && (forall i | 0 <= i < k :: !After(s[i], cutoff)) && (k < |s| ==> After(s[k], cutoff))
  {
    if s == [] || After(s[0], cutoff) then 0 else 1 + FirstAfter(s[1..], cutoff)
  }

  lemma BetweenLength(s: seq<CacheItem>, c: int, d: int)
    requires ByExpiry(s) && c <= d
    ensures |UpTo(s, d)| == |UpTo(s, c)| + |Between(s, c, d)|
    ensures Between(s, c, d) == [] ==> UpTo(s, d) == UpTo(s, c)
  {
    WindowExtends(s, c, d);
  }

  lemma {:induction false} UpToIsAll(s: seq<CacheItem>, cutoff: int)
    ensures Later(s, cutoff) == [] ==> UpTo(s, cutoff) == s
  {
    if s != [] {
      UpToIsAll(s[1..], cutoff);
    }
  }

  /** A window holds what lies between its cutoffs, or, with nothing expiring after the first, everything. */
  lemma WindowIs(s: seq<CacheItem>, c: int, d: int)
    requires c <= d
    ensures Window(s, c, d) == if Later(s, c) == [] then s else Between(s, c, d)
    ensures Later(s, c) == [] ==> Later(s, d) == [] && UpTo(s, d) == s
  {
    if Later(s, c) == [] {
      LaterThanLater(s, c, d);
      UpToIsAll(s, d);
    }
  }

  lemma StillLater(s: seq<CacheItem>, c: int, d: int)
    requires c <= d
    ensures Later(s, d) != [] ==> Later(s, c) != []
    ensures Later(s, c) != [] && Between(s, c, d) == [] ==> Later(s, d) != []
  {
    LaterThanLater(s, c, d);
    SplitLengths(Later(s, c), d);
  }

  ghost predicate NoGaps(s: seq<CacheItem>, c: seq<int>)
    requires |c| == 8
  {
    Between(s, c[0], c[1]) == [] && Between(s, c[2], c[3]) == [] && Between(s, c[4], c[5]) == []
        && Between(s, c[6], c[7]) == []
  }

  lemma TilesIfLater(s: seq<CacheItem>, c: seq<int>)
    requires ByExpiry(s) && |c| == 8 && (forall i, j | 0 <= i < j < 8 :: c[i] <= c[j]) && Later(s, c[5]) != []
    ensures Tiles(s, c) <==> NoGaps(s, c)
  {
    hide Later, UpTo, Beyond, Window, Between;
    WindowIs(s, c[1], c[2]);
    WindowIs(s, c[3], c[4]);
    WindowIs(s, c[5], c[6]);
    StillLater(s, c[3], c[5]);
    StillLater(s, c[1], c[5]);
    BetweenLength(s, c[0], c[1]);
    BetweenLength(s, c[1], c[2]);
    BetweenLength(s, c[2], c[3]);
    BetweenLength(s, c[3], c[4]);
    BetweenLength(s, c[4], c[5]);
    BetweenLength(s, c[5], c[6]);
    BetweenLength(s, c[6], c[7]);
    if NoGaps(s, c) {
      Extends(s, c[1], c[2]);
      Extends(s, c[3], c[4]);
      Extends(s, c[5], c[6]);
    }
  }

  lemma Extends(s: seq<CacheItem>, c: int, d: int)
    requires ByExpiry(s) && c <= d
    ensures UpTo(s, c) + Between(s, c, d) == UpTo(s, d)
  {
    WindowExtends(s, c, d);
  }

  lemma TilesIfNotLater(s: seq<CacheItem>, c: seq<int>)
    requires ByExpiry(s) && |c| == 8 && (forall i, j | 0 <= i < j < 8 :: c[i] <= c[j]) && Later(s, c[5]) == []
             && s != []
    ensures Tiles(s, c) <==>
              Later(s, c[4]) != [] && UpTo(s, c[0]) == [] && Between(s, c[1], c[2]) == []
                  && Between(s, c[3], c[4]) == []
  {
    hide Later, UpTo, Beyond, Window, Between;
    WindowIs(s, c[1], c[2]);
    WindowIs(s, c[3], c[4]);
    WindowIs(s, c[5], c[6]);
    WindowIs(s, c[5], c[7]);
    StillLater(s, c[1], c[4]);
    StillLater(s, c[3], c[4]);
    var w0, w1, w2 := UpTo(s, c[0]), Window(s, c[1], c[2]), Window(s, c[3], c[4]);
    assert |w0 + w1 + w2 + s| == |w0| + |w1| + |w2| + |s|;
    if w0 == w1 == w2 == [] {
      assert w0 + w1 + w2 + s == s;
    }
  }

  /** Exactly when the dashboard's first four lists make up the last one, for a clock that moves between readings:
      the list is empty; or something expires later than two weeks after the reading for the last window, and nothing
      expires between the cutoffs that should meet; or everything expires in such gaps, the latest in the one at two
      weeks, so that the last window shows the whole list and the others nothing. */
  lemma TilesIff(s: seq<CacheItem>, clock: seq<int>)
    requires ByExpiry(s) && |clock| == 8 && forall i, j | 0 <= i < j < 8 :: clock[i] <= clock[j]
    ensures var c := Cutoffs(clock);
            Tiles(s, c) <==>
              || s == []
              || (Later(s, c[5]) != [] && NoGaps(s, c))
              || (Later(s, c[5]) == [] && Later(s, c[4]) != [] && UpTo(s, c[0]) == [] && Between(s, c[1], c[2]) == []
                  && Between(s, c[3], c[4]) == [])
  {
    var c := Cutoffs(clock);
    assert forall i, j | 0 <= i < j < 8 :: c[i] <= c[j];
    if s == [] {
    } else if Later(s, c[5]) != [] {
      TilesIfLater(s, c);
    } else {
      TilesIfNotLater(s, c);
    }
  }

  lemma {:induction false} SomeLater(s: seq<CacheItem>, cutoff: int)
    ensures Later(s, cutoff) != [] <==> exists x :: x in s && x.notAfter * 1_000_000_000 > cutoff
  {
    if s != [] {
      SomeLater(s[1..], cutoff);
      assert s == [s[0]] + s[1..];
    }
  }

  /** If the clock stands still: exactly when the list is empty or something expires later than two weeks from now. */
  lemma WindowsTileIff(s: seq<CacheItem>, now: int)
    requires ByExpiry(s)
    ensures Tiles(s, Cutoffs([now, now, now, now, now, now, now, now])) <==>
              s == [] || exists x :: x in s && x.notAfter * 1_000_000_000 > now + 1_209_600_000_000_000
  {
    var clock := [now, now, now, now, now, now, now, now];
    hide Later, UpTo, Between, Tiles;
    SomeLater(s, now + TWO_WEEKS);
    TilesIff(s, clock);
    BetweenLength(s, now, now);
    BetweenLength(s, now + THREE_DAYS, now + THREE_DAYS);
    BetweenLength(s, now + TWO_WEEKS, now + TWO_WEEKS);
    BetweenLength(s, now + FOUR_WEEKS, now + FOUR_WEEKS);
  }
}
