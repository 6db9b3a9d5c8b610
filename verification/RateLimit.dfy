/** The sliding-window command limiter of internal/session/ratelimit.go. Times
    are nanoseconds. */
module RateLimit {

  const SECOND: int := 1_000_000_000
  const DEFAULT_BURST: int := 10
  const DEFAULT_SUSTAIN: int := 30
  const DEFAULT_WINDOW: int := SECOND

  /** Two's-complement 64-bit arithmetic, and Go's division, which truncates. */
  function Wrap64(n: int): int {
    var u := n % 0x1_0000_0000_0000_0000;
    if u < 0x8000_0000_0000_0000 then u else u - 0x1_0000_0000_0000_0000
  }

  function Quotient(n: int, d: int): int
    requires d > 0
  {
    if n >= 0 then n / d else -((-n) / d)
  }

  datatype Limits = Limits(burst: int, sustain: int, window: int) {
    predicate Valid() { burst > 0 && sustain > 0 && window > 0 }

    /** The sustained rate scaled to the window. */
    function MaxInWindow(): (r: int)
      requires Valid()
      ensures r > 0
    {
      var q := Quotient(Wrap64(sustain * window), SECOND);
      if q <= 0 then sustain else q
    }

    /** The number of commands a window admits. */
    function Quota(): (k: nat)
      requires Valid()
      ensures k > 0
    {
      if burst < MaxInWindow() then burst else MaxInWindow()
    }
  }

  /** Limits that are not positive are replaced by the defaults. */
  function Configured(burst: int, sustain: int, window: int): (l: Limits)
    ensures l.Valid()
  {
    Limits(if burst <= 0 then DEFAULT_BURST else burst,
           if sustain <= 0 then DEFAULT_SUSTAIN else sustain,
           if window <= 0 then DEFAULT_WINDOW else window)
  }

  function Prune(stamps: seq<int>, cutoff: int): seq<int> {
    if stamps != [] && stamps[0] <= cutoff then Prune(stamps[1..], cutoff) else stamps
  }

  /** `allow`: the stamps kept, and the verdict. */
  function Admit(l: Limits, stamps: seq<int>, now: int): (seq<int>, bool)
    requires l.Valid()
  {
    var kept := Prune(stamps, now - l.window);
    if |kept| >= l.burst || |kept| >= l.MaxInWindow() then (kept, false) else (kept + [now], true)
  }

  class RateLimiter {
    var limits: Limits
    var stamps: seq<int>

    constructor (burst: int, sustain: int, window: int)
      ensures limits == Configured(burst, sustain, window) && stamps == []
    {
      limits := Limits(if burst <= 0 then DEFAULT_BURST else burst,
                       if sustain <= 0 then DEFAULT_SUSTAIN else sustain,
                       if window <= 0 then DEFAULT_WINDOW else window);
      stamps := [];
    }

    method Allow(now: int) returns (ok: bool)
      requires limits.Valid()
      modifies `stamps
      ensures (stamps, ok) == Admit(limits, old(stamps), now)
    {
      var cutoff := now - limits.window;
      var i := 0;
      assert stamps[0..] == stamps;
      while i < |stamps| && stamps[i] <= cutoff
        invariant i <= |stamps|
        invariant Prune(stamps[i..], cutoff) == Prune(stamps, cutoff)
      {
        assert stamps[i..][1..] == stamps[i + 1..];
        i := i + 1;
      }
      if i > 0 {
        stamps := stamps[i..];
      }
      if |stamps| >= limits.burst {
        return false;
      }
      var maxInWindow := Quotient(Wrap64(limits.sustain * limits.window), SECOND);
      if maxInWindow <= 0 {
        maxInWindow := limits.sustain;
      }
      if |stamps| >= maxInWindow {
        return false;
      }
      stamps := stamps + [now];
      return true;
    }
  }

  // ----- whole runs -----

  /** The stamps held and the commands accepted, all of them, after a run. */
  datatype History = History(stamps: seq<int>, accepted: seq<int>)

  function After(l: Limits, times: seq<int>): History
    requires l.Valid()
  {
    if times == [] then History([], []) else
      var n := |times| - 1;
      var h := After(l, times[..n]);
      var (s, ok) := Admit(l, h.stamps, times[n]);
      History(s, if ok then h.accepted + [times[n]] else h.accepted)
  }

  predicate Ordered(s: seq<int>) {
    forall i, j :: 0 <= i < j < |s| ==> s[i] <= s[j]
  }

  /** How many of the times lie after the cutoff. */
  function Since(s: seq<int>, cutoff: int): nat {
    if s == [] then 0 else Since(s[..|s| - 1], cutoff) + (if s[|s| - 1] > cutoff then 1 else 0)
  }

  lemma {:induction false} SinceAppend(a: seq<int>, b: seq<int>, cutoff: int)
    ensures Since(a + b, cutoff) == Since(a, cutoff) + Since(b, cutoff)
  {
    if b == [] {
      assert a + b == a;
    } else {
      assert (a + b)[..|a + b| - 1] == a + b[..|b| - 1];
      SinceAppend(a, b[..|b| - 1], cutoff);
    }
  }

  lemma {:induction false} SinceNone(s: seq<int>, cutoff: int)
    requires forall i :: 0 <= i < |s| ==> s[i] <= cutoff
    ensures Since(s, cutoff) == 0
  {
    if s != [] { SinceNone(s[..|s| - 1], cutoff); }
  }

  lemma {:induction false} SinceAll(s: seq<int>, cutoff: int)
    requires forall i :: 0 <= i < |s| ==> s[i] > cutoff
    ensures Since(s, cutoff) == |s|
  {
    if s != [] { SinceAll(s[..|s| - 1], cutoff); }
  }

  /** On ordered stamps pruning splits them at the cutoff. */
  lemma {:induction false} PruneSplits(s: seq<int>, cutoff: int) returns (k: nat)
    requires Ordered(s)
    ensures k <= |s| && Prune(s, cutoff) == s[k..]
    ensures forall i :: 0 <= i < k ==> s[i] <= cutoff
    ensures forall i :: k <= i < |s| ==> s[i] > cutoff
  {
    if s == [] || s[0] > cutoff {
      k := 0;
    } else {
      var j := PruneSplits(s[1..], cutoff);
      k := j + 1;
      assert forall i :: 1 <= i < |s| ==> s[i] == s[1..][i - 1];
    }
  }

  /** The stamps are the last of the accepted times, those before them being
      out of the window for good. */
  ghost predicate Tail(h: History, cutoff: int) {
    && Ordered(h.accepted) && |h.stamps| <= |h.accepted|
    && h.stamps == h.accepted[|h.accepted| - |h.stamps|..]
    && forall i :: 0 <= i < |h.accepted| - |h.stamps| ==> h.accepted[i] <= cutoff
  }

  lemma OrderedBack(s: seq<int>, d: nat)
    requires Ordered(s) && d <= |s|
    ensures Ordered(s[d..])
  {
    forall i, j | 0 <= i < j < |s[d..]| ensures s[d..][i] <= s[d..][j] {
      assert s[d..][i] == s[d + i] && s[d..][j] == s[d + j];
    }
  }

  /** Times split at the cutoff are counted from there. */
  lemma SinceSplit(a: seq<int>, g: nat, c: int)
    requires g <= |a| && (forall i :: 0 <= i < g ==> a[i] <= c) && (forall i :: g <= i < |a| ==> a[i] > c)
    ensures Since(a, c) == |a| - g
  {
    hide Since;
    assert a == a[..g] + a[g..];
    SinceAppend(a[..g], a[g..], c);
    SinceNone(a[..g], c);
    SinceAll(a[g..], c);
  }

  /** Pruning the last of some ordered times splits all of them at the cutoff. */
  lemma PruneLast(a: seq<int>, d: nat, c: int) returns (g: nat)
    requires Ordered(a) && d <= |a| && forall i :: 0 <= i < d ==> a[i] <= c
    ensures d <= g <= |a| && Prune(a[d..], c) == a[g..]
    ensures (forall i :: 0 <= i < g ==> a[i] <= c) && (forall i :: g <= i < |a| ==> a[i] > c)
  {
    hide Prune;
    OrderedBack(a, d);
    var k := PruneSplits(a[d..], c);
    hide Ordered;
    g := d + k;
    assert a[d..][k..] == a[g..];
    forall i | 0 <= i < g ensures a[i] <= c {
      if i >= d { assert a[i] == a[d..][i - d]; }
    }
    forall i | g <= i < |a| ensures a[i] > c { assert a[i] == a[d..][i - d]; }
  }

  lemma PruneTail(h: History, cutoff: int, c: int)
    requires Tail(h, cutoff) && cutoff <= c
    ensures Tail(History(Prune(h.stamps, c), h.accepted), c)
    ensures Since(h.accepted, c) == |Prune(h.stamps, c)|
  {
    hide Prune, Since, Ordered;
    var g := PruneLast(h.accepted, |h.accepted| - |h.stamps|, c);
    SinceSplit(h.accepted, g, c);
  }

  lemma PushTail(h: History, c: int, now: int)
    requires Tail(h, c) && forall i :: 0 <= i < |h.accepted| ==> h.accepted[i] <= now
    ensures Tail(History(h.stamps + [now], h.accepted + [now]), c)
  {
  }

  lemma QuotaDecides(l: Limits, stamps: seq<int>, now: int)
    requires l.Valid()
    ensures var kept := Prune(stamps, now - l.window);
      Admit(l, stamps, now) == if |kept| < l.Quota() then (kept + [now], true) else (kept, false)
  {
    hide Prune, Limits.MaxInWindow;
  }

  lemma TailStep(l: Limits, h: History, cutoff: int, now: int)
    requires l.Valid() && Tail(h, cutoff) && cutoff <= now - l.window
    requires forall i :: 0 <= i < |h.accepted| ==> h.accepted[i] <= now
    ensures var (s, ok) := Admit(l, h.stamps, now);
      && (ok <==> Since(h.accepted, now - l.window) < l.Quota())
      && Tail(History(s, if ok then h.accepted + [now] else h.accepted), now - l.window)
  {
    hide Prune, Since, Tail, Admit, Limits.Quota;
    QuotaDecides(l, h.stamps, now);
    PruneTail(h, cutoff, now - l.window);
    PushTail(History(Prune(h.stamps, now - l.window), h.accepted), now - l.window, now);
  }

  lemma {:induction false} RunTail(l: Limits, times: seq<int>)
    requires l.Valid() && Ordered(times) && times != []
    ensures Tail(After(l, times), times[|times| - 1] - l.window)
    ensures forall i :: 0 <= i < |After(l, times).accepted| ==> After(l, times).accepted[i] <= times[|times| - 1]
  {
    hide Tail, Admit, Since, Limits.Quota;
    var n := |times| - 1;
    if n > 0 {
      RunTail(l, times[..n]);
      assert times[n - 1] == times[..n][n - 1];
      TailStep(l, After(l, times[..n]), times[n - 1] - l.window, times[n]);
    } else {
      assert times[..0] == [];
      NothingAccepted(times[0] - l.window);
      TailStep(l, History([], []), times[0] - l.window, times[0]);
    }
  }

  lemma NothingAccepted(c: int)
    ensures Tail(History([], []), c)
  {
  }

  lemma NoneAfter(l: Limits)
    requires l.Valid()
    ensures After(l, []) == History([], [])
  {
  }

  lemma LastBefore(s: seq<int>, t: int)
    requires Ordered(s + [t]) && s != []
    ensures s[|s| - 1] <= t
  {
    assert (s + [t])[|s| - 1] == s[|s| - 1] && (s + [t])[|s|] == t;
  }

  /** Although old stamps are thrown away, a command is accepted exactly if, of
      all the commands ever accepted, fewer than the quota fall in the last window. */
  lemma VerdictByFullHistory(l: Limits, times: seq<int>, now: int)
    requires l.Valid() && Ordered(times + [now])
    ensures Admit(l, After(l, times).stamps, now).1 <==> Since(After(l, times).accepted, now - l.window) < l.Quota()
  {
    hide Admit, After, Since, Tail, Ordered, Limits.Quota;
    var h := After(l, times);
    if times == [] {
      NoneAfter(l);
      NothingAccepted(now - l.window);
      TailStep(l, h, now - l.window, now);
    } else {
      var n := |times| - 1;
      OrderedFront(times, now);
      LastBefore(times, now);
      RunTail(l, times);
      TailStep(l, h, times[n] - l.window, now);
    }
  }

  /** One more than the quota of consecutive accepted commands spans a window. */
  lemma {:induction false} QuotaPerWindow(l: Limits, times: seq<int>, i: nat)
    requires l.Valid() && Ordered(times)
    requires i + l.Quota() < |After(l, times).accepted|
    ensures After(l, times).accepted[i + l.Quota()] - After(l, times).accepted[i] >= l.window
    decreases |times|
  {
    hide Admit, Limits.Quota, Since, Tail;
    var n, k := |times| - 1, l.Quota();
    var h := After(l, times[..n]);
    var a := h.accepted;
    if i + k < |a| {
      QuotaPerWindow(l, times[..n], i);
    } else {
      assert times[..n] + [times[n]] == times;
      VerdictByFullHistory(l, times[..n], times[n]);
      assert i + k == |a| && After(l, times).accepted == a + [times[n]];
      assert n > 0;
      RunTail(l, times[..n]);
      FullWindow(h, times[n - 1] - l.window, i, times[n] - l.window);
    }
  }

  lemma FullWindow(h: History, cutoff: int, i: nat, c: int)
    requires Tail(h, cutoff) && i < |h.accepted|
    ensures h.accepted[i] > c ==> Since(h.accepted, c) >= |h.accepted| - i
  {
    hide Since;
    var a := h.accepted;
    if a[i] > c {
      assert a == a[..i] + a[i..];
      SinceAppend(a[..i], a[i..], c);
      SinceAll(a[i..], c);
    }
  }

  /** A new limiter, whatever it was asked for, lets the first K commands pass;
      the next one exactly if the first has left the window by then. */
  lemma FirstCommandsPass(burst: int, sustain: int, window: int, times: seq<int>, now: int)
    requires |times| <= Configured(burst, sustain, window).Quota() && Ordered(times + [now])
    ensures var l := Configured(burst, sustain, window);
      && After(l, times).accepted == times
      && (Admit(l, After(l, times).stamps, now).1 <==> |times| < l.Quota() || times[0] <= now - l.window)
  {
    hide Configured, Admit, After, Limits.Quota, Ordered, Since;
    var l := Configured(burst, sustain, window);
    FirstAccepted(l, times);
    VerdictByFullHistory(l, times, now);
    OrderedFront(times, now);
    AllSince(times, now - l.window);
  }

  lemma OrderedFront(s: seq<int>, t: int)
    requires Ordered(s + [t])
    ensures Ordered(s)
  {
    forall i, j | 0 <= i < j < |s| ensures s[i] <= s[j] {
      assert (s + [t])[i] == s[i] && (s + [t])[j] == s[j];
    }
  }

  lemma AllSince(s: seq<int>, cutoff: int)
    requires Ordered(s)
    ensures Since(s, cutoff) <= |s|
    ensures Since(s, cutoff) == |s| <==> s == [] || s[0] > cutoff
  {
    hide Since;
    if s == [] || s[0] > cutoff {
      SinceAll(s, cutoff);
    } else {
      assert s == s[..1] + s[1..];
      SinceAppend(s[..1], s[1..], cutoff);
      SinceAtMost(s[1..], cutoff);
      SinceNone(s[..1], cutoff);
    }
  }

  lemma {:induction false} FirstAccepted(l: Limits, times: seq<int>)
    requires l.Valid() && |times| <= l.Quota()
    ensures After(l, times).accepted == times && |After(l, times).stamps| <= |times|
  {
    hide Admit, Limits.Quota, Prune;
    if times != [] {
      var n := |times| - 1;
      FirstAccepted(l, times[..n]);
      QuotaDecides(l, After(l, times[..n]).stamps, times[n]);
      PruneShortens(After(l, times[..n]).stamps, times[n] - l.window);
      assert times[..n] + [times[n]] == times;
    }
  }

  lemma {:induction false} PruneShortens(s: seq<int>, cutoff: int)
    ensures |Prune(s, cutoff)| <= |s|
  {
    if s != [] { PruneShortens(s[1..], cutoff); }
  }

  lemma {:induction false} SinceAtMost(s: seq<int>, cutoff: int)
    ensures Since(s, cutoff) <= |s|
  {
    if s != [] { SinceAtMost(s[..|s| - 1], cutoff); }
  }

  // ----- a clock that steps back -----

  lemma {:induction false} SinceFewer(s: seq<int>, c: int, d: int)
    requires c <= d
    ensures Since(s, d) <= Since(s, c)
  {
    if s != [] { SinceFewer(s[..|s| - 1], c, d); }
  }

  /** After a command the stamps are the accepted times in its window, no others. */
  lemma StampsLive(l: Limits, times: seq<int>)
    requires l.Valid() && Ordered(times) && times != []
    ensures var h, c := After(l, times), times[|times| - 1] - l.window;
      && |h.stamps| == Since(h.accepted, c)
      && forall i :: 0 <= i < |h.stamps| ==> h.stamps[i] > c
  {
    hide Tail, Admit, Since, Prune, Limits.Quota;
    var n := |times| - 1;
    var c, b := times[n] - l.window, After(l, times[..n]);
    var cutoff := if n == 0 then c else times[n - 1] - l.window;
    if n > 0 { RunTail(l, times[..n]); } else { NothingAccepted(c); }
    QuotaDecides(l, b.stamps, times[n]);
    PruneTail(b, cutoff, c);
    var h := After(l, times);
    if h.accepted != b.accepted {
      SinceAppend(b.accepted, [times[n]], c);
      SinceAll([times[n]], c);
    }
    RunTail(l, times);
    PruneTail(h, c, c);
    AllLive(h, c);
  }

  lemma AllLive(h: History, c: int)
    requires Tail(h, c) && |Prune(h.stamps, c)| == |h.stamps|
    ensures forall i :: 0 <= i < |h.stamps| ==> h.stamps[i] > c
  {
    hide Prune;
    assert Ordered(h.stamps);
    var k := PruneSplits(h.stamps, c);
  }

  /** At a time before the last command's the verdict is wrong exactly if the
      quota is free in the window of the last command and used up in that of the
      new time: what has left the former window was forgotten. */
  lemma StepBackExact(l: Limits, times: seq<int>, now: int)
    requires l.Valid() && Ordered(times) && times != [] && now < times[|times| - 1]
    ensures var h, last := After(l, times), times[|times| - 1];
      (Admit(l, h.stamps, now).1 <==> Since(h.accepted, now - l.window) < l.Quota())
      <==> !(Since(h.accepted, last - l.window) < l.Quota() <= Since(h.accepted, now - l.window))
  {
    hide Admit, Limits.Quota, Since, After;
    var h, last := After(l, times), times[|times| - 1];
    StampsLive(l, times);
    QuotaDecides(l, h.stamps, now);
    assert Prune(h.stamps, now - l.window) == h.stamps;
    SinceFewer(h.accepted, now - l.window, last - l.window);
  }

  /** An instance: with two commands a second, one accepted at 0 s and one at
      10 s, a third at half a second is accepted although two of the accepted
      ones lie after its window's start. */
  lemma ClockStepBack()
    ensures var l := Limits(2, 2, SECOND);
      && l.Quota() == 2 && After(l, [0, 10 * SECOND]).accepted == [0, 10 * SECOND]
      && Admit(l, After(l, [0, 10 * SECOND]).stamps, SECOND / 2).1
      && Since([0, 10 * SECOND], 10 * SECOND - SECOND) < 2 <= Since([0, 10 * SECOND], SECOND / 2 - SECOND)
  {
    var l, t := Limits(2, 2, SECOND), 10 * SECOND;
    assert Wrap64(2 * SECOND) == 2 * SECOND && l.MaxInWindow() == 2;
    assert [0, t][..1] == [0] && [0][..0] == [];
    assert After(l, [0]) == History([0], [0]) by {
      assert Prune([], -SECOND) == [] && [] + [0] == [0];
    }
    assert Prune([0], t - SECOND) == [] by { assert [0][1..] == []; }
    assert After(l, [0, t]) == History([t], [0, t]) by { assert [0] + [t] == [0, t]; }
    assert Since([0], SECOND / 2 - SECOND) == 1 && Since([0], t - SECOND) == 0;
  }

  // ----- times in any order -----

  /** Whatever the times, the stamps are the last of the accepted ones. */
  lemma {:induction false} StampsAreLast(l: Limits, times: seq<int>)
    requires l.Valid()
    ensures var h := After(l, times); |h.stamps| <= |h.accepted| && h.stamps == h.accepted[|h.accepted| - |h.stamps|..]
  {
    hide Admit, Limits.Quota, Prune;
    if times != [] {
      var n := |times| - 1;
      var h, a := After(l, times[..n]), After(l, times[..n]).accepted;
      StampsAreLast(l, times[..n]);
      QuotaDecides(l, h.stamps, times[n]);
      var kept := Prune(h.stamps, times[n] - l.window);
      PruneIsSuffix(h.stamps, times[n] - l.window);
      SuffixOfSuffix(a, h.stamps, kept);
      assert a[|a| - |kept|..] + [times[n]] == (a + [times[n]])[|a| - |kept|..];
    }
  }

  lemma {:induction false} PruneIsSuffix(s: seq<int>, cutoff: int)
    ensures |Prune(s, cutoff)| <= |s| && Prune(s, cutoff) == s[|s| - |Prune(s, cutoff)|..]
  {
    if s != [] && s[0] <= cutoff {
      PruneIsSuffix(s[1..], cutoff);
      var n := |Prune(s[1..], cutoff)|;
      assert s[1..][|s| - 1 - n..] == s[|s| - n..];
    }
  }

  lemma SuffixOfSuffix(a: seq<int>, s: seq<int>, k: seq<int>)
    requires |k| <= |s| <= |a| && s == a[|a| - |s|..] && k == s[|s| - |k|..]
    ensures k == a[|a| - |k|..]
  {
  }

  /** The accepted times forgotten by now, and those still held. */
  function Forgotten(l: Limits, times: seq<int>, now: int): (f: seq<int>)
    requires l.Valid()
  {
    var a, n := After(l, times).accepted, |Prune(After(l, times).stamps, now - l.window)|;
    if n <= |a| then a[..|a| - n] else []
  }

  /** Whatever the times: a command is accepted wrongly only if a forgotten time
      lies in its window, and refused wrongly only if a time still held does not. */
  lemma WrongVerdicts(l: Limits, times: seq<int>, now: int)
    requires l.Valid()
    ensures var h, c := After(l, times), now - l.window;
      var ok, kept := Admit(l, h.stamps, now).1, Prune(h.stamps, c);
      && h.accepted == Forgotten(l, times, now) + kept
      && (ok && Since(h.accepted, c) >= l.Quota() ==> exists i :: 0 <= i < |Forgotten(l, times, now)| && Forgotten(l, times, now)[i] > c)
      && (!ok && Since(h.accepted, c) < l.Quota() ==> exists i :: 0 <= i < |kept| && kept[i] <= c)
  {
    hide Admit, After, Prune, Since, Forgotten, Limits.Quota;
    QuotaDecides(l, After(l, times).stamps, now);
    ForgottenOrKept(l, times, now);
    OffCount(Forgotten(l, times, now), Prune(After(l, times).stamps, now - l.window), now - l.window);
  }

  lemma ForgottenOrKept(l: Limits, times: seq<int>, now: int)
    requires l.Valid()
    ensures After(l, times).accepted == Forgotten(l, times, now) + Prune(After(l, times).stamps, now - l.window)
  {
    hide After, Prune;
    var h := After(l, times);
    var kept := Prune(h.stamps, now - l.window);
    StampsAreLast(l, times);
    PruneIsSuffix(h.stamps, now - l.window);
    SuffixOfSuffix(h.accepted, h.stamps, kept);
  }

  lemma OffCount(f: seq<int>, kept: seq<int>, c: int)
    ensures Since(f + kept, c) > |kept| ==> exists i :: 0 <= i < |f| && f[i] > c
    ensures Since(f + kept, c) < |kept| ==> exists i :: 0 <= i < |kept| && kept[i] <= c
  {
    hide Since;
    SinceAppend(f, kept, c);
    SinceAtMost(kept, c);
    if forall i :: 0 <= i < |f| ==> f[i] <= c { SinceNone(f, c); }
    if forall i :: 0 <= i < |kept| ==> kept[i] > c { SinceAll(kept, c); }
  }

  /** An instance of a wrong refusal, with three commands a second: after
      commands at 10 s, half a second and 5 s, all accepted, one at 4.9 s is
      refused although only two of them lie after its window's start. */
  lemma WrongRefusal()
    ensures var l, times := Limits(3, 3, SECOND), [10 * SECOND, SECOND / 2, 5 * SECOND];
      && l.Quota() == 3 && After(l, times).accepted == times
      && !Admit(l, After(l, times).stamps, 49 * (SECOND / 10)).1
      && Since(times, 49 * (SECOND / 10) - SECOND) == 2
  {
    var l, x, y, z := Limits(3, 3, SECOND), 10 * SECOND, SECOND / 2, 5 * SECOND;
    assert Wrap64(3 * SECOND) == 3 * SECOND && l.MaxInWindow() == 3;
    FirstAccepted(l, [x, y, z]);
    ThreeStamps(l, x, y, z);
    ThreeSince(x, y, z, 39 * (SECOND / 10));
  }

  lemma ThreeStamps(l: Limits, x: int, y: int, z: int)
    requires l.Valid() && l.Quota() == 3 && y < z < x - l.window
    ensures After(l, [x, y, z]).stamps == [x, y, z]
  {
    hide Admit, Limits.Quota;
    assert [x, y, z][..2] == [x, y] && [x, y][..1] == [x] && [x][..0] == [];
    QuotaDecides(l, [], x);
    assert After(l, [x]).stamps == [x] by { assert Prune([], x - l.window) == [] && [] + [x] == [x]; }
    QuotaDecides(l, [x], y);
    assert After(l, [x, y]).stamps == [x, y] by { assert [x] + [y] == [x, y]; }
    QuotaDecides(l, [x, y], z);
    assert [x, y] + [z] == [x, y, z];
  }

  lemma ThreeSince(x: int, y: int, z: int, c: int)
    requires y <= c < z && c < x
    ensures Since([x, y, z], c) == 2
  {
    assert [x, y, z][..2] == [x, y] && [x, y][..1] == [x] && [x][..0] == [];
    assert Since([x], c) == 1 && Since([x, y], c) == 1;
  }
  // ----- the limits in numbers -----

  /** A product that is too large wraps round as in 64 bits. */
  lemma WrapsRound(n: int)
    ensures -0x8000_0000_0000_0000 <= Wrap64(n) < 0x8000_0000_0000_0000
    ensures (n - Wrap64(n)) % 0x1_0000_0000_0000_0000 == 0
  {
    assert n == 0x1_0000_0000_0000_0000 * (n / 0x1_0000_0000_0000_0000) + n % 0x1_0000_0000_0000_0000;
  }

  /** Seconds are counted towards zero. */
  lemma RoundsToZero(n: int)
    ensures var q := Quotient(n, 1_000_000_000);
      if n >= 0 then q * 1_000_000_000 <= n < (q + 1) * 1_000_000_000
      else (q - 1) * 1_000_000_000 < n <= q * 1_000_000_000
  {
  }

  /** The sustained limit is the rate times the window in seconds, rounded down,
      or the rate itself if that is none; for products that fit 64 bits. */
  lemma SustainedRate(l: Limits)
    requires l.Valid() && l.sustain * l.window < 0x8000_0000_0000_0000
    ensures var m, p := l.MaxInWindow(), l.sustain * l.window;
      if p < 1_000_000_000 then m == l.sustain else m * 1_000_000_000 <= p < (m + 1) * 1_000_000_000
    ensures l.Quota() == if l.burst < l.MaxInWindow() then l.burst else l.MaxInWindow()
  {
    var p := l.sustain * l.window;
    assert p > 0 by { ProductPositive(l.sustain, l.window); }
    assert Wrap64(p) == p;
  }

  lemma ProductPositive(a: int, b: int)
    requires a > 0 && b > 0
    ensures a * b > 0
  {
  }

  /** By default ten commands a second. */
  lemma DefaultLimits()
    ensures Configured(0, 0, 0) == Limits(10, 30, 1_000_000_000) && Configured(0, 0, 0).Quota() == 10
  {
  }
}
