/**
 The OTP rate limiters: tumbling windows that open at the first request after the previous one ran
 out. The verify limiter has one window per key, the send limiter a minute window and a day window.
 Times are in milliseconds.
 */
module RateLimits {
  import opened Wrappers

  const MINUTE_MS := 60 * 1000
  const DAY_MS := 24 * 60 * 60 * 1000

  datatype Window = Window(count: int, resetAt: int)

  /** One request against a window: is it let through, and what is the window then? */
  function Hit(w: Option<Window>, now: int, max: int, period: int): (bool, Window) {
    match w
    case None => (true, Window(1, now + period))
    case Some(win) =>
      if now >= win.resetAt then (true, Window(1, now + period))
      else if win.count >= max then (false, win)
      else (true, win.(count := win.count + 1))
  }

  class OtpVerifyRateLimit {
    const maxPerMinute: int
    var window: map<string, Window>

    constructor (maxPerMinute: int)
      ensures this.maxPerMinute == maxPerMinute && window == map[]
    {
      this.maxPerMinute := maxPerMinute;
      window := map[];
    }

    method CheckAndIncrement(phone: string, ip: string, now: int) returns (allowed: bool)
      modifies this
      ensures var k := VerifyKey(phone, ip);
              var (ok, w) := Hit(Find(old(window), k), now, maxPerMinute, MINUTE_MS);
              allowed == ok && window == old(window)[k := w]
      // The same, spelled out.
      ensures var k := VerifyKey(phone, ip);
              if k !in old(window) || now >= old(window)[k].resetAt then
                allowed && window == old(window)[k := Window(1, now + 60_000)]
              else
                && (allowed <==> old(window)[k].count < maxPerMinute)
                && window == (if allowed then old(window)[k := Window(old(window)[k].count + 1, old(window)[k].resetAt)]
                              else old(window))
    {
      var k := VerifyKey(phone, ip);
      if k in window {
        var w := window[k];
        if now >= w.resetAt {
          window := window[k := Window(1, now + MINUTE_MS)];
          return true;
        }
        if w.count >= maxPerMinute {
          assert window == window[k := w];
          return false;
        }
        window := window[k := w.(count := w.count + 1)];
        return true;
      }
      window := window[k := Window(1, now + MINUTE_MS)];
      return true;
    }
  }

  function VerifyKey(phone: string, ip: string): string {
    "verify:" + phone + ":" + ip
  }

  function SendKey(phone: string, ip: string): string {
    phone + ":" + ip
  }

  ghost predicate NoColon(s: string) {
    forall i :: 0 <= i < |s| ==> s[i] != ':'
  }

  lemma PartsBeforeColon(a: string, x: string, b: string, y: string)
    requires NoColon(a) && NoColon(b) && a + [':'] + x == b + [':'] + y
    ensures a == b && x == y
  {
    var s := a + [':'] + x;
    assert s[|a|] == ':' && s[|b|] == ':';
    assert forall i :: 0 <= i < |a| ==> s[i] == a[i];
    assert forall i :: 0 <= i < |b| ==> s[i] == b[i];
    assert |a| == |b|;
    assert a == s[..|a|] && b == s[..|b|] && x == s[|a| + 1..] && y == s[|b| + 1..];
  }

  /** Two pairs whose phones hold no colon share a window, in either limiter, exactly if they are equal. */
  lemma SharedWindowIff(phone: string, ip: string, phone': string, ip': string)
    requires NoColon(phone) && NoColon(phone')
    ensures SendKey(phone, ip) == SendKey(phone', ip') <==> phone == phone' && ip == ip'
    ensures VerifyKey(phone, ip) == VerifyKey(phone', ip') <==> phone == phone' && ip == ip'
  {
    if SendKey(phone, ip) == SendKey(phone', ip') {
      PartsBeforeColon(phone, ip, phone', ip');
    }
    if VerifyKey(phone, ip) == VerifyKey(phone', ip') {
      var p := "verify:";
      assert VerifyKey(phone, ip) == p + SendKey(phone, ip) && VerifyKey(phone', ip') == p + SendKey(phone', ip');
      assert (p + SendKey(phone, ip))[|p|..] == SendKey(phone, ip);
      assert (p + SendKey(phone', ip'))[|p|..] == SendKey(phone', ip');
      PartsBeforeColon(phone, ip, phone', ip');
    }
  }

  /** The send limiter's two maps. */
  datatype SendState = SendState(perMinute: map<string, Window>, perDay: map<string, Window>)

  /** The minute window is charged first, and keeps its charge when the day window then refuses. */
  function Send(s: SendState, k: string, now: int, maxMinute: int, maxDay: int): (bool, SendState) {
    var (okMinute, minute) := Hit(Find(s.perMinute, k), now, maxMinute, MINUTE_MS);
    var s' := s.(perMinute := s.perMinute[k := minute]);
    if !okMinute then (false, s')
    else
      var (okDay, day) := Hit(Find(s.perDay, k), now, maxDay, DAY_MS);
      (okDay, s'.(perDay := s.perDay[k := day]))
  }

  /**
   Refusals of the send limiter, read off the windows: a full minute window changes nothing, and a full day
   window leaves the minute window charged.
   */
  lemma RefusedSends(s: SendState, k: string, now: int, maxMinute: int, maxDay: int)
    requires k in s.perMinute && k in s.perDay && now < s.perMinute[k].resetAt && now < s.perDay[k].resetAt
    ensures var (ok, s') := Send(s, k, now, maxMinute, maxDay);
            var (minute, day) := (s.perMinute[k], s.perDay[k]);
            && (ok <==> minute.count < maxMinute && day.count < maxDay)
            && (minute.count >= maxMinute ==> s' == s)
            && (minute.count < maxMinute && day.count >= maxDay ==>
                  s' == s.(perMinute := s.perMinute[k := Window(minute.count + 1, minute.resetAt)]))
            && (ok ==>
                  s' == SendState(s.perMinute[k := Window(minute.count + 1, minute.resetAt)],
                                  s.perDay[k := Window(day.count + 1, day.resetAt)]))
  {
    assert s.perMinute == s.perMinute[k := s.perMinute[k]];
    assert s.perDay == s.perDay[k := s.perDay[k]];
  }

  class OtpSendRateLimit {
    const maxPerMinute: int
    const maxPerDay: int
    var perMinute: map<string, Window>
    var perDay: map<string, Window>

    constructor (maxPerMinute: int, maxPerDay: int)
      ensures this.maxPerMinute == maxPerMinute && this.maxPerDay == maxPerDay
      ensures perMinute == map[] && perDay == map[]
    {
      this.maxPerMinute, this.maxPerDay := maxPerMinute, maxPerDay;
      perMinute, perDay := map[], map[];
    }

    method CheckAndIncrement(phone: string, ip: string, now: int) returns (allowed: bool)
      modifies this
      ensures (allowed, SendState(perMinute, perDay))
              == Send(SendState(old(perMinute), old(perDay)), SendKey(phone, ip), now, maxPerMinute, maxPerDay)
    {
      var k := SendKey(phone, ip);
      if k in perMinute {
        var w := perMinute[k];
        if now >= w.resetAt {
          perMinute := perMinute[k := Window(1, now + MINUTE_MS)];
        } else {
          if w.count >= maxPerMinute {
            assert perMinute == perMinute[k := w];
            return false;
          }
          perMinute := perMinute[k := w.(count := w.count + 1)];
        }
      } else {
        perMinute := perMinute[k := Window(1, now + MINUTE_MS)];
      }
      if k in perDay {
        var w := perDay[k];
        if now >= w.resetAt {
          perDay := perDay[k := Window(1, now + DAY_MS)];
        } else {
          if w.count >= maxPerDay {
            assert perDay == perDay[k := w];
            return false;
          }
          perDay := perDay[k := w.(count := w.count + 1)];
        }
      } else {
        perDay := perDay[k := Window(1, now + DAY_MS)];
      }
      return true;
    }
  }

  // ---------------------------------------------------------------------------------------------
  // Traces
  // ---------------------------------------------------------------------------------------------

  datatype Request = Request(key: string, now: int)

  ghost predicate Monotone(reqs: seq<Request>) {
    forall i, j :: 0 <= i < j < |reqs| ==> reqs[i].now <= reqs[j].now
  }

  predicate Within(now: int, from: int, period: int) {
    from <= now < from + period
  }

  /** The windows after the first `n` requests of one limiter. */
  function WindowsAfter(reqs: seq<Request>, n: nat, max: int, period: int): map<string, Window>
    requires n <= |reqs|
  {
    if n == 0 then map[]
    else
      var before := WindowsAfter(reqs, n - 1, max, period);
      var r := reqs[n - 1];
      before[r.key := Hit(Find(before, r.key), r.now, max, period).1]
  }

  predicate AllowedAt(reqs: seq<Request>, i: nat, max: int, period: int)
    requires i < |reqs|
  {
    Hit(Find(WindowsAfter(reqs, i, max, period), reqs[i].key), reqs[i].now, max, period).0
  }

  /** How many of the first `n` requests for `key` in [from, from + period) were let through. */
  function Allowed(reqs: seq<Request>, n: nat, key: string, from: int, max: int, period: int): nat
    requires n <= |reqs|
  {
    if n == 0 then 0
    else
      var i := n - 1;
      Allowed(reqs, i, key, from, max, period)
      + if reqs[i].key == key && Within(reqs[i].now, from, period) && AllowedAt(reqs, i, max, period) then 1 else 0
  }

  /**
   The argument about one window. While the interval is open: if the window opened before the
   interval, its opening request is not counted; if it opened inside, the window before it had opened
   outside and so gave at most `max - 1`.
   */
  ghost predicate Accounted(w: Option<Window>, n: int, from: int, last: int, max: int, period: int) {
    && 0 <= n <= 2 * max - 1
    && (w.Some? ==> 1 <= w.value.count <= max)
    && (0 < n ==> from <= last)
    && (0 < n && last < from + period ==>
          && w.Some?
          && n <= if w.value.resetAt - period < from then w.value.count - 1 else max - 1 + w.value.count)
  }

  lemma HitKeepsAccount(
      w: Option<Window>, n: int, from: int, last: int, now: int, counted: bool, max: int, period: int)
    requires max >= 1 && period >= 1 && last <= now
    requires Accounted(w, n, from, last, max, period)
    requires counted ==> Hit(w, now, max, period).0 && Within(now, from, period)
    ensures Accounted(Some(Hit(w, now, max, period).1), n + if counted then 1 else 0, from, now, max, period)
  {
  }

  lemma {:induction false} LimiterAccounts(
      reqs: seq<Request>, n: nat, key: string, from: int, last: int, max: int, period: int)
    requires Monotone(reqs) && n <= |reqs| && max >= 1 && period >= 1
    requires n > 0 ==> last == reqs[n - 1].now
    ensures Accounted(Find(WindowsAfter(reqs, n, max, period), key),
                      Allowed(reqs, n, key, from, max, period), from, last, max, period)
    decreases n
  {
    if n > 0 {
      var i := n - 1;
      var before := if i > 0 then reqs[i - 1].now else last;
      LimiterAccounts(reqs, i, key, from, before, max, period);
      if reqs[i].key == key {
        var w := Find(WindowsAfter(reqs, i, max, period), key);
        var counted := Within(reqs[i].now, from, period) && AllowedAt(reqs, i, max, period);
        HitKeepsAccount(w, Allowed(reqs, i, key, from, max, period), from, before, last, counted, max, period);
      }
    }
  }

  /** Although the windows tumble, no interval of the window's length lets 2 * max through. */
  lemma LimiterBound(reqs: seq<Request>, key: string, from: int, max: int, period: int)
    requires Monotone(reqs) && max >= 1 && period >= 1
    ensures Allowed(reqs, |reqs|, key, from, max, period) <= 2 * max - 1
  {
    LimiterAccounts(reqs, |reqs|, key, from, if reqs == [] then 0 else reqs[|reqs| - 1].now, max, period);
  }

  // ---------------------------------------------------------------------------------------------
  // Refusals are earned
  // ---------------------------------------------------------------------------------------------

  lemma {:induction false} NothingAllowedPastReset(
      reqs: seq<Request>, n: nat, key: string, from: int, max: int, period: int)
    requires Monotone(reqs) && n <= |reqs| && period >= 1
    requires var w := Find(WindowsAfter(reqs, n, max, period), key); w.Some? ==> from >= w.value.resetAt
    ensures Allowed(reqs, n, key, from, max, period) == 0
    decreases n
  {
    if n > 0 {
      NothingAllowedPastReset(reqs, n - 1, key, from, max, period);
    }
  }

  /** A window's counter is the number of requests let through since it opened. */
  lemma {:induction false} WindowCountsAllowed(reqs: seq<Request>, n: nat, key: string, max: int, period: int)
    requires Monotone(reqs) && n <= |reqs| && period >= 1
    ensures var w := Find(WindowsAfter(reqs, n, max, period), key);
            && (w.Some? ==> Allowed(reqs, n, key, w.value.resetAt - period, max, period) == w.value.count)
            && (w.Some? ==> n > 0 && w.value.resetAt - period <= reqs[n - 1].now)
    decreases n
  {
    if n > 0 {
      var i := n - 1;
      WindowCountsAllowed(reqs, i, key, max, period);
      var w := Find(WindowsAfter(reqs, i, max, period), key);
      if reqs[i].key == key && (w == None || reqs[i].now >= w.value.resetAt) {
        NothingAllowedPastReset(reqs, i, key, reqs[i].now, max, period);
      }
    }
  }

  /** A request is refused only if `max` or more were let through in the period before it. */
  lemma RefusedOnlyWhenFull(reqs: seq<Request>, i: nat, max: int, period: int)
    requires Monotone(reqs) && i < |reqs| && period >= 1 && !AllowedAt(reqs, i, max, period)
    ensures exists from :: from <= reqs[i].now < from + period
                           && Allowed(reqs, i, reqs[i].key, from, max, period) >= max
  {
    WindowCountsAllowed(reqs, i, reqs[i].key, max, period);
    var w := Find(WindowsAfter(reqs, i, max, period), reqs[i].key);
    var from := w.value.resetAt - period;
    assert from <= reqs[i].now < from + period;
    assert Allowed(reqs, i, reqs[i].key, from, max, period) >= max;
  }

  // ---------------------------------------------------------------------------------------------
  // The bound is attained
  // ---------------------------------------------------------------------------------------------

  /** One request at 0, `max - 1` just before the window runs out, `max` just as it does. */
  function Burst(key: string, max: nat, period: int): seq<Request> {
    seq(2 * max, i => Request(key, if i == 0 then 0 else if i < max then period - 1 else period))
  }

  lemma {:induction false} BurstFillsTwoWindows(key: string, max: nat, period: int, n: nat)
    requires max >= 1 && period >= 2 && 1 <= n <= 2 * max
    ensures var reqs := Burst(key, max, period);
            && Find(WindowsAfter(reqs, n, max, period), key)
               == Some(if n <= max then Window(n, period) else Window(n - max, 2 * period))
            && Allowed(reqs, n, key, period - 1, max, period) == n - 1
    decreases n
  {
    var reqs := Burst(key, max, period);
    assert Allowed(reqs, 0, key, period - 1, max, period) == 0;
    assert WindowsAfter(reqs, 0, max, period) == map[];
    if n > 1 {
      BurstFillsTwoWindows(key, max, period, n - 1);
    }
  }

  /** So the nominal limit per interval is exceeded for every `max` above 1, by `max - 1` exactly. */
  lemma LimiterBoundIsAttained(key: string, max: nat, period: int)
    requires max >= 1 && period >= 2
    ensures var reqs := Burst(key, max, period);
            Monotone(reqs) && Allowed(reqs, |reqs|, key, period - 1, max, period) == 2 * max - 1
  {
    BurstFillsTwoWindows(key, max, period, 2 * max);
  }

  // ---------------------------------------------------------------------------------------------
  // When an interval keeps to the nominal limit
  // ---------------------------------------------------------------------------------------------

  /** Does the window run past `from`? */
  predicate LiveAt(w: Option<Window>, from: int) {
    w.Some? && w.value.resetAt > from
  }

  /** The most an interval can let through that finds this window when it starts. */
  function Capacity(w: Option<Window>, from: int, max: int): int {
    if LiveAt(w, from) then max + (max - w.value.count) else max
  }

  /** Requests that come at `from` or later, in order. */
  ghost predicate Continues(reqs: seq<Request>, from: int) {
    Monotone(reqs) && forall i :: 0 <= i < |reqs| ==> from <= reqs[i].now
  }

  /** How many requests for `key` in [from, from + period) are let through, starting with window `w`. */
  function AllowedFrom(w: Option<Window>, reqs: seq<Request>, key: string, from: int, max: int, period: int): nat
    decreases |reqs|
  {
    if reqs == [] then 0
    else if reqs[0].key != key then AllowedFrom(w, reqs[1..], key, from, max, period)
    else
      var (ok, w') := Hit(w, reqs[0].now, max, period);
      (if ok && Within(reqs[0].now, from, period) then 1 else 0)
      + AllowedFrom(Some(w'), reqs[1..], key, from, max, period)
  }

  lemma {:induction false} PrefixDecides(
      reqs: seq<Request>, more: seq<Request>, n: nat, key: string, from: int, max: int, period: int)
    requires n <= |reqs|
    ensures WindowsAfter(reqs + more, n, max, period) == WindowsAfter(reqs, n, max, period)
    ensures Allowed(reqs + more, n, key, from, max, period) == Allowed(reqs, n, key, from, max, period)
    decreases n
  {
    if n > 0 {
      PrefixDecides(reqs, more, n - 1, key, from, max, period);
      assert (reqs + more)[n - 1] == reqs[n - 1];
    }
  }

  /** Counting over a trace, split at any point. */
  lemma {:induction false} AllowedSplits(
      pre: seq<Request>, suf: seq<Request>, key: string, from: int, max: int, period: int)
    ensures Allowed(pre + suf, |pre + suf|, key, from, max, period)
            == Allowed(pre, |pre|, key, from, max, period)
               + AllowedFrom(Find(WindowsAfter(pre, |pre|, max, period), key), suf, key, from, max, period)
    decreases |suf|
  {
    if suf == [] {
      assert pre + suf == pre;
    } else {
      var next := pre + [suf[0]];
      assert next + suf[1..] == pre + suf;
      AllowedSplits(next, suf[1..], key, from, max, period);
      PrefixDecides(pre, [suf[0]], |pre|, key, from, max, period);
    }
  }

  lemma {:induction false} NothingBefore(reqs: seq<Request>, n: nat, key: string, from: int, max: int, period: int)
    requires n <= |reqs| && forall i :: 0 <= i < |reqs| ==> reqs[i].now < from
    ensures Allowed(reqs, n, key, from, max, period) == 0
    decreases n
  {
    if n > 0 {
      NothingBefore(reqs, n - 1, key, from, max, period);
    }
  }

  /** A window that was opened before `from` and never let more than `max` through. */
  ghost predicate OpenedBefore(w: Option<Window>, from: int, max: int, period: int) {
    w.Some? ==> w.value.resetAt - period < from && 1 <= w.value.count <= max
  }

  lemma WindowsOpenedBefore(pre: seq<Request>, key: string, from: int, max: int, period: int)
    requires Monotone(pre) && max >= 1 && period >= 1 && forall i :: 0 <= i < |pre| ==> pre[i].now < from
    ensures OpenedBefore(Find(WindowsAfter(pre, |pre|, max, period), key), from, max, period)
  {
    WindowCountsAllowed(pre, |pre|, key, max, period);
    LimiterAccounts(pre, |pre|, key, from, if pre == [] then 0 else pre[|pre| - 1].now, max, period);
  }

  /**
   What is left of the capacity while the interval is open: the window at `from` still runs, or has run
   out and nothing came since, or a window opened inside the interval, which outlasts it.
   */
  function Left(w: Option<Window>, from: int, max: int, period: int): int {
    match w
    case None => max
    case Some(win) =>
      if win.resetAt >= from + period then max - win.count
      else if win.resetAt > from then (max - win.count) + max
      else max
  }

  lemma {:induction false} AllowedWithinLeft(
      w: Option<Window>, reqs: seq<Request>, key: string, from: int, max: int, period: int)
    requires max >= 1 && period >= 1 && Continues(reqs, from)
    requires w.Some? ==> 1 <= w.value.count <= max
    ensures AllowedFrom(w, reqs, key, from, max, period) <= Left(w, from, max, period)
    decreases |reqs|
  {
    if reqs != [] {
      assert Continues(reqs[1..], from);
      if reqs[0].key != key {
        AllowedWithinLeft(w, reqs[1..], key, from, max, period);
      } else {
        var w' := Hit(w, reqs[0].now, max, period).1;
        if Within(reqs[0].now, from, period) {
          AllowedWithinLeft(Some(w'), reqs[1..], key, from, max, period);
        } else {
          NoneAllowedAfter(Some(w'), reqs[1..], key, from, max, period);
        }
      }
    }
  }

  lemma {:induction false} NoneAllowedAfter(
      w: Option<Window>, reqs: seq<Request>, key: string, from: int, max: int, period: int)
    requires forall i :: 0 <= i < |reqs| ==> reqs[i].now >= from + period
    ensures AllowedFrom(w, reqs, key, from, max, period) == 0
    decreases |reqs|
  {
    if reqs != [] {
      NoneAllowedAfter(if reqs[0].key == key then Some(Hit(w, reqs[0].now, max, period).1) else w,
                       reqs[1..], key, from, max, period);
    }
  }

  /** `k` requests at once. */
  function AtOnce(key: string, k: nat, t: int): seq<Request> {
    seq(k, _ => Request(key, t))
  }

  lemma {:induction false} RoomForAll(
      w: Window, k: nat, t: int, more: seq<Request>, key: string, from: int, max: int, period: int)
    requires t < w.resetAt && w.count + k <= max && Within(t, from, period)
    ensures AllowedFrom(Some(w), AtOnce(key, k, t) + more, key, from, max, period)
            == k + AllowedFrom(Some(w.(count := w.count + k)), more, key, from, max, period)
    decreases k
  {
    if k == 0 {
      assert AtOnce(key, 0, t) + more == more;
    } else {
      assert (AtOnce(key, k, t) + more)[1..] == AtOnce(key, k - 1, t) + more;
      RoomForAll(w.(count := w.count + 1), k - 1, t, more, key, from, max, period);
    }
  }

  /** A window that opens at `t` takes `max` requests at once. */
  lemma OpeningTakesAll(w: Option<Window>, t: int, key: string, from: int, max: int, period: int)
    requires max >= 1 && period >= 1 && Within(t, from, period) && !LiveAt(w, t)
    ensures AllowedFrom(w, AtOnce(key, max, t), key, from, max, period) == max
  {
    var rest := AtOnce(key, max - 1, t);
    assert AtOnce(key, max, t)[1..] == rest + [];
    RoomForAll(Window(1, t + period), max - 1, t, [], key, from, max, period);
  }

  /** Use up the window at `from`, then fill the next one as soon as it opens. */
  function Greedy(w: Option<Window>, key: string, from: int, max: int): seq<Request>
    requires max >= 0 && (LiveAt(w, from) ==> w.value.count <= max)
  {
    if LiveAt(w, from) then AtOnce(key, max - w.value.count, from) + AtOnce(key, max, w.value.resetAt)
    else AtOnce(key, max, from)
  }

  lemma GreedyContinues(w: Option<Window>, key: string, from: int, max: int)
    requires max >= 0 && (LiveAt(w, from) ==> w.value.count <= max)
    ensures Continues(Greedy(w, key, from, max), from)
  {
  }

  /** Two windows in one interval: the rest of one, then all of the next. */
  lemma TwoWindowsFill(win: Window, key: string, from: int, max: int, period: int)
    requires max >= 1 && period >= 1 && from < win.resetAt < from + period && win.count <= max
    ensures var reqs := AtOnce(key, max - win.count, from) + AtOnce(key, max, win.resetAt);
            AllowedFrom(Some(win), reqs, key, from, max, period) == (max - win.count) + max
  {
    RoomForAll(win, max - win.count, from, AtOnce(key, max, win.resetAt), key, from, max, period);
    OpeningTakesAll(Some(win.(count := max)), win.resetAt, key, from, max, period);
  }

  lemma GreedyFillsCapacity(w: Option<Window>, key: string, from: int, max: int, period: int)
    requires max >= 1 && period >= 1 && OpenedBefore(w, from, max, period)
    ensures AllowedFrom(w, Greedy(w, key, from, max), key, from, max, period) == Capacity(w, from, max)
  {
    if LiveAt(w, from) {
      TwoWindowsFill(w.value, key, from, max, period);
    } else {
      OpeningTakesAll(w, from, key, from, max, period);
    }
  }

  /**
   The most an interval can hold, given what came before it: `max`, and what a window that is still
   running had left. The bound is attained after every beginning.
   */
  lemma MostAllowed(pre: seq<Request>, suf: seq<Request>, key: string, from: int, max: int, period: int)
    requires max >= 1 && period >= 1
    requires Monotone(pre) && (forall i :: 0 <= i < |pre| ==> pre[i].now < from) && Continues(suf, from)
    ensures var w := Find(WindowsAfter(pre, |pre|, max, period), key);
            && OpenedBefore(w, from, max, period)
            && Allowed(pre + suf, |pre + suf|, key, from, max, period) <= Capacity(w, from, max)
            && Continues(Greedy(w, key, from, max), from)
            && var best := pre + Greedy(w, key, from, max);
               Allowed(best, |best|, key, from, max, period) == Capacity(w, from, max)
  {
    var w := Find(WindowsAfter(pre, |pre|, max, period), key);
    WindowsOpenedBefore(pre, key, from, max, period);
    NothingBefore(pre, |pre|, key, from, max, period);
    AllowedSplits(pre, suf, key, from, max, period);
    AllowedWithinLeft(w, suf, key, from, max, period);
    GreedyContinues(w, key, from, max);
    GreedyFillsCapacity(w, key, from, max, period);
    AllowedSplits(pre, Greedy(w, key, from, max), key, from, max, period);
  }

  /**
   The exact condition: whatever comes next, the interval from `from` on keeps to `max`, if and only if
   no window is running at `from` or the one that is running is full.
   */
  lemma PromiseKeptIff(pre: seq<Request>, key: string, from: int, max: int, period: int)
    requires max >= 1 && period >= 1 && Monotone(pre) && forall i :: 0 <= i < |pre| ==> pre[i].now < from
    ensures var w := Find(WindowsAfter(pre, |pre|, max, period), key);
            (forall suf :: Continues(suf, from) ==>
               Allowed(pre + suf, |pre + suf|, key, from, max, period) <= max)
            <==> !LiveAt(w, from) || w.value.count >= max
  {
    var w := Find(WindowsAfter(pre, |pre|, max, period), key);
    forall suf | Continues(suf, from)
      ensures Allowed(pre + suf, |pre + suf|, key, from, max, period) <= Capacity(w, from, max)
    {
      MostAllowed(pre, suf, key, from, max, period);
    }
    MostAllowed(pre, [], key, from, max, period);
    var best := Greedy(w, key, from, max);
    assert Continues(best, from);
    assert Allowed(pre + best, |pre + best|, key, from, max, period) == Capacity(w, from, max);
  }

  /** Over all traces and all intervals the nominal limit is kept only for a limit of one. */
  lemma PromiseAlwaysKeptIff(max: nat, period: int)
    requires max >= 1 && period >= 2
    ensures (forall reqs, key, from :: Monotone(reqs) ==> Allowed(reqs, |reqs|, key, from, max, period) <= max)
            <==> max <= 1
  {
    if max <= 1 {
      forall reqs, key, from | Monotone(reqs) ensures Allowed(reqs, |reqs|, key, from, max, period) <= max {
        LimiterBound(reqs, key, from, max, period);
      }
    } else {
      LimiterBoundIsAttained("", max, period);
      var reqs := Burst("", max, period);
      assert Allowed(reqs, |reqs|, "", period - 1, max, period) > max;
    }
  }

  // ---------------------------------------------------------------------------------------------
  // The send limiter: both bounds at once
  // ---------------------------------------------------------------------------------------------

  function SendAfter(reqs: seq<Request>, n: nat, maxMinute: int, maxDay: int): SendState
    requires n <= |reqs|
  {
    if n == 0 then SendState(map[], map[])
    else Send(SendAfter(reqs, n - 1, maxMinute, maxDay), reqs[n - 1].key, reqs[n - 1].now, maxMinute, maxDay).1
  }

  predicate SentAt(reqs: seq<Request>, i: nat, maxMinute: int, maxDay: int)
    requires i < |reqs|
  {
    Send(SendAfter(reqs, i, maxMinute, maxDay), reqs[i].key, reqs[i].now, maxMinute, maxDay).0
  }

  /** How many sends for `key` in [from, from + period) were allowed. */
  function Sent(reqs: seq<Request>, n: nat, key: string, from: int, period: int, maxMinute: int, maxDay: int): nat
    requires n <= |reqs|
  {
    if n == 0 then 0
    else
      var i := n - 1;
      Sent(reqs, i, key, from, period, maxMinute, maxDay)
      + if reqs[i].key == key && Within(reqs[i].now, from, period) && SentAt(reqs, i, maxMinute, maxDay) then 1 else 0
  }

  lemma {:induction false} SenderAccounts(
      reqs: seq<Request>, n: nat, key: string, from: int, last: int, maxMinute: int, maxDay: int)
    requires Monotone(reqs) && n <= |reqs| && maxMinute >= 1 && maxDay >= 1
    requires n > 0 ==> last == reqs[n - 1].now
    ensures var s := SendAfter(reqs, n, maxMinute, maxDay);
            && Accounted(Find(s.perMinute, key), Sent(reqs, n, key, from, MINUTE_MS, maxMinute, maxDay),
                         from, last, maxMinute, MINUTE_MS)
            && Accounted(Find(s.perDay, key), Sent(reqs, n, key, from, DAY_MS, maxMinute, maxDay),
                         from, last, maxDay, DAY_MS)
    decreases n
  {
    if n > 0 {
      var i := n - 1;
      var before := if i > 0 then reqs[i - 1].now else last;
      SenderAccounts(reqs, i, key, from, before, maxMinute, maxDay);
      if reqs[i].key == key {
        var s := SendAfter(reqs, i, maxMinute, maxDay);
        var sent := SentAt(reqs, i, maxMinute, maxDay);
        HitKeepsAccount(Find(s.perMinute, key), Sent(reqs, i, key, from, MINUTE_MS, maxMinute, maxDay), from, before,
                        last, sent && Within(last, from, MINUTE_MS), maxMinute, MINUTE_MS);
        if Hit(Find(s.perMinute, key), last, maxMinute, MINUTE_MS).0 {
          HitKeepsAccount(Find(s.perDay, key), Sent(reqs, i, key, from, DAY_MS, maxMinute, maxDay), from, before,
                          last, sent && Within(last, from, DAY_MS), maxDay, DAY_MS);
        }
      }
    }
  }

  lemma SendBounds(reqs: seq<Request>, key: string, from: int, maxMinute: int, maxDay: int)
    requires Monotone(reqs) && maxMinute >= 1 && maxDay >= 1
    ensures Sent(reqs, |reqs|, key, from, 60_000, maxMinute, maxDay) <= 2 * maxMinute - 1
    ensures Sent(reqs, |reqs|, key, from, 86_400_000, maxMinute, maxDay) <= 2 * maxDay - 1
  {
    SenderAccounts(reqs, |reqs|, key, from, if reqs == [] then 0 else reqs[|reqs| - 1].now, maxMinute, maxDay);
  }

  /** One send for `key` that both windows let through. */
  lemma BothLetThrough(
      reqs: seq<Request>, n: nat, key: string, from: int, period: int, maxMinute: int, maxDay: int,
      minute: Option<Window>, day: Option<Window>)
    requires 1 <= n <= |reqs| && reqs[n - 1].key == key
    requires Find(SendAfter(reqs, n - 1, maxMinute, maxDay).perMinute, key) == minute
    requires Find(SendAfter(reqs, n - 1, maxMinute, maxDay).perDay, key) == day
    requires Hit(minute, reqs[n - 1].now, maxMinute, MINUTE_MS).0 && Hit(day, reqs[n - 1].now, maxDay, DAY_MS).0
    ensures var s := SendAfter(reqs, n, maxMinute, maxDay);
            && Find(s.perMinute, key) == Some(Hit(minute, reqs[n - 1].now, maxMinute, MINUTE_MS).1)
            && Find(s.perDay, key) == Some(Hit(day, reqs[n - 1].now, maxDay, DAY_MS).1)
    ensures Sent(reqs, n, key, from, period, maxMinute, maxDay)
            == Sent(reqs, n - 1, key, from, period, maxMinute, maxDay)
               + if Within(reqs[n - 1].now, from, period) then 1 else 0
  {
  }

  function BurstMinute(n: nat, maxMinute: nat): Option<Window> {
    if n == 0 then None
    else Some(if n <= maxMinute then Window(n, MINUTE_MS) else Window(n - maxMinute, 2 * MINUTE_MS))
  }

  /** The windows let the i-th request of a burst through, and move on. */
  lemma BurstHits(i: nat, t: int, maxMinute: nat, maxDay: nat)
    requires maxMinute >= 1 && 2 * maxMinute <= maxDay && i < 2 * maxMinute
    requires t == if i == 0 then 0 else if i < maxMinute then MINUTE_MS - 1 else MINUTE_MS
    ensures Hit(BurstMinute(i, maxMinute), t, maxMinute, MINUTE_MS) == (true, BurstMinute(i + 1, maxMinute).value)
    ensures Hit(if i == 0 then None else Some(Window(i, DAY_MS)), t, maxDay, DAY_MS) == (true, Window(i + 1, DAY_MS))
    ensures Within(t, MINUTE_MS - 1, MINUTE_MS) <==> i > 0
  {
  }

  lemma {:induction false} BurstSends(key: string, maxMinute: nat, maxDay: nat, n: nat)
    requires maxMinute >= 1 && 2 * maxMinute <= maxDay && n <= 2 * maxMinute
    ensures var reqs := Burst(key, maxMinute, MINUTE_MS);
            var s := SendAfter(reqs, n, maxMinute, maxDay);
            && Find(s.perMinute, key) == BurstMinute(n, maxMinute)
            && Find(s.perDay, key) == (if n == 0 then None else Some(Window(n, DAY_MS)))
            && Sent(reqs, n, key, MINUTE_MS - 1, MINUTE_MS, maxMinute, maxDay) == if n == 0 then 0 else n - 1
    decreases n
  {
    var reqs := Burst(key, maxMinute, MINUTE_MS);
    if n > 0 {
      BurstSends(key, maxMinute, maxDay, n - 1);
      var i := n - 1;
      assert reqs[i] == Request(key, if i == 0 then 0 else if i < maxMinute then MINUTE_MS - 1 else MINUTE_MS);
      BurstHits(i, reqs[i].now, maxMinute, maxDay);
      BothLetThrough(reqs, n, key, MINUTE_MS - 1, MINUTE_MS, maxMinute, maxDay,
                     BurstMinute(i, maxMinute), if i == 0 then None else Some(Window(i, DAY_MS)));
    }
  }

  /** One send at 0, then one a minute around the moment the day window runs out. */
  function DayBurst(key: string, maxDay: nat): seq<Request> {
    seq(2 * maxDay, i => Request(key, if i == 0 then 0 else DAY_MS + (i - maxDay) * MINUTE_MS))
  }

  const MINUTES_IN_HALF_DAY := 720

  function DayBurstStart(maxDay: nat): int {
    DAY_MS - (maxDay - 1) * MINUTE_MS
  }

  function BurstDay(n: nat, maxDay: nat): Option<Window> {
    if n == 0 then None
    else Some(if n <= maxDay then Window(n, DAY_MS) else Window(n - maxDay, 2 * DAY_MS))
  }

  lemma {:induction false} DayBurstSends(key: string, maxMinute: nat, maxDay: nat, n: nat)
    requires maxMinute >= 1 && 1 <= maxDay <= MINUTES_IN_HALF_DAY && n <= 2 * maxDay
    ensures var reqs := DayBurst(key, maxDay);
            var s := SendAfter(reqs, n, maxMinute, maxDay);
            && Find(s.perMinute, key) == (if n == 0 then None else Some(Window(1, reqs[n - 1].now + MINUTE_MS)))
            && Find(s.perDay, key) == BurstDay(n, maxDay)
            && Sent(reqs, n, key, DayBurstStart(maxDay), DAY_MS, maxMinute, maxDay) == if n == 0 then 0 else n - 1
    decreases n
  {
    var reqs := DayBurst(key, maxDay);
    if n > 0 {
      DayBurstSends(key, maxMinute, maxDay, n - 1);
      var i := n - 1;
      var t := reqs[i].now;
      DayBurstTimes(key, maxDay, i);
      BothLetThrough(reqs, n, key, DayBurstStart(maxDay), DAY_MS, maxMinute, maxDay,
                     if i == 0 then None else Some(Window(1, reqs[i - 1].now + MINUTE_MS)), BurstDay(i, maxDay));
    }
  }

  /** The sends are a minute or more apart, and all but the first lie within one day. */
  lemma DayBurstTimes(key: string, maxDay: nat, i: nat)
    requires 1 <= maxDay <= MINUTES_IN_HALF_DAY && i < 2 * maxDay
    ensures var reqs := DayBurst(key, maxDay);
            && reqs[i].key == key
            && (i > 0 ==> reqs[i - 1].now + MINUTE_MS <= reqs[i].now)
            && (Within(reqs[i].now, DayBurstStart(maxDay), DAY_MS) <==> i > 0)
            && (i == 0 ==> reqs[i].now == 0)
            && (i < maxDay <==> reqs[i].now < DAY_MS) && (i == maxDay ==> reqs[i].now == DAY_MS)
            && reqs[i].now < 2 * DAY_MS
  {
  }

  lemma {:induction false} DayBurstIsMonotone(key: string, maxDay: nat, i: nat, j: nat)
    requires 1 <= maxDay <= MINUTES_IN_HALF_DAY && i <= j < 2 * maxDay
    ensures DayBurst(key, maxDay)[i].now <= DayBurst(key, maxDay)[j].now
    decreases j
  {
    if i < j {
      DayBurstIsMonotone(key, maxDay, i, j - 1);
      DayBurstTimes(key, maxDay, j);
    }
  }

  lemma BurstIsMonotone(key: string, maxMinute: nat)
    ensures Monotone(Burst(key, maxMinute, MINUTE_MS)) && |Burst(key, maxMinute, MINUTE_MS)| == 2 * maxMinute
  {
  }

  /** The minute bound is attained whenever the day limit has room for the burst. */
  lemma MinuteSendBoundIsAttained(key: string, maxMinute: nat, maxDay: nat)
    requires maxMinute >= 1 && 2 * maxMinute <= maxDay
    ensures var reqs := Burst(key, maxMinute, MINUTE_MS);
            && Monotone(reqs)
            && Sent(reqs, |reqs|, key, MINUTE_MS - 1, MINUTE_MS, maxMinute, maxDay) == 2 * maxMinute - 1
  {
    BurstIsMonotone(key, maxMinute);
    BurstSends(key, maxMinute, maxDay, 2 * maxMinute);
  }

  /** The day bound is attained for every day limit up to 720, even at one send a minute. */
  lemma DaySendBoundIsAttained(key: string, maxMinute: nat, maxDay: nat)
    requires maxMinute >= 1 && 1 <= maxDay <= MINUTES_IN_HALF_DAY
    ensures var reqs := DayBurst(key, maxDay);
            && Monotone(reqs)
            && Sent(reqs, |reqs|, key, DayBurstStart(maxDay), DAY_MS, maxMinute, maxDay) == 2 * maxDay - 1
  {
    forall i, j | 0 <= i < j < 2 * maxDay ensures DayBurst(key, maxDay)[i].now <= DayBurst(key, maxDay)[j].now {
      DayBurstIsMonotone(key, maxDay, i, j);
    }
    DayBurstSends(key, maxMinute, maxDay, 2 * maxDay);
  }
}
