/**
 The PIN lockout: too many wrong PINs within a window lock the account, each lockout twice as long as
 the one before, up to a cap. Times are in milliseconds, durations in seconds. Each service call is one
 atomic step; attempts overlap between their check and their recording.
 */
module PinLockout {
  import opened Wrappers

  datatype Config = Config(maxAttempts: int, windowMs: int, baseSeconds: int, capSeconds: int)

  datatype AttemptRow = AttemptRow(
    failedCount: int, lockoutLevel: int, firstFailedAt: Option<int>, lockoutUntil: Option<int>)

  const NEW_ROW := AttemptRow(0, 0, None, None)

  datatype LockStatus = LockStatus(locked: bool, retryAfterSeconds: int, lockedUntil: Option<int>)

  const UNLOCKED := LockStatus(false, 0, None)

  function CeilSeconds(ms: int): int {
    (ms + 999) / 1000
  }

  /** `getStatus`: the answer, and the row with an expired lockout cleared. */
  function StatusAt(row: AttemptRow, now: int): (LockStatus, AttemptRow) {
    match row.lockoutUntil
    case None => (UNLOCKED, row)
    case Some(until) =>
      if until - now <= 0 then
        (UNLOCKED, row.(lockoutUntil := None, failedCount := 0, firstFailedAt := None))
      else (LockStatus(true, CeilSeconds(until - now), Some(until)), row)
  }

  function Pow2(n: nat): int {
    if n == 0 then 1 else 2 * Pow2(n - 1)
  }

  function Min(a: int, b: int): int {
    if a < b then a else b
  }

  /** The length of the lockout that takes an account from `level` to the next. */
  function LockoutSeconds(cfg: Config, level: nat): int {
    Min(cfg.baseSeconds * Pow2(level), cfg.capSeconds)
  }

  /** `recordFailure`: the row, and the length of the lockout it starts, if it does. */
  function FailedRow(cfg: Config, row: AttemptRow, now: int): (AttemptRow, Option<int>)
    requires row.lockoutLevel >= 0
  {
    var reset := row.firstFailedAt == None || now - row.firstFailedAt.value > cfg.windowMs;
    var count := (if reset then 0 else row.failedCount) + 1;
    var first := if reset then Some(now) else row.firstFailedAt;
    if count >= cfg.maxAttempts then
      var seconds := LockoutSeconds(cfg, row.lockoutLevel);
      (AttemptRow(0, row.lockoutLevel + 1, None, Some(now + seconds * 1000)), Some(seconds))
    else (row.(failedCount := count, firstFailedAt := first), None)
  }

  /** The service over its table of rows, one per user. */
  class PinLockoutService {
    const cfg: Config
    var attempts: map<string, AttemptRow>

    ghost predicate Valid()
      reads this
    {
      forall u :: u in attempts ==> attempts[u].lockoutLevel >= 0
    }

    constructor (cfg: Config)
      ensures this.cfg == cfg && attempts == map[] && Valid()
    {
      this.cfg := cfg;
      attempts := map[];
    }

    method GetOrCreate(userId: string) returns (row: AttemptRow)
      requires Valid()
      modifies this
      ensures Valid()
      ensures row == Find(old(attempts), userId).GetOr(NEW_ROW)
      ensures attempts == old(attempts)[userId := row]
    {
      if userId !in attempts {
        attempts := attempts[userId := NEW_ROW];
      }
      row := attempts[userId];
      assert attempts == attempts[userId := row];
    }

    method GetStatus(userId: string, now: int) returns (status: LockStatus)
      requires Valid()
      modifies this
      ensures Valid()
      ensures var row := Find(old(attempts), userId).GetOr(NEW_ROW);
              status == StatusAt(row, now).0 && attempts == old(attempts)[userId := StatusAt(row, now).1]
    {
      var row := GetOrCreate(userId);
      if row.lockoutUntil == None {
        return UNLOCKED;
      }
      var retryMs := row.lockoutUntil.value - now;
      if retryMs <= 0 {
        row := row.(lockoutUntil := None);
        row := row.(failedCount := 0);
        row := row.(firstFailedAt := None);
        attempts := attempts[userId := row];
        return UNLOCKED;
      }
      return LockStatus(true, CeilSeconds(retryMs), row.lockoutUntil);
    }

    method RecordFailure(userId: string, now: int) returns (status: LockStatus, attemptsRemaining: int)
      requires Valid()
      modifies this
      ensures Valid()
      ensures var row := Find(old(attempts), userId).GetOr(NEW_ROW);
              var (row', lockout) := FailedRow(cfg, row, now);
              && attempts == old(attempts)[userId := row']
              && status == (if lockout.Some? then LockStatus(true, lockout.value, row'.lockoutUntil) else UNLOCKED)
              && (lockout.Some? ==> attemptsRemaining == 0)
              && (lockout == None ==> attemptsRemaining == cfg.maxAttempts - row'.failedCount > 0)
    {
      var row := GetOrCreate(userId);
      if row.firstFailedAt == None || now - row.firstFailedAt.value > cfg.windowMs {
        row := row.(failedCount := 0, firstFailedAt := Some(now));
      }
      row := row.(failedCount := row.failedCount + 1);
      if row.failedCount >= cfg.maxAttempts {
        row := row.(lockoutLevel := row.lockoutLevel + 1);
        var seconds := Min(cfg.baseSeconds * Pow2(row.lockoutLevel - 1), cfg.capSeconds);
        row := row.(lockoutUntil := Some(now + seconds * 1000));
        row := row.(failedCount := 0, firstFailedAt := None);
        attempts := attempts[userId := row];
        return LockStatus(true, seconds, row.lockoutUntil), 0;
      }
      attempts := attempts[userId := row];
      var left := cfg.maxAttempts - row.failedCount;
      return UNLOCKED, if left > 0 then left else 0;
    }

    method RecordSuccess(userId: string)
      requires Valid()
      modifies this
      ensures Valid()
      ensures attempts == if userId in old(attempts) then old(attempts)[userId := NEW_ROW] else old(attempts)
    {
      if userId !in attempts {
        return;
      }
      attempts := attempts[userId := AttemptRow(0, 0, None, None)];
    }
  }

  /** The promised wait is enough, and no shorter whole number of seconds would be. */
  lemma RetryAfterIsExact(row: AttemptRow, now: int)
    requires StatusAt(row, now).0.locked
    ensures var wait := StatusAt(row, now).0.retryAfterSeconds;
            && !StatusAt(row, now + wait * 1000).0.locked
            && wait > 0
            && StatusAt(row, now + (wait - 1) * 1000).0.locked
  {
  }

  // ---------------------------------------------------------------------------------------------
  // Runs of service calls, in any order
  // ---------------------------------------------------------------------------------------------

  /**
   An attempt is two service calls with the verification of the PIN in between: it enters by the status
   check, and if that lets it through it fails, succeeds or is abandoned later. Setting a new PIN records
   a success without an attempt.
   */
  datatype Call = Enter(at: int) | Fail(at: int) | Succeed(at: int) | Abandon(at: int) | Reset(at: int)

  datatype Lockout = Lockout(start: int, seconds: int)

  /**
   The row; how many attempts were let through and have not ended; the lockouts since the last success,
   or since the start; and the level they started from.
   */
  datatype State = State(row: AttemptRow, waiting: nat, lockouts: seq<Lockout>, base: nat, clock: int)

  predicate Sane(cfg: Config, row: AttemptRow) {
    0 <= row.failedCount < cfg.maxAttempts && row.lockoutLevel >= 0
  }

  function OneLess(n: nat): nat {
    if n == 0 then 0 else n - 1
  }

  function Apply(cfg: Config, s: State, call: Call): (s': State)
    requires s.row.lockoutLevel >= 0
    ensures s'.row.lockoutLevel >= 0
  {
    match call
    case Enter(at) =>
      var (status, row) := StatusAt(s.row, at);
      s.(row := row, waiting := if status.locked then s.waiting else s.waiting + 1, clock := at)
    case Fail(at) =>
      var (row, lockout) := FailedRow(cfg, s.row, at);
      s.(row := row, waiting := OneLess(s.waiting), clock := at,
         lockouts := if lockout.Some? then s.lockouts + [Lockout(at, lockout.value)] else s.lockouts)
    case Succeed(at) => State(NEW_ROW, OneLess(s.waiting), [], 0, at)
    case Abandon(at) => s.(waiting := OneLess(s.waiting), clock := at)
    case Reset(at) => State(NEW_ROW, s.waiting, [], 0, at)
  }

  function Exec(cfg: Config, s: State, calls: seq<Call>): (s': State)
    requires s.row.lockoutLevel >= 0
    ensures s'.row.lockoutLevel >= 0
    decreases |calls|
  {
    if calls == [] then s else Exec(cfg, Apply(cfg, s, calls[0]), calls[1..])
  }

  function Start(row: AttemptRow, clock: int): State {
    State(row, 0, [], if row.lockoutLevel < 0 then 0 else row.lockoutLevel, clock)
  }

  /** Each lockout doubles the one before, up to the cap. */
  ghost predicate Escalates(cfg: Config, s: State) {
    && Sane(cfg, s.row)
    && s.row.lockoutLevel == s.base + |s.lockouts|
    && forall k :: 0 <= k < |s.lockouts| ==> s.lockouts[k].seconds == LockoutSeconds(cfg, s.base + k)
  }

  lemma CallKeepsEscalating(cfg: Config, s: State, call: Call)
    requires Escalates(cfg, s)
    ensures Escalates(cfg, Apply(cfg, s, call))
  {
  }

  /**
   For every run of service calls, in any order and at any times, from any sane row: the counter stays
   below the maximum, the level counts the lockouts since the last success, and the k-th of them lasts
   min(base * 2^(level + k), cap) seconds.
   */
  lemma {:induction false} LockoutsEscalate(cfg: Config, s: State, calls: seq<Call>)
    requires Escalates(cfg, s)
    ensures Escalates(cfg, Exec(cfg, s, calls))
    decreases |calls|
  {
    if calls != [] {
      CallKeepsEscalating(cfg, s, calls[0]);
      LockoutsEscalate(cfg, Apply(cfg, s, calls[0]), calls[1..]);
    }
  }

  /** So each lockout is twice the one before, up to the cap, and the first after a success is the base time. */
  lemma LockoutsDouble(cfg: Config, s: State, calls: seq<Call>, k: nat)
    requires Escalates(cfg, s) && cfg.baseSeconds >= 0 && cfg.capSeconds >= 0
    requires k < |Exec(cfg, s, calls).lockouts|
    ensures var s' := Exec(cfg, s, calls);
            var seconds := s'.lockouts[k].seconds;
            && (k == 0 && s'.base == 0 ==>
                  seconds == if cfg.baseSeconds < cfg.capSeconds then cfg.baseSeconds else cfg.capSeconds)
            && (k > 0 ==>
                  var doubled := 2 * s'.lockouts[k - 1].seconds;
                  seconds == if doubled < cfg.capSeconds then doubled else cfg.capSeconds)
  {
    LockoutsEscalate(cfg, s, calls);
    var base := Exec(cfg, s, calls).base;
    if k > 0 {
      SecondsDouble(cfg, base + k - 1);
    } else if base == 0 {
      assert Pow2(0) == 1;
    }
  }

  lemma {:induction false} PowersArePositive(n: nat)
    ensures Pow2(n) >= 1
  {
    if n > 0 {
      PowersArePositive(n - 1);
    }
  }

  lemma SecondsDouble(cfg: Config, level: nat)
    requires cfg.baseSeconds >= 0 && cfg.capSeconds >= 0
    ensures var doubled := 2 * LockoutSeconds(cfg, level);
            LockoutSeconds(cfg, level + 1) == if doubled < cfg.capSeconds then doubled else cfg.capSeconds
  {
    PowersArePositive(level);
    var x := cfg.baseSeconds * Pow2(level);
    assert x >= 0;
    assert cfg.baseSeconds * Pow2(level + 1) == 2 * x;
  }

  // ---------------------------------------------------------------------------------------------
  // Lockouts one after the other
  // ---------------------------------------------------------------------------------------------

  /** The clock never goes back, calls end only attempts that were let through, and at most `w` of them wait. */
  predicate Legal(cfg: Config, s: State, calls: seq<Call>, w: nat)
    requires s.row.lockoutLevel >= 0
    decreases |calls|
  {
    calls == [] ||
    (s.clock <= calls[0].at
     && (calls[0].Enter? || calls[0].Reset? || s.waiting > 0)
     && Apply(cfg, s, calls[0]).waiting <= w
     && Legal(cfg, Apply(cfg, s, calls[0]), calls[1..], w))
  }

  function EndMs(l: Lockout): int {
    l.start + l.seconds * 1000
  }

  ghost predicate StartsAfterPrevious(lockouts: seq<Lockout>, k: nat)
    requires k < |lockouts|
  {
    k > 0 ==> EndMs(lockouts[k - 1]) <= lockouts[k].start
  }

  /** Each lockout starts only when the one before has ended. */
  ghost predicate Apart(lockouts: seq<Lockout>) {
    forall k :: 0 <= k < |lockouts| ==> StartsAfterPrevious(lockouts, k)
  }

  lemma ApartFurther(lockouts: seq<Lockout>, next: Lockout)
    requires Apart(lockouts)
    requires lockouts != [] ==> EndMs(lockouts[|lockouts| - 1]) <= next.start
    ensures Apart(lockouts + [next])
  {
    forall k | 0 <= k < |lockouts| + 1 ensures StartsAfterPrevious(lockouts + [next], k) {
      assert k < |lockouts| ==> StartsAfterPrevious(lockouts, k);
    }
  }

  /** Behind a lockout, failures on the counter and attempts still waiting are together too few for another. */
  ghost predicate Inv(cfg: Config, s: State, w: nat) {
    && Sane(cfg, s.row)
    && s.waiting <= w
    && Apart(s.lockouts)
    && (s.lockouts != [] ==>
          var end := EndMs(s.lockouts[|s.lockouts| - 1]);
          if s.row.lockoutUntil.Some? then s.row.lockoutUntil.value == end && s.row.failedCount + s.waiting <= w - 1
          else end <= s.clock)
  }

  lemma CallKeepsInv(cfg: Config, s: State, call: Call, w: nat)
    requires w <= cfg.maxAttempts && Inv(cfg, s, w)
    requires s.clock <= call.at && (call.Enter? || call.Reset? || s.waiting > 0) && Apply(cfg, s, call).waiting <= w
    ensures Inv(cfg, Apply(cfg, s, call), w)
  {
    var s' := Apply(cfg, s, call);
    if |s'.lockouts| > |s.lockouts| {
      ApartFurther(s.lockouts, s'.lockouts[|s.lockouts|]);
    }
  }

  lemma {:induction false} RunKeepsInv(cfg: Config, s: State, calls: seq<Call>, w: nat)
    requires w <= cfg.maxAttempts && Inv(cfg, s, w) && Legal(cfg, s, calls, w)
    ensures Inv(cfg, Exec(cfg, s, calls), w)
    decreases |calls|
  {
    if calls != [] {
      CallKeepsInv(cfg, s, calls[0], w);
      RunKeepsInv(cfg, Apply(cfg, s, calls[0]), calls[1..], w);
    }
  }

  function TotalSeconds(lockouts: seq<Lockout>, n: nat): int
    requires n <= |lockouts|
  {
    if n == 0 then 0 else TotalSeconds(lockouts, n - 1) + lockouts[n - 1].seconds
  }

  lemma {:induction false} SpacingAddsUp(lockouts: seq<Lockout>, n: nat)
    requires n < |lockouts| && Apart(lockouts)
    ensures lockouts[n].start >= lockouts[0].start + TotalSeconds(lockouts, n) * 1000
    decreases n
  {
    if n > 0 {
      assert StartsAfterPrevious(lockouts, n);
      SpacingAddsUp(lockouts, n - 1);
    }
  }

  /**
   If no more attempts than the maximum are under way at a time, lockouts never overlap, and lockout n
   starts no earlier than the sum of all before it, counted from the first one's start.
   */
  lemma LockoutsAddUp(cfg: Config, row: AttemptRow, clock: int, calls: seq<Call>, w: nat, n: nat)
    requires Sane(cfg, row) && w <= cfg.maxAttempts && Legal(cfg, Start(row, clock), calls, w)
    requires n < |Exec(cfg, Start(row, clock), calls).lockouts|
    ensures var lockouts := Exec(cfg, Start(row, clock), calls).lockouts;
            && Apart(lockouts)
            && lockouts[n].start >= lockouts[0].start + TotalSeconds(lockouts, n) * 1000
  {
    RunKeepsInv(cfg, Start(row, clock), calls, w);
    SpacingAddsUp(Exec(cfg, Start(row, clock), calls).lockouts, n);
  }

  // ---------------------------------------------------------------------------------------------
  // One attempt more and lockouts can overlap
  // ---------------------------------------------------------------------------------------------

  ghost predicate Reaches(cfg: Config, s: State, calls: seq<Call>, w: nat, s': State) {
    s.row.lockoutLevel >= 0 && Legal(cfg, s, calls, w) && Exec(cfg, s, calls) == s'
  }

  lemma {:induction false} ReachesBoth(
      cfg: Config, s: State, a: seq<Call>, mid: State, b: seq<Call>, end: State, w: nat)
    requires Reaches(cfg, s, a, w, mid) && Reaches(cfg, mid, b, w, end)
    ensures Reaches(cfg, s, a + b, w, end)
    decreases |a|
  {
    if a == [] {
      assert a + b == b;
    } else {
      assert (a + b)[1..] == a[1..] + b;
      ReachesBoth(cfg, Apply(cfg, s, a[0]), a[1..], mid, b, end, w);
    }
  }

  function Enters(k: nat, t: int): seq<Call> {
    seq(k, _ => Enter(t))
  }

  function Fails(k: nat, t: int): seq<Call> {
    seq(k, _ => Fail(t))
  }

  /** `k` attempts one after the other. */
  function Serial(k: nat, t: int): seq<Call> {
    if k == 0 then [] else Enters(1, t) + Fails(1, t) + Serial(k - 1, t)
  }

  /** A row with `c` failures, all at `t`. */
  function Failing(c: nat, level: nat, until: Option<int>, t: int): AttemptRow {
    AttemptRow(c, level, if c == 0 then None else Some(t), until)
  }

  lemma {:induction false} EntersWait(cfg: Config, s: State, k: nat, t: int, w: nat)
    requires s.row.lockoutLevel >= 0 && s.row.lockoutUntil == None && s.clock == t && s.waiting + k <= w
    ensures Reaches(cfg, s, Enters(k, t), w, s.(waiting := s.waiting + k))
    decreases k
  {
    if k > 0 {
      assert Enters(k, t)[1..] == Enters(k - 1, t);
      EntersWait(cfg, Apply(cfg, s, Enter(t)), k - 1, t, w);
    }
  }

  lemma {:induction false} FailsCount(cfg: Config, s: State, k: nat, t: int, w: nat, c: nat)
    requires cfg.windowMs >= 0 && s.row.lockoutLevel >= 0 && s.clock == t && k <= s.waiting <= w
    requires c + k < cfg.maxAttempts && s.row == Failing(c, s.row.lockoutLevel, s.row.lockoutUntil, t)
    ensures Reaches(cfg, s, Fails(k, t), w,
                    s.(row := Failing(c + k, s.row.lockoutLevel, s.row.lockoutUntil, t), waiting := s.waiting - k))
    decreases k
  {
    if k > 0 {
      assert Fails(k, t)[1..] == Fails(k - 1, t);
      FailsCount(cfg, Apply(cfg, s, Fail(t)), k - 1, t, w, c + 1);
    }
  }

  /** The failure that fills the counter starts a lockout. */
  lemma FailLocks(cfg: Config, s: State, t: int, w: nat)
    requires cfg.windowMs >= 0 && s.row.lockoutLevel >= 0 && s.clock == t && 1 <= s.waiting <= w && cfg.maxAttempts >= 1
    requires s.row == Failing(cfg.maxAttempts - 1, s.row.lockoutLevel, s.row.lockoutUntil, t)
    ensures var seconds := LockoutSeconds(cfg, s.row.lockoutLevel);
            Reaches(cfg, s, [Fail(t)], w,
                    s.(row := Failing(0, s.row.lockoutLevel + 1, Some(t + seconds * 1000), t),
                       waiting := s.waiting - 1, lockouts := s.lockouts + [Lockout(t, seconds)]))
  {
    assert [Fail(t)][1..] == [];
  }

  lemma {:induction false} SerialCounts(cfg: Config, s: State, k: nat, t: int, w: nat, c: nat)
    requires cfg.windowMs >= 0 && s.clock == t && s.waiting + 1 <= w && c + k < cfg.maxAttempts
    requires s.row == Failing(c, 0, None, t)
    ensures Reaches(cfg, s, Serial(k, t), w, s.(row := Failing(c + k, 0, None, t)))
    decreases k
  {
    if k > 0 {
      var next := s.(row := Failing(c + 1, 0, None, t));
      EntersWait(cfg, s, 1, t, w);
      FailsCount(cfg, s.(waiting := s.waiting + 1), 1, t, w, c);
      ReachesBoth(cfg, s, Enters(1, t), s.(waiting := s.waiting + 1), Fails(1, t), next, w);
      SerialCounts(cfg, next, k - 1, t, w, c + 1);
      ReachesBoth(cfg, s, Enters(1, t) + Fails(1, t), next, Serial(k - 1, t), s.(row := Failing(c + k, 0, None, t)), w);
    }
  }

  /** All failures but one, then one attempt more than the maximum enters together. */
  function Crowd(cfg: Config, t: int): seq<Call>
    requires cfg.maxAttempts >= 1
  {
    Serial(cfg.maxAttempts - 1, t) + Enters(cfg.maxAttempts + 1, t)
  }

  lemma CrowdWaits(cfg: Config, t: int, w: nat)
    requires cfg.windowMs >= 0 && 1 <= cfg.maxAttempts < w
    ensures Reaches(cfg, Start(NEW_ROW, t), Crowd(cfg, t), w,
                    State(Failing(cfg.maxAttempts - 1, 0, None, t), cfg.maxAttempts + 1, [], 0, t))
  {
    var s, k := Start(NEW_ROW, t), cfg.maxAttempts - 1;
    var mid := s.(row := Failing(k, 0, None, t));
    SerialCounts(cfg, s, k, t, w, 0);
    EntersWait(cfg, mid, cfg.maxAttempts + 1, t, w);
    ReachesBoth(cfg, s, Serial(k, t), mid, Enters(cfg.maxAttempts + 1, t), mid.(waiting := cfg.maxAttempts + 1), w);
  }

  /** Their failures: the first starts a lockout, the others fill the counter again behind it. */
  function TwoLockouts(cfg: Config, t: int): seq<Call>
    requires cfg.maxAttempts >= 1
  {
    [Fail(t)] + (Fails(cfg.maxAttempts - 1, t) + [Fail(t)])
  }

  lemma BehindLockout(cfg: Config, s: State, t: int, w: nat)
    requires cfg.windowMs >= 0 && 1 <= cfg.maxAttempts == s.waiting <= w && s.clock == t
    requires s.row.lockoutLevel >= 0 && s.row == Failing(0, s.row.lockoutLevel, s.row.lockoutUntil, t)
    ensures var calls := Fails(cfg.maxAttempts - 1, t) + [Fail(t)];
            && Legal(cfg, s, calls, w)
            && Exec(cfg, s, calls).lockouts == s.lockouts + [Lockout(t, LockoutSeconds(cfg, s.row.lockoutLevel))]
  {
    var k := cfg.maxAttempts - 1;
    var mid := s.(row := Failing(k, s.row.lockoutLevel, s.row.lockoutUntil, t), waiting := 1);
    FailsCount(cfg, s, k, t, w, 0);
    FailLocks(cfg, mid, t, w);
    ReachesBoth(cfg, s, Fails(k, t), mid, [Fail(t)], Exec(cfg, mid, [Fail(t)]), w);
  }

  /** With one attempt more than the maximum under way, a second lockout starts while the first one runs. */
  lemma OverlappingLockouts(cfg: Config, t: int, w: nat)
    requires cfg.windowMs >= 0 && 1 <= cfg.maxAttempts < w
    ensures var calls := Crowd(cfg, t) + TwoLockouts(cfg, t);
            && Legal(cfg, Start(NEW_ROW, t), calls, w)
            && Exec(cfg, Start(NEW_ROW, t), calls).lockouts
               == [Lockout(t, LockoutSeconds(cfg, 0)), Lockout(t, LockoutSeconds(cfg, 1))]
  {
    var crowd := State(Failing(cfg.maxAttempts - 1, 0, None, t), cfg.maxAttempts + 1, [], 0, t);
    var rest := Fails(cfg.maxAttempts - 1, t) + [Fail(t)];
    CrowdWaits(cfg, t, w);
    FailLocks(cfg, crowd, t, w);
    var locked := Exec(cfg, crowd, [Fail(t)]);
    BehindLockout(cfg, locked, t, w);
    var end := Exec(cfg, locked, rest);
    ReachesBoth(cfg, crowd, [Fail(t)], locked, rest, end, w);
    ReachesBoth(cfg, Start(NEW_ROW, t), Crowd(cfg, t), crowd, TwoLockouts(cfg, t), end, w);
  }

  /**
   The exact condition: lockouts of a new account start one after the other in every run with at most
   `w` attempts under way, if and only if `w` is no more than the maximum number of attempts.
   */
  lemma LockoutsApartIff(cfg: Config, w: nat)
    requires cfg.maxAttempts >= 1 && cfg.windowMs >= 0 && cfg.baseSeconds > 0 && cfg.capSeconds > 0
    ensures (forall t, calls :: Legal(cfg, Start(NEW_ROW, t), calls, w) ==>
               Apart(Exec(cfg, Start(NEW_ROW, t), calls).lockouts))
            <==> w <= cfg.maxAttempts
  {
    if w <= cfg.maxAttempts {
      forall t, calls | Legal(cfg, Start(NEW_ROW, t), calls, w)
        ensures Apart(Exec(cfg, Start(NEW_ROW, t), calls).lockouts)
      {
        RunKeepsInv(cfg, Start(NEW_ROW, t), calls, w);
      }
    } else {
      var calls := Crowd(cfg, 0) + TwoLockouts(cfg, 0);
      OverlappingLockouts(cfg, 0, w);
      var lockouts := Exec(cfg, Start(NEW_ROW, 0), calls).lockouts;
      assert LockoutSeconds(cfg, 0) > 0 by {
        assert Pow2(0) == 1;
      }
      assert !StartsAfterPrevious(lockouts, 1);
    }
  }

  // ---------------------------------------------------------------------------------------------
  // When the first lockout falls
  // ---------------------------------------------------------------------------------------------

  function FailCount(calls: seq<Call>): nat {
    if calls == [] then 0 else (if calls[0].Fail? then 1 else 0) + FailCount(calls[1..])
  }

  /** No success, and every failure within the window of the first one. */
  predicate InWindow(cfg: Config, first: Option<int>, calls: seq<Call>)
    decreases |calls|
  {
    calls == [] ||
    (match calls[0]
     case Fail(at) =>
       && (first.Some? ==> at - first.value <= cfg.windowMs)
       && InWindow(cfg, if first.Some? then first else Some(at), calls[1..])
     case Succeed(_) => false
     case Reset(_) => false
     case _ => InWindow(cfg, first, calls[1..]))
  }

  lemma {:induction false} FailuresAddUp(cfg: Config, s: State, calls: seq<Call>)
    requires s.row.lockoutLevel >= 0 && s.row.lockoutUntil == None && 0 <= s.row.failedCount < cfg.maxAttempts
    requires s.row.firstFailedAt == None ==> s.row.failedCount == 0
    requires InWindow(cfg, s.row.firstFailedAt, calls) && s.row.failedCount + FailCount(calls) <= cfg.maxAttempts
    requires s.row.failedCount + FailCount(calls) == cfg.maxAttempts ==> calls != [] && calls[|calls| - 1].Fail?
    ensures Exec(cfg, s, calls).lockouts
            == s.lockouts
               + if s.row.failedCount + FailCount(calls) < cfg.maxAttempts then []
                 else [Lockout(calls[|calls| - 1].at, LockoutSeconds(cfg, s.row.lockoutLevel))]
    decreases |calls|
  {
    if calls != [] {
      var next, rest := Apply(cfg, s, calls[0]), calls[1..];
      if next.lockouts == s.lockouts {
        FailuresAddUp(cfg, next, rest);
      } else if rest != [] {
        HasFailure(rest);
      }
    }
  }

  lemma {:induction false} HasFailure(calls: seq<Call>)
    requires calls != [] && calls[|calls| - 1].Fail?
    ensures FailCount(calls) >= 1
    decreases |calls|
  {
    if |calls| > 1 {
      HasFailure(calls[1..]);
    }
  }

  /**
   For calls in any order with all failures within the window of the first: a new account is locked by
   its `maxAttempts`-th wrong PIN, for the base time, and by no earlier one.
   */
  lemma MaxAttemptsLock(cfg: Config, clock: int, calls: seq<Call>)
    requires cfg.maxAttempts >= 1 && InWindow(cfg, None, calls) && FailCount(calls) <= cfg.maxAttempts
    requires FailCount(calls) == cfg.maxAttempts ==> calls[|calls| - 1].Fail?
    ensures Exec(cfg, Start(NEW_ROW, clock), calls).lockouts
            == if FailCount(calls) < cfg.maxAttempts then []
               else [Lockout(calls[|calls| - 1].at, Min(cfg.baseSeconds, cfg.capSeconds))]
  {
    FailuresAddUp(cfg, Start(NEW_ROW, clock), calls);
    assert Pow2(0) == 1;
  }

  /** The next check clears a lockout that has run out, and the counter: another takes as many failures again. */
  lemma NextLockoutNeedsFullCount(cfg: Config, s: State, at: int, calls: seq<Call>)
    requires cfg.maxAttempts >= 1 && s.row.lockoutLevel >= 0
    requires s.row.lockoutUntil.Some? && s.row.lockoutUntil.value <= at
    requires InWindow(cfg, None, calls) && FailCount(calls) < cfg.maxAttempts
    ensures Apply(cfg, s, Enter(at)).waiting == s.waiting + 1
    ensures Exec(cfg, Apply(cfg, s, Enter(at)), calls).lockouts == s.lockouts
  {
    FailuresAddUp(cfg, Apply(cfg, s, Enter(at)), calls);
  }

  /**
   A success or a new PIN forgives: the next attempt is let through, lockout or not, and the account is
   locked again only by a full count, for the base time.
   */
  lemma SuccessForgives(cfg: Config, s: State, call: Call, later: int, calls: seq<Call>)
    requires s.row.lockoutLevel >= 0 && (call.Succeed? || call.Reset?) && cfg.maxAttempts >= 1
    requires InWindow(cfg, None, calls) && FailCount(calls) <= cfg.maxAttempts
    requires FailCount(calls) == cfg.maxAttempts ==> calls[|calls| - 1].Fail?
    ensures var forgiven := Apply(cfg, s, call);
            && Apply(cfg, forgiven, Enter(later)).waiting == forgiven.waiting + 1
            && Exec(cfg, forgiven, calls).lockouts
               == if FailCount(calls) < cfg.maxAttempts then []
                  else [Lockout(calls[|calls| - 1].at, Min(cfg.baseSeconds, cfg.capSeconds))]
  {
    FailuresAddUp(cfg, Apply(cfg, s, call), calls);
    assert Pow2(0) == 1;
  }

  /** Each failure comes more than the window after the one before. */
  ghost predicate Spaced(cfg: Config, calls: seq<Call>) {
    forall i, j :: 0 <= i < j < |calls| && calls[i].Fail? && calls[j].Fail? ==>
      calls[j].at - calls[i].at > cfg.windowMs
  }

  /** No lockout; the counter is empty, or holds one failure from before every failure to come. */
  ghost predicate Quiet(cfg: Config, s: State, calls: seq<Call>) {
    && s.lockouts == [] && s.row.lockoutUntil == None && s.row.lockoutLevel >= 0
    && (s.row.firstFailedAt.Some? ==>
          forall j :: 0 <= j < |calls| && calls[j].Fail? ==> calls[j].at - s.row.firstFailedAt.value > cfg.windowMs)
  }

  /** Wrong PINs too far apart never lock an account, whatever the order of the other calls. */
  lemma {:induction false} SpacedFailuresNeverLock(cfg: Config, s: State, calls: seq<Call>)
    requires cfg.maxAttempts >= 2 && Quiet(cfg, s, calls) && Spaced(cfg, calls)
    ensures Quiet(cfg, Exec(cfg, s, calls), [])
    decreases |calls|
  {
    if calls != [] {
      var next := Apply(cfg, s, calls[0]);
      assert Quiet(cfg, next, calls[1..]);
      SpacedFailuresNeverLock(cfg, next, calls[1..]);
    }
  }
}
