/**
 The OTP lockout: five failed checks for one (phone, IP) pair lock it for fifteen minutes. The admin
 login uses the same rows under a hash of the email. Times are in milliseconds. Each service call is one
 atomic step; attempts overlap between their check and their recording.
 */
module OtpLockout {
  import opened Wrappers

  const LOCKOUT_WINDOW_MS := 15 * 60 * 1000
  const MAX_FAILED_ATTEMPTS := 5

  datatype AttemptRow = AttemptRow(failedCount: int, lockedUntil: Option<int>, updatedAt: int)

  function NewRow(now: int): AttemptRow {
    AttemptRow(0, None, now)
  }

  /** `isLockedOut`: the answer, and the row with an expired lock cleared. */
  function Check(row: AttemptRow, now: int): (bool, AttemptRow) {
    match row.lockedUntil
    case None => (false, row)
    case Some(until) => if until <= now then (false, AttemptRow(0, None, now)) else (true, row)
  }

  function Fail(row: AttemptRow, now: int): AttemptRow {
    var count := (if row.updatedAt < now - LOCKOUT_WINDOW_MS then 0 else row.failedCount) + 1;
    AttemptRow(
      count,
      if count >= MAX_FAILED_ATTEMPTS then Some(now + LOCKOUT_WINDOW_MS) else row.lockedUntil,
      now)
  }

  /** The service over its table of rows. */
  class OtpLockoutService {
    var attempts: map<(string, string), AttemptRow>

    constructor ()
      ensures attempts == map[]
    {
      attempts := map[];
    }

    method GetOrCreate(phone: string, ip: string, now: int) returns (row: AttemptRow)
      modifies this
      ensures row == Find(old(attempts), (phone, ip)).GetOr(NewRow(now))
      ensures attempts == old(attempts)[(phone, ip) := row]
    {
      if (phone, ip) !in attempts {
        attempts := attempts[(phone, ip) := NewRow(now)];
      }
      row := attempts[(phone, ip)];
      assert attempts == attempts[(phone, ip) := row];
    }

    method IsLockedOut(phone: string, ip: string, now: int) returns (locked: bool)
      modifies this
      ensures var row := Find(old(attempts), (phone, ip)).GetOr(NewRow(now));
              locked == Check(row, now).0 && attempts == old(attempts)[(phone, ip) := Check(row, now).1]
    {
      var row := GetOrCreate(phone, ip, now);
      if row.lockedUntil == None {
        return false;
      }
      if row.lockedUntil.value <= now {
        row := row.(lockedUntil := None);
        row := row.(failedCount := 0);
        row := row.(updatedAt := now);
        attempts := attempts[(phone, ip) := row];
        return false;
      }
      return true;
    }

    method RecordFailure(phone: string, ip: string, now: int)
      modifies this
      ensures var row := Find(old(attempts), (phone, ip)).GetOr(NewRow(now));
              attempts == old(attempts)[(phone, ip) := Fail(row, now)]
    {
      var row := GetOrCreate(phone, ip, now);
      if row.updatedAt < now - LOCKOUT_WINDOW_MS {
        row := row.(failedCount := 0);
      }
      row := row.(failedCount := row.failedCount + 1, updatedAt := now);
      if row.failedCount >= MAX_FAILED_ATTEMPTS {
        row := row.(lockedUntil := Some(now + LOCKOUT_WINDOW_MS));
      }
      attempts := attempts[(phone, ip) := row];
    }

    method RecordSuccess(phone: string, ip: string, now: int)
      modifies this
      ensures attempts
              == if (phone, ip) in old(attempts) then old(attempts)[(phone, ip) := NewRow(now)] else old(attempts)
    {
      if (phone, ip) !in attempts {
        return;
      }
      attempts := attempts[(phone, ip) := AttemptRow(0, None, now)];
    }
  }

  // ---------------------------------------------------------------------------------------------
  // Runs of one pair, interleaved between the check and the recording
  // ---------------------------------------------------------------------------------------------

  datatype Outcome = Failure | Success | Neither

  /**
   A login attempt is two service calls with awaits in between: it enters by the lockout check, and if
   that lets it through it records an outcome later. Attempts are told apart by when they entered.
   */
  datatype Step = Enter(at: int) | Record(entered: int, outcome: Outcome, at: int)

  /** `waiting` holds the entry times of the attempts that were let through and have not recorded yet. */
  datatype State = State(row: Option<AttemptRow>, waiting: multiset<int>, clock: int)

  predicate Enabled(s: State, step: Step) {
    s.clock <= step.at && (step.Record? ==> step.entered in s.waiting)
  }

  function Apply(s: State, step: Step): State {
    match step
    case Enter(at) =>
      var (locked, row) := Check(s.row.GetOr(NewRow(at)), at);
      State(Some(row), if locked then s.waiting else s.waiting + multiset{at}, at)
    case Record(entered, outcome, at) =>
      var row := match outcome
        case Failure => Some(Fail(s.row.GetOr(NewRow(at)), at))
        case Success => if s.row.Some? then Some(NewRow(at)) else None
        case Neither => s.row;
      State(row, s.waiting - multiset{entered}, at)
  }

  /** The clock never goes back, and no more than `w` attempts wait at any time. */
  predicate Legal(s: State, steps: seq<Step>, w: nat)
    decreases |steps|
  {
    steps == [] ||
    (Enabled(s, steps[0]) && |Apply(s, steps[0]).waiting| <= w && Legal(Apply(s, steps[0]), steps[1..], w))
  }

  function Exec(s: State, steps: seq<Step>): State
    decreases |steps|
  {
    if steps == [] then s else Exec(Apply(s, steps[0]), steps[1..])
  }

  function Start(clock: int): State {
    State(None, multiset{}, clock)
  }

  predicate Within(t: int, from: int) {
    from <= t < from + LOCKOUT_WINDOW_MS
  }

  predicate Records(step: Step, outcome: Outcome, from: int) {
    step.Record? && step.outcome == outcome && Within(step.at, from)
  }

  /** Failures recorded in [from, from + 15 minutes). */
  function Failures(steps: seq<Step>, from: int): nat {
    if steps == [] then 0 else (if Records(steps[0], Failure, from) then 1 else 0) + Failures(steps[1..], from)
  }

  ghost predicate NoSuccess(steps: seq<Step>, from: int) {
    forall i :: 0 <= i < |steps| ==> !Records(steps[i], Success, from)
  }

  /** Each attempt records within fifteen minutes of its check. */
  predicate IsPrompt(step: Step) {
    step.Record? ==> step.at <= step.entered + LOCKOUT_WINDOW_MS
  }

  ghost predicate Prompt(steps: seq<Step>) {
    forall i :: 0 <= i < |steps| ==> IsPrompt(steps[i])
  }

  // ---------------------------------------------------------------------------------------------
  // How many failures an interval can hold
  // ---------------------------------------------------------------------------------------------

  function Min(a: int, b: int): int {
    if a < b then a else b
  }

  /** How many failures of one interval a late check can wipe from the counter. */
  function Slack(w: nat, prompt: bool): int {
    if prompt then 0 else Min(MAX_FAILED_ATTEMPTS - 1, w - 1)
  }

  /** At all times: a lock was set by an attempt that waited, and a full counter means a lock. */
  ghost predicate RowInv(s: State, w: nat, prompt: bool) {
    |s.waiting| <= w && (forall t :: t in s.waiting ==> t <= s.clock)
    && match s.row
       case None => s.waiting == multiset{}
       case Some(row) =>
         && 0 <= row.failedCount
         && (row.lockedUntil == None ==> row.failedCount < MAX_FAILED_ATTEMPTS)
         && (row.lockedUntil.Some? ==> |s.waiting| <= w - 1)
         && (row.lockedUntil.Some? && prompt ==>
               && row.failedCount >= MAX_FAILED_ATTEMPTS
               && row.lockedUntil.value == row.updatedAt + LOCKOUT_WINDOW_MS
               && forall t :: t in s.waiting ==> t <= row.updatedAt)
  }

  /**
   While the interval is open, each of its failures is on the counter, or was wiped from it, or lies
   behind a lock that outlasts the interval, behind which only the attempts still waiting can record;
   or a lock from before the interval is left over, which only attempts that waited behind it can see.
   */
  ghost predicate Counted(s: State, n: int, from: int, w: nat, prompt: bool) {
    s.row.Some? && from <= s.row.value.updatedAt
    && match s.row.value.lockedUntil
       case None => n <= s.row.value.failedCount + Slack(w, prompt)
       case Some(until) =>
         if from + LOCKOUT_WINDOW_MS <= until
         then n + |s.waiting| <= MAX_FAILED_ATTEMPTS + w - 1 + Slack(w, prompt)
         else !prompt && n <= s.row.value.failedCount < MAX_FAILED_ATTEMPTS && n + |s.waiting| <= w - 1
  }

  ghost predicate Accounted(s: State, n: int, from: int, w: nat, prompt: bool) {
    && RowInv(s, w, prompt)
    && 0 <= n <= MAX_FAILED_ATTEMPTS + w - 1 + Slack(w, prompt)
    && (n > 0 ==> from <= s.clock)
    && (n > 0 && s.clock < from + LOCKOUT_WINDOW_MS ==> Counted(s, n, from, w, prompt))
  }

  lemma StepKeepsRow(s: State, step: Step, w: nat, prompt: bool)
    requires w >= 1 && RowInv(s, w, prompt) && Enabled(s, step) && |Apply(s, step).waiting| <= w
    requires prompt ==> IsPrompt(step)
    ensures RowInv(Apply(s, step), w, prompt)
  {
    if step.Enter? {
      assert forall t :: t in Apply(s, step).waiting ==> t in s.waiting || t == step.at;
    } else {
      assert |Apply(s, step).waiting| == |s.waiting| - 1;
      assert forall t :: t in Apply(s, step).waiting ==> t in s.waiting;
    }
  }

  lemma StepKeepsAccount(s: State, step: Step, n: int, from: int, w: nat, prompt: bool)
    requires w >= 1 && Accounted(s, n, from, w, prompt) && Enabled(s, step) && |Apply(s, step).waiting| <= w
    requires !Records(step, Success, from) && (prompt ==> IsPrompt(step))
    ensures Accounted(Apply(s, step), n + if Records(step, Failure, from) then 1 else 0, from, w, prompt)
  {
    StepKeepsRow(s, step, w, prompt);
  }

  lemma {:induction false} RunAccounts(s: State, steps: seq<Step>, n: int, from: int, w: nat, prompt: bool)
    requires w >= 1 && Accounted(s, n, from, w, prompt) && Legal(s, steps, w)
    requires NoSuccess(steps, from) && (prompt ==> Prompt(steps))
    ensures Accounted(Exec(s, steps), n + Failures(steps, from), from, w, prompt)
    decreases |steps|
  {
    if steps != [] {
      var n' := n + if Records(steps[0], Failure, from) then 1 else 0;
      StepKeepsAccount(s, steps[0], n, from, w, prompt);
      RunAccounts(Apply(s, steps[0]), steps[1..], n', from, w, prompt);
    }
  }

  /**
   Attempts that all record within fifteen minutes of their check, at most `w` of them waiting at a
   time: an interval without a success holds at most five failures and one more for each other
   attempt that can be waiting when the lock falls.
   */
  lemma PromptFailuresBound(clock: int, steps: seq<Step>, from: int, w: nat)
    requires w >= 1 && Legal(Start(clock), steps, w) && NoSuccess(steps, from) && Prompt(steps)
    ensures Failures(steps, from) <= MAX_FAILED_ATTEMPTS + w - 1
  {
    RunAccounts(Start(clock), steps, 0, from, w, true);
  }

  /** However late attempts record. */
  lemma FailuresBound(clock: int, steps: seq<Step>, from: int, w: nat)
    requires w >= 1 && Legal(Start(clock), steps, w) && NoSuccess(steps, from)
    ensures Failures(steps, from) <= MAX_FAILED_ATTEMPTS + (w - 1) + Min(MAX_FAILED_ATTEMPTS - 1, w - 1)
  {
    RunAccounts(Start(clock), steps, 0, from, w, false);
  }

  /** If attempts of a pair never overlap, that is five, however late they record. */
  lemma AtMostFiveFailures(clock: int, steps: seq<Step>, from: int)
    requires Legal(Start(clock), steps, 1) && NoSuccess(steps, from)
    ensures Failures(steps, from) <= 5
  {
    FailuresBound(clock, steps, from, 1);
  }

  // ---------------------------------------------------------------------------------------------
  // The bounds are attained
  // ---------------------------------------------------------------------------------------------

  ghost predicate Reaches(s: State, steps: seq<Step>, w: nat, s': State) {
    Legal(s, steps, w) && Exec(s, steps) == s'
  }

  lemma {:induction false} ReachesBoth(s: State, a: seq<Step>, mid: State, b: seq<Step>, end: State, w: nat)
    requires Reaches(s, a, w, mid) && Reaches(mid, b, w, end)
    ensures Reaches(s, a + b, w, end)
    decreases |a|
  {
    if a == [] {
      assert a + b == b;
    } else {
      assert (a + b)[1..] == a[1..] + b;
      ReachesBoth(Apply(s, a[0]), a[1..], mid, b, end, w);
    }
  }

  lemma {:induction false} FailuresOfBoth(a: seq<Step>, b: seq<Step>, from: int)
    ensures Failures(a + b, from) == Failures(a, from) + Failures(b, from)
    decreases |a|
  {
    if a == [] {
      assert a + b == b;
    } else {
      assert (a + b)[1..] == a[1..] + b;
      FailuresOfBoth(a[1..], b, from);
    }
  }

  function Enters(k: nat, t: int): seq<Step> {
    seq(k, _ => Enter(t))
  }

  function Fails(k: nat, entered: int, t: int): seq<Step> {
    seq(k, _ => Record(entered, Failure, t))
  }

  /** Each step enters at `t` or records a failure at `t`. */
  ghost predicate OnlyAt(steps: seq<Step>, t: int) {
    forall i :: 0 <= i < |steps| ==> steps[i].at == t && (steps[i].Record? ==> steps[i].outcome == Failure)
  }

  /** Attempts that find the pair open wait together. */
  lemma {:induction false} EntersWait(s: State, k: nat, t: int, w: nat, c: int)
    requires s.row == Some(AttemptRow(c, None, t)) && s.clock == t && |s.waiting| + k <= w
    ensures Reaches(s, Enters(k, t), w, s.(waiting := s.waiting[t := s.waiting[t] + k]))
    decreases k
  {
    var end := s.(waiting := s.waiting[t := s.waiting[t] + k]);
    if k == 0 {
      assert end == s;
    } else {
      var next := Apply(s, Enter(t));
      assert Enters(k, t)[1..] == Enters(k - 1, t);
      EntersWait(next, k - 1, t, w, c);
      assert next.waiting[t := next.waiting[t] + (k - 1)] == end.waiting;
    }
  }

  /** The row after `k` failures at `t`, the latest of which find the counter fresh. */
  function Counting(c: int, lock: Option<int>, k: nat, t: int): AttemptRow {
    AttemptRow(c + k, if k > 0 && c + k >= MAX_FAILED_ATTEMPTS then Some(t + LOCKOUT_WINDOW_MS) else lock, t)
  }

  lemma {:induction false} FailsAreFailures(k: nat, entered: int, t: int)
    ensures Failures(Fails(k, entered, t), t) == k
    decreases k
  {
    if k > 0 {
      assert Fails(k, entered, t)[1..] == Fails(k - 1, entered, t);
      FailsAreFailures(k - 1, entered, t);
    }
  }

  function Without(waiting: multiset<int>, entered: int, k: nat): multiset<int>
    requires k <= waiting[entered]
  {
    waiting[entered := waiting[entered] - k]
  }

  lemma WithoutOneMore(waiting: multiset<int>, entered: int, k: nat)
    requires 1 <= k <= waiting[entered]
    ensures Without(waiting - multiset{entered}, entered, k - 1) == Without(waiting, entered, k)
  {
  }

  lemma {:induction false} FailsCount(s: State, k: nat, entered: int, t: int, w: nat, c: nat, lock: Option<int>)
    requires s.row == Some(AttemptRow(c, lock, t)) && s.clock == t && k <= s.waiting[entered] && |s.waiting| <= w
    ensures Reaches(s, Fails(k, entered, t), w, State(Some(Counting(c, lock, k, t)), Without(s.waiting, entered, k), t))
    decreases k
  {
    if k == 0 {
      assert Without(s.waiting, entered, 0) == s.waiting;
    } else {
      var rest := Fails(k - 1, entered, t);
      assert Fails(k, entered, t)[1..] == rest;
      var lock' := Counting(c, lock, 1, t).lockedUntil;
      var next := State(Some(Counting(c, lock, 1, t)), s.waiting - multiset{entered}, t);
      assert Apply(s, Record(entered, Failure, t)) == next;
      FailsCount(next, k - 1, entered, t, w, c + 1, lock');
      assert Counting(c + 1, lock', k - 1, t) == Counting(c, lock, k, t);
      WithoutOneMore(s.waiting, entered, k);
    }
  }

  function Pair(t: int): seq<Step> {
    [Enter(t), Record(t, Failure, t)]
  }

  /** `k` attempts one after the other. */
  function Serial(k: nat, t: int): seq<Step> {
    if k == 0 then [] else Pair(t) + Serial(k - 1, t)
  }

  lemma {:induction false} SerialCounts(s: State, k: nat, t: int, w: nat, c: nat)
    requires Check(s.row.GetOr(NewRow(t)), t) == (false, AttemptRow(c, None, t))
    requires 1 <= k && c + k < MAX_FAILED_ATTEMPTS && s.clock <= t && |s.waiting| + 1 <= w
    ensures Reaches(s, Serial(k, t), w, State(Some(AttemptRow(c + k, None, t)), s.waiting, t))
    ensures Failures(Serial(k, t), t) == k && OnlyAt(Serial(k, t), t)
    decreases k
  {
    var a, b := Enter(t), Record(t, Failure, t);
    var mid := Apply(s, a);
    var next := Apply(mid, b);
    assert next == State(Some(AttemptRow(c + 1, None, t)), s.waiting, t);
    assert Pair(t)[1..] == [b] && [b][1..] == [];
    assert Legal(next, [], w) && Legal(mid, [b], w) && Exec(mid, [b]) == next;
    assert Reaches(s, Pair(t), w, next);
    assert Failures([], t) == 0 && Failures([b], t) == 1 && Failures(Pair(t), t) == 1;
    if k == 1 {
      assert Serial(1, t) == Pair(t) + [] == Pair(t);
    } else {
      SerialCounts(next, k - 1, t, w, c + 1);
      ReachesBoth(s, Pair(t), next, Serial(k - 1, t), State(Some(AttemptRow(c + k, None, t)), s.waiting, t), w);
      FailuresOfBoth(Pair(t), Serial(k - 1, t), t);
    }
  }

  lemma {:induction false} NoFailures(steps: seq<Step>, from: int)
    requires forall i :: 0 <= i < |steps| ==> !Records(steps[i], Failure, from)
    ensures Failures(steps, from) == 0
    decreases |steps|
  {
    if steps != [] {
      NoFailures(steps[1..], from);
    }
  }

  /** Four failures, then `w` attempts that enter together. */
  function Crowd(w: nat, t: int): seq<Step> {
    Serial(MAX_FAILED_ATTEMPTS - 1, t) + Enters(w, t)
  }

  lemma CrowdWaits(w: nat, t: int)
    requires w >= 1
    ensures Reaches(Start(t), Crowd(w, t), w,
                    State(Some(AttemptRow(MAX_FAILED_ATTEMPTS - 1, None, t)), multiset{}[t := w], t))
    ensures Failures(Crowd(w, t), t) == MAX_FAILED_ATTEMPTS - 1 && OnlyAt(Crowd(w, t), t)
  {
    var a, b := Serial(MAX_FAILED_ATTEMPTS - 1, t), Enters(w, t);
    var mid := State(Some(AttemptRow(MAX_FAILED_ATTEMPTS - 1, None, t)), multiset{}, t);
    SerialCounts(Start(t), MAX_FAILED_ATTEMPTS - 1, t, w, 0);
    EntersWait(mid, w, t, w, MAX_FAILED_ATTEMPTS - 1);
    ReachesBoth(Start(t), a, mid, b, mid.(waiting := multiset{}[t := w]), w);
    FailuresOfBoth(a, b, t);
    NoFailures(b, t);
  }

  /** The prompt bound is attained for every `w`, by attempts that take no time at all. */
  lemma PromptBoundIsAttained(w: nat, t: int)
    requires w >= 1
    ensures var steps := Crowd(w, t) + Fails(w, t, t);
            && Legal(Start(t), steps, w) && NoSuccess(steps, t) && Prompt(steps)
            && Failures(steps, t) == MAX_FAILED_ATTEMPTS + w - 1
  {
    var mid := State(Some(AttemptRow(MAX_FAILED_ATTEMPTS - 1, None, t)), multiset{}[t := w], t);
    CrowdWaits(w, t);
    FailsCount(mid, w, t, t, w, MAX_FAILED_ATTEMPTS - 1, None);
    FailsAreFailures(w, t, t);
    ReachesBoth(Start(t), Crowd(w, t), mid, Fails(w, t, t), Exec(mid, Fails(w, t, t)), w);
    FailuresOfBoth(Crowd(w, t), Fails(w, t, t), t);
    CrowdIsPrompt(w, t);
  }

  lemma {:induction false} SerialIsPrompt(k: nat, t: int)
    ensures Prompt(Serial(k, t))
    decreases k
  {
    if k > 0 {
      SerialIsPrompt(k - 1, t);
    }
  }

  lemma CrowdIsPrompt(w: nat, t: int)
    ensures Prompt(Crowd(w, t))
  {
    SerialIsPrompt(MAX_FAILED_ATTEMPTS - 1, t);
  }

  // Stragglers: attempts that were let through before a lock and record after it has run out.

  const LATE := LOCKOUT_WINDOW_MS + 1

  /** A lock at time 0 with `w - 1` attempts still waiting behind it. */
  function Locking(w: nat): seq<Step> {
    Crowd(w, 0) + Fails(1, 0, 0)
  }

  function Locked(w: nat): State
    requires w >= 1
  {
    State(Some(AttemptRow(MAX_FAILED_ATTEMPTS, Some(LOCKOUT_WINDOW_MS), 0)), multiset{}[0 := w - 1], 0)
  }

  lemma LockingLocks(w: nat)
    requires w >= 1
    ensures Reaches(Start(0), Locking(w), w, Locked(w)) && OnlyAt(Locking(w), 0)
  {
    var mid := State(Some(AttemptRow(MAX_FAILED_ATTEMPTS - 1, None, 0)), multiset{}[0 := w], 0);
    CrowdWaits(w, 0);
    FailsCount(mid, 1, 0, 0, w, MAX_FAILED_ATTEMPTS - 1, None);
    assert Without(mid.waiting, 0, 1) == multiset{}[0 := w - 1];
    ReachesBoth(Start(0), Crowd(w, 0), mid, Fails(1, 0, 0), Locked(w), w);
  }

  /** The row `m` stragglers leave: their failures are counted beside a lock that has run out. */
  function Straggled(w: nat, m: nat): State
    requires 1 <= w && m < w
  {
    if m == 0 then Locked(w)
    else State(Some(AttemptRow(m, Some(LOCKOUT_WINDOW_MS), LATE)), multiset{}[0 := w - 1 - m], LATE)
  }

  lemma FirstStraggler(w: nat)
    requires w >= 2
    ensures Reaches(Locked(w), [Record(0, Failure, LATE)], w, Straggled(w, 1))
  {
    assert multiset{}[0 := w - 1] - multiset{0} == multiset{}[0 := w - 2];
    assert Apply(Locked(w), Record(0, Failure, LATE)) == Straggled(w, 1);
  }

  lemma MoreStragglers(w: nat, m: nat)
    requires 1 <= m < w && m < MAX_FAILED_ATTEMPTS
    ensures Reaches(Straggled(w, 1), Fails(m - 1, 0, LATE), w, Straggled(w, m))
  {
    FailsCount(Straggled(w, 1), m - 1, 0, LATE, w, 1, Some(LOCKOUT_WINDOW_MS));
    assert Without(multiset{}[0 := w - 2], 0, m - 1) == multiset{}[0 := w - 1 - m];
  }

  lemma StragglersCount(w: nat, m: nat)
    requires m < w && m < MAX_FAILED_ATTEMPTS
    ensures Reaches(Locked(w), Fails(m, 0, LATE), w, Straggled(w, m))
  {
    if m > 0 {
      FirstStraggler(w);
      assert [Record(0, Failure, LATE)] + Fails(m - 1, 0, LATE) == Fails(m, 0, LATE);
      MoreStragglers(w, m);
      ReachesBoth(Locked(w), [Record(0, Failure, LATE)], Straggled(w, 1), Fails(m - 1, 0, LATE), Straggled(w, m), w);
    }
  }

  /** The first check after the lock wipes the stragglers' failures; then a new crowd gathers. */
  function Regather(m: nat): seq<Step> {
    Serial(MAX_FAILED_ATTEMPTS - 1, LATE) + Enters(m + 1, LATE)
  }

  function Regathered(w: nat, m: nat): State
    requires m < w
  {
    State(Some(AttemptRow(MAX_FAILED_ATTEMPTS - 1, None, LATE)), multiset{}[0 := w - 1 - m][LATE := m + 1], LATE)
  }

  function Wiped(w: nat, m: nat): State
    requires m < w
  {
    State(Some(AttemptRow(MAX_FAILED_ATTEMPTS - 1, None, LATE)), multiset{}[0 := w - 1 - m], LATE)
  }

  lemma SerialWipes(w: nat, m: nat)
    requires m < w && m < MAX_FAILED_ATTEMPTS
    ensures Reaches(Straggled(w, m), Serial(MAX_FAILED_ATTEMPTS - 1, LATE), w, Wiped(w, m))
  {
    assert Straggled(w, m).waiting == multiset{}[0 := w - 1 - m];
    SerialCounts(Straggled(w, m), MAX_FAILED_ATTEMPTS - 1, LATE, w, 0);
  }

  lemma RegatherWipes(w: nat, m: nat)
    requires m < w && m < MAX_FAILED_ATTEMPTS
    ensures Reaches(Straggled(w, m), Regather(m), w, Regathered(w, m))
  {
    SerialWipes(w, m);
    EntersWait(Wiped(w, m), m + 1, LATE, w, MAX_FAILED_ATTEMPTS - 1);
    ReachesBoth(Straggled(w, m), Serial(MAX_FAILED_ATTEMPTS - 1, LATE), Wiped(w, m),
                Enters(m + 1, LATE), Regathered(w, m), w);
  }

  lemma RegatherFailures(m: nat)
    ensures Failures(Regather(m), LATE) == MAX_FAILED_ATTEMPTS - 1 && OnlyAt(Regather(m), LATE)
  {
    var a, b := Serial(MAX_FAILED_ATTEMPTS - 1, LATE), Enters(m + 1, LATE);
    SerialCounts(Start(LATE), MAX_FAILED_ATTEMPTS - 1, LATE, 1, 0);
    FailuresOfBoth(a, b, LATE);
    NoFailures(b, LATE);
  }

  function LastFailures(w: nat, m: nat): seq<Step>
    requires m < w
  {
    Fails(m + 1, LATE, LATE) + Fails(w - 1 - m, 0, LATE)
  }

  lemma LastFailuresRecord(w: nat, m: nat)
    requires m < w
    ensures Legal(Regathered(w, m), LastFailures(w, m), w)
  {
    var a, b := Fails(m + 1, LATE, LATE), Fails(w - 1 - m, 0, LATE);
    var s, c := Regathered(w, m), MAX_FAILED_ATTEMPTS - 1;
    var mid := State(Some(Counting(c, None, m + 1, LATE)), Without(s.waiting, LATE, m + 1), LATE);
    FailsCount(s, m + 1, LATE, LATE, w, c, None);
    FailsCount(mid, w - 1 - m, 0, LATE, w, c + m + 1, mid.row.value.lockedUntil);
    ReachesBoth(s, a, mid, b, Exec(mid, b), w);
  }

  lemma LastFailuresAreFailures(w: nat, m: nat)
    requires m < w
    ensures Failures(LastFailures(w, m), LATE) == w
  {
    FailuresOfBoth(Fails(m + 1, LATE, LATE), Fails(w - 1 - m, 0, LATE), LATE);
    FailsAreFailures(m + 1, LATE, LATE);
    FailsAreFailures(w - 1 - m, 0, LATE);
  }

  lemma ReachesFour(
      s0: State, a: seq<Step>, s1: State, b: seq<Step>, s2: State, c: seq<Step>, s3: State, d: seq<Step>, w: nat)
    requires Reaches(s0, a, w, s1) && Reaches(s1, b, w, s2) && Reaches(s2, c, w, s3) && Legal(s3, d, w)
    ensures Legal(s0, a + (b + (c + d)), w)
  {
    var end := Exec(s3, d);
    ReachesBoth(s2, c, s3, d, end, w);
    ReachesBoth(s1, b, s2, c + d, end, w);
    ReachesBoth(s0, a, s1, b + (c + d), end, w);
  }

  lemma FailuresOfFour(a: seq<Step>, b: seq<Step>, c: seq<Step>, d: seq<Step>, from: int)
    ensures Failures(a + (b + (c + d)), from)
            == Failures(a, from) + Failures(b, from) + Failures(c, from) + Failures(d, from)
  {
    FailuresOfBoth(c, d, from);
    FailuresOfBoth(b, c + d, from);
    FailuresOfBoth(a, b + (c + d), from);
  }

  function StragglerRun(w: nat): seq<Step>
    requires w >= 1
  {
    var m := Min(MAX_FAILED_ATTEMPTS - 1, w - 1);
    Locking(w) + (Fails(m, 0, LATE) + (Regather(m) + LastFailures(w, m)))
  }

  lemma StragglerRunIsLegal(w: nat)
    requires w >= 1
    ensures Legal(Start(0), StragglerRun(w), w)
  {
    var m := Min(MAX_FAILED_ATTEMPTS - 1, w - 1);
    LockingLocks(w);
    StragglersCount(w, m);
    RegatherWipes(w, m);
    LastFailuresRecord(w, m);
    ReachesFour(Start(0), Locking(w), Locked(w), Fails(m, 0, LATE), Straggled(w, m), Regather(m), Regathered(w, m),
                LastFailures(w, m), w);
  }

  /** The bound without promptness is attained for every `w`. */
  lemma LateBoundIsAttained(w: nat)
    requires w >= 1
    ensures Legal(Start(0), StragglerRun(w), w) && NoSuccess(StragglerRun(w), LATE)
    ensures Failures(StragglerRun(w), LATE)
            == MAX_FAILED_ATTEMPTS + (w - 1) + Min(MAX_FAILED_ATTEMPTS - 1, w - 1)
  {
    var m := Min(MAX_FAILED_ATTEMPTS - 1, w - 1);
    StragglerRunIsLegal(w);
    LockingLocks(w);
    NoFailures(Locking(w), LATE);
    FailsAreFailures(m, 0, LATE);
    RegatherFailures(m);
    LastFailuresAreFailures(w, m);
    FailuresOfFour(Locking(w), Fails(m, 0, LATE), Regather(m), LastFailures(w, m), LATE);
  }

  // ---------------------------------------------------------------------------------------------
  // When the lock falls and when it does not
  // ---------------------------------------------------------------------------------------------

  /** Five failures one after the other are all recorded; then the pair is locked for exactly fifteen minutes. */
  lemma FiveFailuresLock(t: int, later: int)
    requires t <= later
    ensures var steps := Crowd(1, t) + Fails(1, t, t);
            && Legal(Start(t), steps, 1) && Failures(steps, t) == 5
            && Exec(Start(t), steps).row.Some?
            && (Check(Exec(Start(t), steps).row.value, later).0 <==> later < t + 900_000)
  {
    var mid := State(Some(AttemptRow(MAX_FAILED_ATTEMPTS - 1, None, t)), multiset{}[t := 1], t);
    PromptBoundIsAttained(1, t);
    CrowdWaits(1, t);
    FailsCount(mid, 1, t, t, 1, MAX_FAILED_ATTEMPTS - 1, None);
    ReachesBoth(Start(t), Crowd(1, t), mid, Fails(1, t, t), Exec(mid, Fails(1, t, t)), 1);
  }

  /** Failing attempts one after the other, at these times. */
  function Chain(times: seq<int>): seq<Step> {
    if times == [] then [] else Pair(times[0]) + Chain(times[1..])
  }

  /** Each time is at most fifteen minutes after the one before it, the first after `last`. */
  predicate Close(last: int, times: seq<int>)
    decreases |times|
  {
    times == [] || (last <= times[0] <= last + LOCKOUT_WINDOW_MS && Close(times[0], times[1..]))
  }

  lemma {:induction false} ChainCounts(s: State, times: seq<int>, c: nat)
    requires s.row.Some? && s.row.value.failedCount == c && s.row.value.lockedUntil == None
    requires times != [] && c + |times| <= MAX_FAILED_ATTEMPTS && Close(s.row.value.updatedAt, times)
    ensures var last := times[|times| - 1];
            var lock := if c + |times| == MAX_FAILED_ATTEMPTS then Some(last + LOCKOUT_WINDOW_MS) else None;
            Exec(s, Chain(times)).row == Some(AttemptRow(c + |times|, lock, last))
    decreases |times|
  {
    var t := times[0];
    PairCounts(s, t, c);
    ExecPair(s, t, Chain(times[1..]));
    if |times| > 1 {
      ChainCounts(Apply(Apply(s, Enter(t)), Record(t, Failure, t)), times[1..], c + 1);
    }
  }

  lemma ExecPair(s: State, t: int, rest: seq<Step>)
    ensures Exec(s, Pair(t) + rest) == Exec(Apply(Apply(s, Enter(t)), Record(t, Failure, t)), rest)
  {
    var all := Pair(t) + rest;
    assert all[1..] == [Record(t, Failure, t)] + rest;
    assert all[1..][1..] == rest;
  }

  /** One failing attempt, not more than fifteen minutes after the last update of an open row. */
  lemma PairCounts(s: State, t: int, c: nat)
    requires s.row.Some? && s.row.value.failedCount == c && s.row.value.lockedUntil == None
    requires s.row.value.updatedAt <= t <= s.row.value.updatedAt + LOCKOUT_WINDOW_MS
    ensures var lock := if c + 1 >= MAX_FAILED_ATTEMPTS then Some(t + LOCKOUT_WINDOW_MS) else None;
            Apply(Apply(s, Enter(t)), Record(t, Failure, t)).row == Some(AttemptRow(c + 1, lock, t))
  {
  }

  /**
   The window slides with each failure: failures at most fifteen minutes apart add up, however long they
   take in all, and the fifth locks the pair for fifteen minutes.
   */
  lemma CloseFailuresLock(times: seq<int>)
    requires 1 <= |times| <= MAX_FAILED_ATTEMPTS && Close(times[0], times)
    ensures var last := times[|times| - 1];
            var lock := if |times| == MAX_FAILED_ATTEMPTS then Some(last + LOCKOUT_WINDOW_MS) else None;
            Exec(Start(times[0]), Chain(times)).row == Some(AttemptRow(|times|, lock, last))
  {
    var t := times[0];
    var s := State(Some(NewRow(t)), multiset{}, t);
    assert Chain(times)[0] == Enter(t);
    assert Apply(Start(t), Enter(t)) == Apply(s, Enter(t));
    assert Exec(Start(t), Chain(times)) == Exec(s, Chain(times));
    ChainCounts(s, times, 0);
  }

  /** A success forgives: the next attempt is let through, lock or no lock, and failures count from one again. */
  lemma SuccessForgives(s: State, entered: int, at: int, later: int)
    requires s.row.Some? && at <= later
    ensures var forgiven := Apply(s, Record(entered, Success, at));
            var next := Apply(forgiven, Enter(later));
            && next.waiting == forgiven.waiting + multiset{later}
            && Apply(next, Record(later, Failure, later)).row == Some(AttemptRow(1, None, later))
  {
  }

  /** Each recording comes more than fifteen minutes after the one before. */
  ghost predicate Spaced(steps: seq<Step>) {
    forall i, j :: 0 <= i < j < |steps| && steps[i].Record? && steps[j].Record? ==>
      steps[j].at - steps[i].at > LOCKOUT_WINDOW_MS
  }

  /** No lock; the counter is empty, or holds one failure from before every recording to come. */
  ghost predicate Quiet(s: State, steps: seq<Step>) {
    s.row.Some? ==>
      && s.row.value.lockedUntil == None
      && 0 <= s.row.value.failedCount <= 1
      && (s.row.value.failedCount == 1 ==>
            forall j :: 0 <= j < |steps| && steps[j].Record? ==>
              steps[j].at - s.row.value.updatedAt > LOCKOUT_WINDOW_MS)
  }

  /** Recordings too far apart never lock a pair, however attempts overlap. */
  lemma {:induction false} SpacedFailuresNeverLock(s: State, steps: seq<Step>)
    requires Quiet(s, steps) && Spaced(steps)
    ensures Quiet(Exec(s, steps), [])
    decreases |steps|
  {
    if steps != [] {
      var next := Apply(s, steps[0]);
      assert Quiet(next, steps[1..]);
      SpacedFailuresNeverLock(next, steps[1..]);
    }
  }
}
