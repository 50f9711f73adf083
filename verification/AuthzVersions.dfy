/**
 The authorisation-version service: a thirty-second in-process cache in front of the users table, the
 version bump that revokes a staff member's outstanding tokens, and the roles guard that consults
 both. Calls interleave at their awaits; times are in milliseconds.
 */
module AuthzVersions {
  import opened Wrappers

  const CACHE_TTL_MS := 30_000

  datatype UserRow = UserRow(authzVersion: int, status: string, accountType: string, staffRole: string)

  datatype AuthzState = AuthzState(version: int, status: string, accountType: string, staffRole: string)

  datatype Entry = Entry(state: AuthzState, expiresAt: int)

  const UNKNOWN_USER := AuthzState(-1, "UNKNOWN", "CONSUMER", "ADMIN")

  /** The stored row as the service reports it. */
  function Stored(users: map<string, UserRow>, userId: string): AuthzState {
    if userId !in users then UNKNOWN_USER
    else
      var u := users[userId];
      AuthzState(u.authzVersion, u.status, u.accountType, if u.staffRole == "" then "ADMIN" else u.staffRole)
  }

  /** `getAuthzState`: the answer, and the cache after it. */
  function Lookup(users: map<string, UserRow>, cache: map<string, Entry>, userId: string, now: int)
    : (AuthzState, map<string, Entry>)
  {
    if userId in cache && cache[userId].expiresAt > now then (cache[userId].state, cache)
    else if userId !in users then (UNKNOWN_USER, cache)
    else
      var state := Stored(users, userId);
      (state, cache[userId := Entry(state, now + CACHE_TTL_MS)])
  }

  datatype Claims = Claims(userId: string, roles: seq<string>, role: Option<string>, authzVersion: Option<int>)

  function JwtRoles(c: Claims): seq<string> {
    if c.roles != [] then c.roles
    else if c.role.Some? && c.role.value != "" then [c.role.value]
    else []
  }

  predicate IsStaffRole(role: string) {
    role == "ADMIN" || role == "SUPPORT_AGENT"
  }

  predicate SharesRole(required: seq<string>, held: seq<string>) {
    exists r :: r in required && r in held
  }

  predicate HasStaffRole(roles: seq<string>) {
    exists r :: r in roles && IsStaffRole(r)
  }

  /** Does the guard consult the authorisation state for this request? */
  predicate StaffContext(required: seq<string>, c: Claims) {
    HasStaffRole(required) || HasStaffRole(JwtRoles(c))
  }

  predicate StateAdmits(state: AuthzState, c: Claims) {
    && state.accountType == "ADMIN"
    && state.status !in {"FROZEN", "SUSPENDED", "BANNED"}
    && c.authzVersion == Some(state.version)
  }

  /** The roles guard, given what `getAuthzState` would answer. */
  predicate Admits(required: seq<string>, user: Option<Claims>, state: AuthzState) {
    required == [] ||
    (user.Some?
     && SharesRole(required, JwtRoles(user.value))
     && (StaffContext(required, user.value) ==> StateAdmits(state, user.value)))
  }

  /** The roles of a token: `roles`, or `role` when `roles` is empty. */
  predicate Holds(c: Claims, role: string) {
    role in c.roles || (c.roles == [] && c.role == Some(role) && role != "")
  }

  /** Does a required or held role make this a staff request? */
  predicate IsStaffRequest(required: seq<string>, c: Claims) {
    "ADMIN" in required || "SUPPORT_AGENT" in required || Holds(c, "ADMIN") || Holds(c, "SUPPORT_AGENT")
  }

  /**
   The guard's rule, spelled out: no role is required, or the user is there and holds a required role and,
   on a staff request, is an administrator in good standing whose token has the version of the state.
   */
  ghost predicate MayPass(required: seq<string>, user: Option<Claims>, state: AuthzState) {
    required == [] ||
    (&& user.Some?
     && (exists r :: r in required && Holds(user.value, r))
     && (IsStaffRequest(required, user.value) ==>
           && state.accountType == "ADMIN"
           && state.status != "FROZEN" && state.status != "SUSPENDED" && state.status != "BANNED"
           && user.value.authzVersion.Some? && user.value.authzVersion.value == state.version))
  }

  lemma RolesAreHeld(c: Claims)
    ensures forall r :: r in JwtRoles(c) <==> Holds(c, r)
  {
  }

  /** The guard admits exactly who may pass. */
  lemma AdmitsIff(required: seq<string>, user: Option<Claims>, state: AuthzState)
    ensures Admits(required, user, state) <==> MayPass(required, user, state)
  {
    if user.Some? {
      RolesAreHeld(user.value);
      if HasStaffRole(JwtRoles(user.value)) {
        var r :| r in JwtRoles(user.value) && IsStaffRole(r);
      }
      if HasStaffRole(required) {
        var r :| r in required && IsStaffRole(r);
      }
      assert IsStaffRole("ADMIN") && IsStaffRole("SUPPORT_AGENT");
    }
  }

  /** The service: `users` stands for the table, `cache` for its in-process map. */
  class AuthzVersionService {
    var users: map<string, UserRow>
    var cache: map<string, Entry>

    constructor (users: map<string, UserRow>)
      ensures this.users == users && cache == map[]
    {
      this.users := users;
      cache := map[];
    }

    method Invalidate(userId: string)
      modifies this`cache
      ensures cache == old(cache) - {userId}
    {
      cache := cache - {userId};
    }

    method Bump(userId: string) returns (version: int)
      modifies this
      ensures cache == old(cache) - {userId}
      ensures users.Keys == old(users).Keys
      ensures forall u :: u in users ==>
                users[u] == if u == userId then old(users)[u].(authzVersion := old(users)[u].authzVersion + 1)
                            else old(users)[u]
      ensures version == if userId in users then users[userId].authzVersion else 1
    {
      if userId in users {
        users := users[userId := users[userId].(authzVersion := users[userId].authzVersion + 1)];
      }
      Invalidate(userId);
      version := if userId in users then users[userId].authzVersion else 1;
    }

    method GetAuthzState(userId: string, now: int) returns (state: AuthzState)
      modifies this`cache
      ensures (state, cache) == Lookup(users, old(cache), userId, now)
      // The same, read off the entry or the row.
      ensures userId in old(cache) && old(cache)[userId].expiresAt > now ==>
                state == old(cache)[userId].state && cache == old(cache)
      ensures !(userId in old(cache) && old(cache)[userId].expiresAt > now) && userId in users ==>
                && state.version == users[userId].authzVersion
                && state.status == users[userId].status
                && state.accountType == users[userId].accountType
                && state.staffRole == (if users[userId].staffRole == "" then "ADMIN" else users[userId].staffRole)
                && cache == old(cache)[userId := Entry(state, now + 30_000)]
      ensures !(userId in old(cache) && old(cache)[userId].expiresAt > now) && userId !in users ==>
                state == AuthzState(-1, "UNKNOWN", "CONSUMER", "ADMIN") && cache == old(cache)
    {
      if userId in cache {
        var cached := cache[userId];
        if cached.expiresAt > now {
          return cached.state;
        }
      }
      if userId !in users {
        return UNKNOWN_USER;
      }
      state := Stored(users, userId);
      cache := cache[userId := Entry(state, now + CACHE_TTL_MS)];
    }

    method CanActivate(required: seq<string>, user: Option<Claims>, now: int) returns (ok: bool)
      modifies this`cache
      ensures ok == Admits(required, user,
                           if user.Some? then Lookup(users, old(cache), user.value.userId, now).0 else UNKNOWN_USER)
      ensures ok <==> MayPass(required, user,
                              if user.Some? then Lookup(users, old(cache), user.value.userId, now).0 else UNKNOWN_USER)
      ensures cache == if required != [] && user.Some? && SharesRole(required, JwtRoles(user.value))
                          && StaffContext(required, user.value)
                       then Lookup(users, old(cache), user.value.userId, now).1 else old(cache)
    {
      AdmitsIff(required, user,
                if user.Some? then Lookup(users, cache, user.value.userId, now).0 else UNKNOWN_USER);
      if required == [] {
        return true;
      }
      if user == None {
        return false;
      }
      var roles := JwtRoles(user.value);
      if !SharesRole(required, roles) {
        return false;
      }
      if HasStaffRole(required) || HasStaffRole(roles) {
        var state := GetAuthzState(user.value.userId, now);
        if state.accountType != "ADMIN" {
          return false;
        }
        if state.status == "FROZEN" || state.status == "SUSPENDED" || state.status == "BANNED" {
          return false;
        }
        if user.value.authzVersion == None || user.value.authzVersion.value != state.version {
          return false;
        }
      }
      return true;
    }
  }

  // ---------------------------------------------------------------------------------------------
  // Runs, interleaved at the awaits
  // ---------------------------------------------------------------------------------------------

  /** The row `findOne` answers, as the service reports it. */
  function StoredRow(users: map<string, UserRow>, userId: string): Option<AuthzState> {
    if userId in users then Some(Stored(users, userId)) else None
  }

  /**
   Where a `getAuthzState` call is: it missed the cache, or it holds the row it read and when it read it,
   or it has answered.
   */
  datatype Phase = Asked | Fetched(row: Option<AuthzState>, at: int) | Answered

  datatype Call = Call(userId: string, phase: Phase)

  /** Users are created once; `gone` keeps the ids that were deleted. */
  datatype System = System(
    users: map<string, UserRow>, gone: set<string>, cache: map<string, Entry>, calls: map<nat, Call>, clock: int)

  /** A bump is `Increment`, on the table, and after its await `Invalidate`, on the cache. */
  datatype Step =
    | Ask(id: nat, userId: string)
    | Fetch(id: nat)
    | Fill(id: nat)
    | Increment(userId: string)
    | Invalidate(userId: string)
    | Write(userId: string, row: UserRow)
    | Delete(userId: string)
    | Tick(ms: nat)

  predicate Live(s: System, u: string) {
    u in s.cache && s.cache[u].expiresAt > s.clock
  }

  /** Any other writer of the users table keeps the version from going back. */
  predicate Enabled(s: System, step: Step) {
    match step
    case Ask(id, _) => id !in s.calls
    case Fetch(id) => id in s.calls && s.calls[id].phase.Asked?
    case Fill(id) => id in s.calls && s.calls[id].phase.Fetched?
    case Write(u, row) => u !in s.gone && (u in s.users ==> s.users[u].authzVersion <= row.authzVersion)
    case _ => true
  }

  function Apply(s: System, step: Step): System
    requires Enabled(s, step)
  {
    match step
    case Ask(id, u) => s.(calls := s.calls[id := Call(u, if Live(s, u) then Answered else Asked)])
    case Fetch(id) =>
      var c := s.calls[id];
      s.(calls := s.calls[id := c.(phase := Fetched(StoredRow(s.users, c.userId), s.clock))])
    case Fill(id) =>
      var c := s.calls[id];
      // An unknown user is not cached.
      s.(calls := s.calls[id := c.(phase := Answered)],
         cache := match c.phase.row
                  case None => s.cache
                  case Some(state) => s.cache[c.userId := Entry(state, s.clock + CACHE_TTL_MS)])
    case Increment(u) =>
      if u in s.users then s.(users := s.users[u := s.users[u].(authzVersion := s.users[u].authzVersion + 1)]) else s
    case Invalidate(u) => s.(cache := s.cache - {u})
    case Write(u, row) => s.(users := s.users[u := row])
    case Delete(u) => s.(users := s.users - {u}, gone := s.gone + {u})
    case Tick(ms) => s.(clock := s.clock + ms)
  }

  /** The answer a step gives, if it gives one: a live entry at once, or the row read when the call resumes. */
  function AnswerOf(s: System, step: Step): Option<(string, Option<AuthzState>)>
    requires Enabled(s, step)
  {
    match step
    case Ask(_, u) => if Live(s, u) then Some((u, Some(s.cache[u].state))) else None
    case Fill(id) => Some((s.calls[id].userId, s.calls[id].phase.row))
    case _ => None
  }

  /** A call that nothing interrupts does what `getAuthzState` does in one step. */
  lemma UninterruptedLookup(s: System, id: nat, u: string)
    requires id !in s.calls
    ensures var (state, cache) := Lookup(s.users, s.cache, u, s.clock);
            var asked := Apply(s, Ask(id, u));
            if Live(s, u) then
              asked.cache == cache && AnswerOf(s, Ask(id, u)) == Some((u, Some(state)))
            else
              && Enabled(asked, Fetch(id)) && Enabled(Apply(asked, Fetch(id)), Fill(id))
              && var fetched := Apply(asked, Fetch(id));
                 && Apply(fetched, Fill(id)).cache == cache
                 && AnswerOf(fetched, Fill(id)) == Some((u, StoredRow(s.users, u)))
                 && StoredRow(s.users, u).GetOr(UNKNOWN_USER) == state
  {
  }

  function Begin(users: map<string, UserRow>): System {
    System(users, {}, map[], map[], 0)
  }

  /** A run, one system per moment. */
  ghost predicate IsRun(run: seq<System>, steps: seq<Step>) {
    && |run| == |steps| + 1
    && run[0] == Begin(run[0].users)
    && forall n :: 0 <= n < |steps| ==> NextAt(run, steps, n)
  }

  ghost predicate NextAt(run: seq<System>, steps: seq<Step>, n: nat)
    requires n < |steps| < |run|
  {
    Enabled(run[n], steps[n]) && run[n + 1] == Apply(run[n], steps[n])
  }

  ghost predicate Answers(run: seq<System>, steps: seq<Step>, n: nat, u: string, row: Option<AuthzState>)
    requires n < |steps| < |run|
  {
    Enabled(run[n], steps[n]) && AnswerOf(run[n], steps[n]) == Some((u, row))
  }

  // ---------------------------------------------------------------------------------------------
  // Where answers come from
  // ---------------------------------------------------------------------------------------------

  lemma {:induction false} ClockAdvances(run: seq<System>, steps: seq<Step>, m: nat, n: nat)
    requires IsRun(run, steps) && m <= n <= |steps|
    ensures run[m].clock <= run[n].clock
    decreases n
  {
    if m < n {
      assert NextAt(run, steps, n - 1);
      ClockAdvances(run, steps, m, n - 1);
    }
  }

  /** What a call holds was stored at the moment it was read. */
  lemma {:induction false} FetchedWasStored(run: seq<System>, steps: seq<Step>, n: nat, id: nat) returns (f: nat)
    requires IsRun(run, steps) && n <= |steps| && id in run[n].calls && run[n].calls[id].phase.Fetched?
    ensures f < n
    ensures var c := run[n].calls[id];
            run[f].clock == c.phase.at && StoredRow(run[f].users, c.userId) == c.phase.row
    decreases n
  {
    assert NextAt(run, steps, n - 1);
    if id in run[n - 1].calls && run[n - 1].calls[id] == run[n].calls[id] {
      f := FetchedWasStored(run, steps, n - 1, id);
    } else {
      f := n - 1;
    }
  }

  /** Does step `k` resume a call about `u` with this row? */
  ghost predicate FillsAt(run: seq<System>, steps: seq<Step>, k: nat, u: string, row: Option<AuthzState>)
    requires k < |steps| < |run|
  {
    && steps[k].Fill?
    && steps[k].id in run[k].calls
    && run[k].calls[steps[k].id].userId == u
    && run[k].calls[steps[k].id].phase.Fetched?
    && run[k].calls[steps[k].id].phase.row == row
  }

  /** A cached entry was filled in at a step `k`, thirty seconds before it expires. */
  lemma {:induction false} CachedWasFilled(run: seq<System>, steps: seq<Step>, n: nat, u: string) returns (k: nat)
    requires IsRun(run, steps) && n <= |steps| && u in run[n].cache
    ensures k < n && FillsAt(run, steps, k, u, Some(run[n].cache[u].state))
    ensures run[k].clock + CACHE_TTL_MS == run[n].cache[u].expiresAt
    ensures forall j :: k < j <= n ==> u in run[j].cache && run[j].cache[u] == run[n].cache[u]
    decreases n
  {
    assert NextAt(run, steps, n - 1);
    if !steps[n - 1].Fill? && u in run[n - 1].cache {
      k := CachedWasFilled(run, steps, n - 1, u);
    } else if steps[n - 1].Fill? && !FillsAt(run, steps, n - 1, u, Some(run[n].cache[u].state)) {
      k := CachedWasFilled(run, steps, n - 1, u);
    } else {
      k := n - 1;
    }
  }

  /**
   Every answer was the stored row at a moment `f`, was brought by a call that resumed at step `k`, and
   is given at that step or less than thirty seconds after it.
   */
  lemma AnswersAreFresh(run: seq<System>, steps: seq<Step>, n: nat, u: string, row: Option<AuthzState>)
    returns (f: nat, k: nat)
    requires IsRun(run, steps) && n < |steps| && Answers(run, steps, n, u, row)
    ensures f < k <= n && StoredRow(run[f].users, u) == row
    ensures FillsAt(run, steps, k, u, row) && run[k].calls[steps[k].id].phase.at == run[f].clock
    ensures k == n || run[n].clock < run[k].clock + CACHE_TTL_MS
  {
    if steps[n].Fill? {
      k := n;
    } else {
      k := CachedWasFilled(run, steps, n, u);
    }
    f := FetchedWasStored(run, steps, k, steps[k].id);
  }

  /** No read takes longer than `d` from the row to the fill. */
  ghost predicate ReadsWithin(run: seq<System>, steps: seq<Step>, d: nat)
    requires |steps| < |run|
  {
    forall k :: 0 <= k < |steps| ==> ReadWithin(run, steps, k, d)
  }

  ghost predicate ReadWithin(run: seq<System>, steps: seq<Step>, k: nat, d: nat)
    requires k < |steps| < |run|
  {
    steps[k].Fill? && steps[k].id in run[k].calls && run[k].calls[steps[k].id].phase.Fetched? ==>
      run[k].clock <= run[k].calls[steps[k].id].phase.at + d
  }

  /** A stored account that may not act as staff: no longer an administrator, or frozen, suspended or banned. */
  predicate OutOfOffice(state: AuthzState) {
    state.accountType != "ADMIN" || state.status == "FROZEN" || state.status == "SUSPENDED" || state.status == "BANNED"
  }

  /**
   An account out of office for thirty seconds and the time of a read passes no staff check, without a
   bump and with any token.
   */
  lemma SuspensionTakesEffect(
      run: seq<System>, steps: seq<Step>, m: nat, n: nat, d: nat, required: seq<string>, c: Claims,
      row: Option<AuthzState>)
    requires IsRun(run, steps) && ReadsWithin(run, steps, d) && m <= n < |steps|
    requires forall j :: m <= j <= n ==> OutOfOffice(Stored(run[j].users, c.userId))
    requires run[m].clock + CACHE_TTL_MS + d <= run[n].clock
    requires required != [] && StaffContext(required, c) && Answers(run, steps, n, c.userId, row)
    ensures !Admits(required, Some(c), row.GetOr(UNKNOWN_USER))
  {
    var f, k := AnswersAreFresh(run, steps, n, c.userId, row);
    assert ReadWithin(run, steps, k, d);
    if f < m {
      ClockAdvances(run, steps, f, m);
    }
    assert OutOfOffice(Stored(run[f].users, c.userId));
  }

  // ---------------------------------------------------------------------------------------------
  // What a bump revokes
  // ---------------------------------------------------------------------------------------------

  /** The table holds no version of `u` below `floor`. */
  ghost predicate AtLeast(s: System, u: string, floor: int) {
    (u in s.users || u in s.gone) && (u in s.users ==> s.users[u].authzVersion >= floor)
  }

  lemma {:induction false} FloorHolds(run: seq<System>, steps: seq<Step>, m: nat, n: nat, u: string, floor: int)
    requires IsRun(run, steps) && m <= n <= |steps| && AtLeast(run[m], u, floor)
    ensures AtLeast(run[n], u, floor)
    decreases n
  {
    if m < n {
      assert NextAt(run, steps, n - 1);
      FloorHolds(run, steps, m, n - 1, u, floor);
    }
  }

  /** A bump of an existing user: the increment at step `i`, the invalidation at step `m`. */
  ghost predicate BumpedAt(run: seq<System>, steps: seq<Step>, i: nat, m: nat, u: string)
    requires |steps| < |run|
  {
    i < m < |steps| && steps[i] == Increment(u) && u in run[i].users && steps[m] == Invalidate(u)
  }

  /** The version the bump at step `i` leads to; anything lower is old. */
  function NewVersion(run: seq<System>, i: nat, u: string): int
    requires i < |run| && u in run[i].users
  {
    run[i].users[u].authzVersion + 1
  }

  predicate IsOld(row: Option<AuthzState>, version: int) {
    row.Some? && row.value.version < version
  }

  /** Does step `k` resume a call about `u` with an old row? */
  ghost predicate FillsOld(run: seq<System>, steps: seq<Step>, k: nat, u: string, version: int)
    requires k < |steps| < |run|
  {
    exists row :: FillsAt(run, steps, k, u, row) && IsOld(row, version)
  }

  /** Does step `n` answer an old version of `u`? */
  ghost predicate AnswersOld(run: seq<System>, steps: seq<Step>, n: nat, u: string, version: int)
    requires n < |steps| < |run|
  {
    exists row :: Answers(run, steps, n, u, row) && IsOld(row, version)
  }

  /** A call that resumes with an old row after the increment had read it before. */
  lemma {:induction false} OldReadWasInFlight(
      run: seq<System>, steps: seq<Step>, i: nat, k: nat, id: nat, u: string, version: int)
    requires IsRun(run, steps) && i <= k <= |steps| && AtLeast(run[i], u, version)
    requires id in run[k].calls && run[k].calls[id].userId == u
    requires run[k].calls[id].phase.Fetched? && IsOld(run[k].calls[id].phase.row, version)
    ensures id in run[i].calls && run[i].calls[id] == run[k].calls[id]
    decreases k
  {
    if i < k {
      assert NextAt(run, steps, k - 1);
      FloorHolds(run, steps, i, k - 1, u, version);
      OldReadWasInFlight(run, steps, i, k - 1, id, u, version);
    }
  }

  /**
   An old version answered after a bump comes from a call that read it before the increment and resumed
   after the invalidation: it is that call's own answer, or less than thirty seconds younger.
   */
  lemma OldAnswerNeedsOldRead(run: seq<System>, steps: seq<Step>, i: nat, m: nat, n: nat, u: string) returns (k: nat)
    requires IsRun(run, steps) && BumpedAt(run, steps, i, m, u) && m < n < |steps|
    requires AnswersOld(run, steps, n, u, NewVersion(run, i, u))
    ensures m < k <= n && FillsOld(run, steps, k, u, NewVersion(run, i, u))
    ensures k == n || run[n].clock < run[k].clock + CACHE_TTL_MS
    ensures steps[k].id in run[i].calls && run[i].calls[steps[k].id] == run[k].calls[steps[k].id]
  {
    var version := NewVersion(run, i, u);
    var row :| Answers(run, steps, n, u, row) && IsOld(row, version);
    if steps[n].Fill? {
      k := n;
    } else {
      k := CachedWasFilled(run, steps, n, u);
      assert NextAt(run, steps, m);
    }
    assert FillsAt(run, steps, k, u, row);
    assert NextAt(run, steps, i);
    OldReadWasInFlight(run, steps, i + 1, k, steps[k].id, u, version);
  }

  /** In a given run, an old version is answered after the bump at all only if such a call resumes, and then it is. */
  lemma OldAnswerInRunIff(run: seq<System>, steps: seq<Step>, i: nat, m: nat, u: string)
    requires IsRun(run, steps) && BumpedAt(run, steps, i, m, u)
    ensures var version := NewVersion(run, i, u);
            (exists n :: m < n < |steps| && AnswersOld(run, steps, n, u, version))
            <==> (exists k :: m < k < |steps| && FillsOld(run, steps, k, u, version))
  {
    var version := NewVersion(run, i, u);
    if n :| m < n < |steps| && AnswersOld(run, steps, n, u, version) {
      var k := OldAnswerNeedsOldRead(run, steps, i, m, n, u);
    }
    if k :| m < k < |steps| && FillsOld(run, steps, k, u, version) {
      assert NextAt(run, steps, k);
      var row :| FillsAt(run, steps, k, u, row) && IsOld(row, version);
      assert Answers(run, steps, k, u, row);
      assert AnswersOld(run, steps, k, u, version);
    }
  }

  /** Does a call about `u` hold a row it has read? */
  ghost predicate HoldsRow(s: System, u: string) {
    exists id :: id in s.calls && s.calls[id].userId == u && s.calls[id].phase.Fetched? && s.calls[id].phase.row.Some?
  }

  /** A bump that increments at step `i`, and after which an old version is answered. */
  ghost predicate MissesBump(run: seq<System>, steps: seq<Step>, i: nat, u: string) {
    && IsRun(run, steps)
    && exists m: nat, n: nat ::
         BumpedAt(run, steps, i, m, u) && m < n < |steps| && AnswersOld(run, steps, n, u, NewVersion(run, i, u))
  }

  /** The continuation that misses the bump: the call resumes right after it. */
  lemma HeldRowMissesBump(run: seq<System>, steps: seq<Step>, u: string, id: nat)
    returns (run': seq<System>, steps': seq<Step>)
    requires IsRun(run, steps) && u in run[|steps|].users
    requires id in run[|steps|].calls && run[|steps|].calls[id].userId == u
    requires run[|steps|].calls[id].phase.Fetched? && run[|steps|].calls[id].phase.row.Some?
    ensures run <= run' && steps <= steps' && MissesBump(run', steps', |steps|, u)
  {
    var i := |steps|;
    var row := run[i].calls[id].phase.row;
    var f := FetchedWasStored(run, steps, i, id);
    FloorHolds(run, steps, f, i, u, row.value.version);
    var s1 := Apply(run[i], Increment(u));
    var s2 := Apply(s1, Invalidate(u));
    steps' := steps + [Increment(u), Invalidate(u), Fill(id)];
    run' := run + [s1, s2, Apply(s2, Fill(id))];
    forall n | 0 <= n < |steps'| ensures NextAt(run', steps', n) {
      if n < i {
        assert NextAt(run, steps, n);
      }
    }
    assert BumpedAt(run', steps', i, i + 1, u);
    assert Answers(run', steps', i + 2, u, row);
    assert AnswersOld(run', steps', i + 2, u, NewVersion(run', i, u));
  }

  /**
   The exact condition, at the increment: a bump of `u` that starts now can still be followed by an answer
   with an older version, if and only if a call about `u` holds a row it has read.
   */
  lemma OldAnswerIff(run: seq<System>, steps: seq<Step>, u: string)
    requires IsRun(run, steps) && u in run[|steps|].users
    ensures (exists run', steps' :: run <= run' && steps <= steps' && MissesBump(run', steps', |steps|, u))
            <==> HoldsRow(run[|steps|], u)
  {
    var i := |steps|;
    if run': seq<System>, steps': seq<Step> :| run <= run' && steps <= steps' && MissesBump(run', steps', i, u) {
      var m: nat, n: nat :| BumpedAt(run', steps', i, m, u) && m < n < |steps'|
                  && AnswersOld(run', steps', n, u, NewVersion(run', i, u));
      var k := OldAnswerNeedsOldRead(run', steps', i, m, n, u);
      assert run'[i] == run[i];
      assert steps'[k].id in run[i].calls;
    }
    if HoldsRow(run[i], u) {
      var id :| id in run[i].calls && run[i].calls[id].userId == u
                && run[i].calls[id].phase.Fetched? && run[i].calls[id].phase.row.Some?;
      var run', steps' := HeldRowMissesBump(run, steps, u, id);
    }
  }

  /** With no such read under way at the increment, the process never again answers an older version. */
  lemma BumpedVersionsStayBumped(
      run: seq<System>, steps: seq<Step>, i: nat, m: nat, n: nat, u: string, row: Option<AuthzState>)
    requires IsRun(run, steps) && BumpedAt(run, steps, i, m, u) && m < n < |steps|
    requires forall id :: id in run[i].calls && run[i].calls[id].userId == u ==> !run[i].calls[id].phase.Fetched?
    requires Answers(run, steps, n, u, row)
    ensures row.Some? ==> row.value.version >= NewVersion(run, i, u)
  {
    if IsOld(row, NewVersion(run, i, u)) {
      assert AnswersOld(run, steps, n, u, NewVersion(run, i, u));
      var k := OldAnswerNeedsOldRead(run, steps, i, m, n, u);
    }
  }

  /**
   So a staff token issued before the bump passes the guard after it only on such a read, or less than
   thirty seconds after one has resumed.
   */
  lemma BumpRevokesStaffTokens(
      run: seq<System>, steps: seq<Step>, i: nat, m: nat, n: nat, required: seq<string>, c: Claims,
      row: Option<AuthzState>)
    returns (k: nat)
    requires IsRun(run, steps) && BumpedAt(run, steps, i, m, c.userId) && m < n < |steps|
    requires required != [] && StaffContext(required, c)
    requires c.authzVersion.Some? ==> c.authzVersion.value < NewVersion(run, i, c.userId)
    requires Answers(run, steps, n, c.userId, row) && Admits(required, Some(c), row.GetOr(UNKNOWN_USER))
    ensures m < k <= n && FillsOld(run, steps, k, c.userId, NewVersion(run, i, c.userId))
    ensures k == n || run[n].clock < run[k].clock + CACHE_TTL_MS
    ensures steps[k].id in run[i].calls && run[i].calls[steps[k].id] == run[k].calls[steps[k].id]
  {
    assert AnswersOld(run, steps, n, c.userId, NewVersion(run, i, c.userId));
    k := OldAnswerNeedsOldRead(run, steps, i, m, n, c.userId);
  }

  /** The failing run: a call reads, the bump goes through, the call resumes, and the next call finds its row. */
  function StaleSteps(u: string): seq<Step> {
    [Ask(0, u), Fetch(0), Increment(u), Invalidate(u), Fill(0), Ask(1, u)]
  }

  lemma StaleReadAdmitsOldToken(users: map<string, UserRow>, required: seq<string>, c: Claims)
    returns (run: seq<System>)
    requires c.userId in users && c.authzVersion == Some(users[c.userId].authzVersion)
    requires users[c.userId].accountType == "ADMIN" && users[c.userId].status == "ACTIVE"
    requires SharesRole(required, JwtRoles(c))
    ensures var steps := StaleSteps(c.userId);
            && IsRun(run, steps) && run[0].users == users && BumpedAt(run, steps, 2, 3, c.userId)
            && Answers(run, steps, 5, c.userId, StoredRow(users, c.userId))
            && Admits(required, Some(c), StoredRow(users, c.userId).GetOr(UNKNOWN_USER))
  {
    var steps := StaleSteps(c.userId);
    var s0 := Begin(users);
    var s1 := Apply(s0, steps[0]);
    var s2 := Apply(s1, steps[1]);
    var s3 := Apply(s2, steps[2]);
    var s4 := Apply(s3, steps[3]);
    var s5 := Apply(s4, steps[4]);
    run := [s0, s1, s2, s3, s4, s5, Apply(s5, steps[5])];
    forall n | 0 <= n < |steps| ensures NextAt(run, steps, n) {
      assert n == 0 || n == 1 || n == 2 || n == 3 || n == 4 || n == 5;
    }
  }

  /** A token minted from the stored row passes at once, for an admin in good standing with nothing cached. */
  lemma FreshStaffTokenPasses(
      users: map<string, UserRow>, cache: map<string, Entry>, required: seq<string>, c: Claims, now: int)
    requires c.userId in users && c.userId !in cache
    requires c.authzVersion == Some(users[c.userId].authzVersion)
    requires users[c.userId].accountType == "ADMIN" && users[c.userId].status == "ACTIVE"
    requires SharesRole(required, JwtRoles(c))
    ensures Admits(required, Some(c), Lookup(users, cache, c.userId, now).0)
  {
  }
}
