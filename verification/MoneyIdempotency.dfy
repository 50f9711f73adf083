/**
 The money-movement idempotency service: one database transaction per call that takes an advisory
 lock, replays a stored row or reserves a new one, runs the business work, and commits or rolls back.

 The file has three layers.
 - `Judge`, `RunAlone`: what one call does when nothing else is running.
 - `System`, `Apply`: any number of calls interleaved at their database round trips.
 - The theorems: every interleaving is a serial run of `RunAlone` in commit order, and what serial
   runs guarantee about money movement.
 */
module MoneyIdempotency {
  import opened Wrappers

  // ---------------------------------------------------------------------------------------------
  // Data
  // ---------------------------------------------------------------------------------------------

  datatype Key = Key(scope: string, actorUserId: string, idempotencyKey: string)

  datatype Status = InFlight | Completed | Failed | Uncertain

  /** `error_json` as stored: both members may be missing in a row this code did not write. */
  datatype ErrorJson = ErrorJson(statusCode: Option<int>, error: Option<string>)

  /** JSON documents are carried as text; nothing here looks inside them. */
  datatype Row = Row(
    requestHash: string,
    status: Status,
    httpStatus: Option<int>,
    responseJson: Option<string>,
    errorJson: Option<ErrorJson>,
    updatedAt: int)

  /** How the business callback ended. `NotInvoked`: the transaction died before running it. */
  datatype Work =
    | Succeeds(result: Option<string>)
    | ThrowsHttp(status: int, body: string)
    | ThrowsOther(message: string)
    | NotInvoked

  datatype Failure =
    | KeyReuseDifferentRequest
    | CorruptRow
    | StoredError(status: int, body: string)
    | OutcomeUncertain
    | InProgress
    | WorkThrew(work: Work)

  datatype Reply = Returned(result: Option<string>) | Threw(failure: Failure)

  /** One call as the database saw it: its parameters, its two clock readings and its work. */
  datatype Request = Request(
    key: Key,
    requestHash: string,
    staleMs: int,
    readAt: int,
    work: Work,
    workAt: int)

  // ---------------------------------------------------------------------------------------------
  // One call on its own
  // ---------------------------------------------------------------------------------------------

  datatype Verdict = Answer(reply: Reply) | Proceed(reclaims: bool)

  predicate IsStaleInFlight(row: Row, now: int, staleMs: int) {
    row.updatedAt < now - staleMs
  }

  function ToHttpException(row: Row): Failure {
    var err := row.errorJson.GetOr(ErrorJson(None, None));
    StoredError(
      err.statusCode.GetOr(row.httpStatus.GetOr(409)),
      err.error.GetOr("{\"message\":\"Request failed\"}"))
  }

  /** The branch ladder on the row found under the key. */
  function Judge(existing: Option<Row>, requestHash: string, now: int, staleMs: int): Verdict {
    match existing
    case None => Proceed(false)
    case Some(row) =>
      if row.requestHash != requestHash then Answer(Threw(KeyReuseDifferentRequest))
      else match row.status
           case Completed =>
             if row.responseJson == None then Answer(Threw(CorruptRow)) else Answer(Returned(row.responseJson))
           case Failed =>
             if row.errorJson == None then Answer(Threw(CorruptRow)) else Answer(Threw(ToHttpException(row)))
           case Uncertain => Answer(Threw(OutcomeUncertain))
           case InFlight =>
             if IsStaleInFlight(row, now, staleMs) then Proceed(true) else Answer(Threw(InProgress))
  }

  function ReservedRow(requestHash: string, now: int): Row {
    Row(requestHash, InFlight, None, None, None, now)
  }

  function CompletedRow(requestHash: string, result: Option<string>, now: int): Row {
    Row(requestHash, Completed, Some(200), result, None, now)
  }

  /** The row a request whose work succeeds leaves. */
  function CommittedRow(req: Request): Row
    requires req.work.Succeeds?
  {
    CompletedRow(req.requestHash, req.work.result, req.workAt)
  }

  /** The row inside the transaction once the callback has ended, before commit or rollback. */
  function RowAfterWork(row: Row, work: Work, allowDelete: bool, now: int): Option<Row> {
    match work
    case Succeeds(result) => Some(CompletedRow(row.requestHash, result, now))
    case ThrowsHttp(status, body) =>
      if 400 <= status < 500 then
        Some(row.(status := Failed, httpStatus := Some(status), updatedAt := now,
                  errorJson := Some(ErrorJson(Some(status), Some(body)))))
      else if allowDelete then None
      else
        Some(row.(status := Uncertain, httpStatus := Some(status), updatedAt := now,
                  errorJson := Some(ErrorJson(Some(status), Some(body)))))
    case ThrowsOther(message) =>
      if allowDelete then None
      else
        Some(row.(status := Uncertain, httpStatus := Some(500), updatedAt := now,
                  errorJson := Some(ErrorJson(Some(500), Some(message)))))
    case NotInvoked => Some(row)
  }

  function ReplyOf(work: Work): Reply {
    if work.Succeeds? then Returned(work.result) else Threw(WorkThrew(work))
  }

  /** Does this request get past the ladder and finish its work normally? */
  predicate CommitsWork(existing: Option<Row>, req: Request) {
    Judge(existing, req.requestHash, req.readAt, req.staleMs).Proceed? && req.work.Succeeds?
  }

  /** The committed row under the key and the reply, for a call running with no other call around. */
  function RunAlone(existing: Option<Row>, req: Request): (Option<Row>, Reply) {
    match Judge(existing, req.requestHash, req.readAt, req.staleMs)
    case Answer(reply) => (existing, reply)
    case Proceed(_) =>
      if req.work.Succeeds? then
        (Some(CompletedRow(req.requestHash, req.work.result, req.workAt)), Returned(req.work.result))
      else (existing, ReplyOf(req.work))
  }

  /**
   The table has no row for the key, or a reservation for the same payload that had been left
   untouched for longer than the stale limit.
   */
  predicate FreeOrStale(table: map<Key, Row>, req: Request) {
    req.key in table ==>
      && table[req.key].status.InFlight?
      && table[req.key].requestHash == req.requestHash
      && table[req.key].updatedAt + req.staleMs < req.readAt
  }

  /**
   The reply to a call on a key whose row is neither free nor stale for its payload, read off the row.
   */
  function BlockedReply(row: Row, requestHash: string): Reply {
    if row.requestHash != requestHash then Threw(KeyReuseDifferentRequest)
    else if row.status.InFlight? then Threw(InProgress)
    else if row.status.Uncertain? then Threw(OutcomeUncertain)
    else if row.status.Completed? then
      if row.responseJson.Some? then Returned(row.responseJson) else Threw(CorruptRow)
    else match row.errorJson
         case None => Threw(CorruptRow)
         case Some(ErrorJson(statusCode, error)) =>
           var status :=
             if statusCode.Some? then statusCode.value
             else if row.httpStatus.Some? then row.httpStatus.value
             else 409;
           var body := if error.Some? then error.value else "{\"message\":\"Request failed\"}";
           Threw(StoredError(status, body))
  }

  /** The table, updated in place by `runInTransaction` with nothing else running. */
  class IdempotencyTable {
    var rows: map<Key, Row>

    constructor (initial: map<Key, Row>)
      ensures rows == initial
    {
      rows := initial;
    }

    method RunInTransaction(req: Request, allowDelete: bool) returns (reply: Reply)
      modifies this
      ensures rows == Store(old(rows), req.key, RunAlone(Find(old(rows), req.key), req).0)
      ensures reply == RunAlone(Find(old(rows), req.key), req).1
      // The same, read off the table and the request.
      ensures !FreeOrStale(old(rows), req) ==> reply == BlockedReply(old(rows)[req.key], req.requestHash)
      ensures FreeOrStale(old(rows), req) && !req.work.Succeeds? ==> reply == Threw(WorkThrew(req.work))
      ensures FreeOrStale(old(rows), req) && req.work.Succeeds? ==>
                && reply == Returned(req.work.result)
                && rows == old(rows)[req.key :=
                     Row(req.requestHash, Completed, Some(200), req.work.result, None, req.workAt)]
      ensures !(FreeOrStale(old(rows), req) && req.work.Succeeds?) ==> rows == old(rows)
    {
      StoreUnchanged(rows, req.key);
      var beforeTransaction := rows;
      var verdict := Judge(Find(rows, req.key), req.requestHash, req.readAt, req.staleMs);
      if verdict.Answer? {
        return verdict.reply;
      }
      if verdict.reclaims {
        rows := rows - {req.key};
      }
      var row := ReservedRow(req.requestHash, req.readAt);
      rows := rows[req.key := row];
      rows := Store(rows, req.key, RowAfterWork(row, req.work, allowDelete, req.workAt));
      reply := ReplyOf(req.work);
      if reply.Threw? {
        // The callback of the transaction rejected, so nothing it wrote is kept.
        rows := beforeTransaction;
      }
    }
  }

  // ---------------------------------------------------------------------------------------------
  // Many calls, interleaved at their database round trips
  // ---------------------------------------------------------------------------------------------

  /** Where a call is. `view` is the row under its key as seen inside its own transaction. */
  datatype Phase =
    | Queued
    | Locked
    | Working(readAt: int, view: Option<Row>)
    | Resolved(req: Request, view: Option<Row>, reply: Reply)
    | Done

  datatype Call = Call(key: Key, requestHash: string, staleMs: int, phase: Phase)

  /** A finished call, in the order the transactions ended. */
  datatype Entry = Entry(req: Request, reply: Reply)

  datatype System = System(
    table: map<Key, Row>,
    locks: map<int, nat>,
    calls: map<nat, Call>,
    clock: int,
    log: seq<Entry>)

  datatype Step =
    | Begin(t: nat, key: Key, requestHash: string, staleMs: int)
    | Acquire(t: nat)
    | Read(t: nat)
    | DoWork(t: nat, work: Work, allowDelete: bool)
    | End(t: nat)
    | Die(t: nat)
    | Tick(ms: nat)

  function Start(table: map<Key, Row>): System {
    System(table, map[], map[], 0, [])
  }

  predicate Holds(phase: Phase) {
    phase.Locked? || phase.Working? || phase.Resolved?
  }

  /** `lockOf` is the pair of 32-bit words cut from a digest of the key; collisions are allowed. */
  predicate Enabled(s: System, step: Step, lockOf: Key -> int) {
    match step
    case Begin(t, _, _, _) => t !in s.calls
    case Acquire(t) => t in s.calls && s.calls[t].phase.Queued? && lockOf(s.calls[t].key) !in s.locks
    case Read(t) => t in s.calls && s.calls[t].phase.Locked?
    case DoWork(t, work, _) => t in s.calls && s.calls[t].phase.Working? && !work.NotInvoked?
    case End(t) => t in s.calls && s.calls[t].phase.Resolved?
    case Die(t) => t in s.calls && Holds(s.calls[t].phase)
    case Tick(_) => true
  }

  function Apply(s: System, step: Step, lockOf: Key -> int): System
    requires Enabled(s, step, lockOf)
  {
    match step
    case Begin(t, key, hash, staleMs) => s.(calls := s.calls[t := Call(key, hash, staleMs, Queued)])
    case Acquire(t) =>
      var c := s.calls[t];
      s.(locks := s.locks[lockOf(c.key) := t], calls := s.calls[t := c.(phase := Locked)])
    case Read(t) =>
      var c := s.calls[t];
      var existing := Find(s.table, c.key);
      var phase := match Judge(existing, c.requestHash, s.clock, c.staleMs)
        case Answer(reply) =>
          Resolved(Request(c.key, c.requestHash, c.staleMs, s.clock, NotInvoked, s.clock), existing, reply)
        case Proceed(_) => Working(s.clock, Some(ReservedRow(c.requestHash, s.clock)));
      s.(calls := s.calls[t := c.(phase := phase)])
    case DoWork(t, work, allowDelete) =>
      var c := s.calls[t];
      var view := match c.phase.view
        case None => None
        case Some(row) => RowAfterWork(row, work, allowDelete, s.clock);
      var req := Request(c.key, c.requestHash, c.staleMs, c.phase.readAt, work, s.clock);
      s.(calls := s.calls[t := c.(phase := Resolved(req, view, ReplyOf(work)))])
    case End(t) =>
      var c := s.calls[t];
      // A callback that returned is committed; one that rejected is rolled back.
      var table := if c.phase.reply.Returned? then Store(s.table, c.key, c.phase.view) else s.table;
      s.(table := table,
         locks := s.locks - {lockOf(c.key)},
         calls := s.calls[t := c.(phase := Done)],
         log := s.log + [Entry(c.phase.req, c.phase.reply)])
    case Die(t) =>
      // The connection is lost: the transaction is rolled back and its lock is freed.
      var c := s.calls[t];
      s.(locks := s.locks - {lockOf(c.key)}, calls := s.calls[t := c.(phase := Done)])
    case Tick(ms) => s.(clock := s.clock + ms)
  }

  predicate Legal(s: System, steps: seq<Step>, lockOf: Key -> int)
    decreases |steps|
  {
    steps == [] ||
    (Enabled(s, steps[0], lockOf) && Legal(Apply(s, steps[0], lockOf), steps[1..], lockOf))
  }

  function Exec(s: System, steps: seq<Step>, lockOf: Key -> int): System
    requires Legal(s, steps, lockOf)
    decreases |steps|
  {
    if steps == [] then s else Exec(Apply(s, steps[0], lockOf), steps[1..], lockOf)
  }

  // ---------------------------------------------------------------------------------------------
  // Every interleaving is a serial run
  // ---------------------------------------------------------------------------------------------

  /** The table after running the logged requests one at a time. */
  function SerialTable(table: map<Key, Row>, log: seq<Entry>): map<Key, Row> {
    if log == [] then table
    else
      var before := SerialTable(table, log[..|log| - 1]);
      var req := log[|log| - 1].req;
      Store(before, req.key, RunAlone(Find(before, req.key), req).0)
  }

  /** Each logged reply is the one the serial run gives. */
  ghost predicate SerialReplies(table: map<Key, Row>, log: seq<Entry>) {
    forall i :: 0 <= i < |log| ==> log[i].reply == ReplyAt(table, log, i)
  }

  function RowBefore(table: map<Key, Row>, log: seq<Entry>, i: nat): Option<Row>
    requires i < |log|
  {
    Find(SerialTable(table, log[..i]), log[i].req.key)
  }

  function ReplyAt(table: map<Key, Row>, log: seq<Entry>, i: nat): Reply
    requires i < |log|
  {
    RunAlone(RowBefore(table, log, i), log[i].req).1
  }

  /** What a call between its lock and its end knows about the committed row under its key. */
  ghost predicate CallInv(s: System, t: nat, lockOf: Key -> int)
    requires t in s.calls
  {
    var c := s.calls[t];
    var existing := Find(s.table, c.key);
    && (Holds(c.phase) ==> lockOf(c.key) in s.locks && s.locks[lockOf(c.key)] == t)
    && (c.phase.Working? ==>
          && Judge(existing, c.requestHash, c.phase.readAt, c.staleMs).Proceed?
          && c.phase.view == Some(ReservedRow(c.requestHash, c.phase.readAt)))
    && (c.phase.Resolved? ==>
          && c.phase.req.key == c.key
          && RunAlone(existing, c.phase.req)
             == (if c.phase.reply.Returned? then c.phase.view else existing, c.phase.reply))
  }

  ghost predicate Inv(s: System, lockOf: Key -> int) {
    forall t :: t in s.calls ==> CallInv(s, t, lockOf)
  }

  /** Only the end of a call touches the table, and there the call happens all at once. */
  lemma StepIsAtomic(s: System, step: Step, lockOf: Key -> int)
    requires Inv(s, lockOf) && Enabled(s, step, lockOf)
    ensures var s' := Apply(s, step, lockOf);
            if step.End? then
              && |s'.log| == |s.log| + 1
              && s'.log[..|s.log|] == s.log
              && var e := s'.log[|s.log|];
                 var outcome := RunAlone(Find(s.table, e.req.key), e.req);
                 s'.table == Store(s.table, e.req.key, outcome.0) && e.reply == outcome.1
            else s'.table == s.table && s'.log == s.log
  {
  }

  /** Two calls between lock and end hold different locks, hence work on different keys. */
  lemma StepKeepsInv(s: System, step: Step, lockOf: Key -> int)
    requires Inv(s, lockOf) && Enabled(s, step, lockOf)
    ensures Inv(Apply(s, step, lockOf), lockOf)
  {
  }

  lemma SerialExtends(table: map<Key, Row>, log: seq<Entry>, e: Entry)
    requires SerialReplies(table, log)
    requires e.reply == RunAlone(Find(SerialTable(table, log), e.req.key), e.req).1
    ensures SerialReplies(table, log + [e])
    ensures SerialTable(table, log + [e])
            == Store(SerialTable(table, log), e.req.key,
                     RunAlone(Find(SerialTable(table, log), e.req.key), e.req).0)
  {
    var log' := log + [e];
    assert log'[..|log|] == log;
    forall i | 0 <= i < |log'| ensures log'[i].reply == ReplyAt(table, log', i) {
      if i < |log| {
        assert log'[..i] == log[..i];
        assert log[i].reply == ReplyAt(table, log, i);
      }
    }
  }

  lemma {:induction false} ExecIsSerial(
      table: map<Key, Row>, s: System, steps: seq<Step>, lockOf: Key -> int)
    requires Inv(s, lockOf) && Legal(s, steps, lockOf)
    requires s.table == SerialTable(table, s.log) && SerialReplies(table, s.log)
    ensures var s' := Exec(s, steps, lockOf);
            && Inv(s', lockOf)
            && s'.table == SerialTable(table, s'.log)
            && SerialReplies(table, s'.log)
    decreases |steps|
  {
    if steps != [] {
      var mid := Apply(s, steps[0], lockOf);
      StepIsAtomic(s, steps[0], lockOf);
      StepKeepsInv(s, steps[0], lockOf);
      if steps[0].End? {
        var e := mid.log[|s.log|];
        assert mid.log == s.log + [e];
        SerialExtends(table, s.log, e);
      }
      ExecIsSerial(table, mid, steps[1..], lockOf);
    }
  }

  /**
   Serialisability. From any table, whatever the interleaving and whatever the lock function, the
   committed table and every reply are those of running the calls one at a time, in the order their
   transactions ended.
   */
  lemma EveryInterleavingIsSerial(table: map<Key, Row>, steps: seq<Step>, lockOf: Key -> int)
    requires Legal(Start(table), steps, lockOf)
    ensures var s := Exec(Start(table), steps, lockOf);
            s.table == SerialTable(table, s.log) && SerialReplies(table, s.log)
  {
    ExecIsSerial(table, Start(table), steps, lockOf);
  }

  // ---------------------------------------------------------------------------------------------
  // What serial runs guarantee
  // ---------------------------------------------------------------------------------------------

  predicate Terminal(row: Option<Row>) {
    row.Some? && !row.value.status.InFlight?
  }

  lemma SerialStep(table: map<Key, Row>, log: seq<Entry>, i: nat, k: Key)
    requires i < |log|
    ensures Find(SerialTable(table, log[..i + 1]), k)
            == if k == log[i].req.key then RunAlone(RowBefore(table, log, i), log[i].req).0
               else Find(SerialTable(table, log[..i]), k)
  {
    var prefix := log[..i + 1];
    assert prefix[..i] == log[..i];
    assert prefix[|prefix| - 1] == log[i];
    FindAfterStore(SerialTable(table, log[..i]), log[i].req.key,
                   RunAlone(RowBefore(table, log, i), log[i].req).0, k);
  }

  /** COMPLETED, FAILED and UNCERTAIN rows are never altered or removed. */
  lemma {:induction false} TerminalRowsAreFrozen(
      table: map<Key, Row>, log: seq<Entry>, i: nat, j: nat, k: Key)
    requires i <= j <= |log|
    requires Terminal(Find(SerialTable(table, log[..i]), k))
    ensures Find(SerialTable(table, log[..j]), k) == Find(SerialTable(table, log[..i]), k)
    decreases j
  {
    if i < j {
      TerminalRowsAreFrozen(table, log, i, j - 1, k);
      SerialStep(table, log, j - 1, k);
    }
  }

  /** The same over the interleaved system: from any state on, whatever the calls do. */
  lemma {:induction false} TerminalRowsSurvive(s: System, steps: seq<Step>, lockOf: Key -> int, k: Key)
    requires Inv(s, lockOf) && Legal(s, steps, lockOf) && Terminal(Find(s.table, k))
    ensures Find(Exec(s, steps, lockOf).table, k) == Find(s.table, k)
    decreases |steps|
  {
    if steps != [] {
      var mid := Apply(s, steps[0], lockOf);
      StepIsAtomic(s, steps[0], lockOf);
      StepKeepsInv(s, steps[0], lockOf);
      if steps[0].End? {
        var e := mid.log[|s.log|];
        FindAfterStore(s.table, e.req.key, RunAlone(Find(s.table, e.req.key), e.req).0, k);
      }
      TerminalRowsSurvive(mid, steps[1..], lockOf, k);
    }
  }

  /** Did the call at `i` run its work and commit it? */
  ghost predicate CommittedAt(table: map<Key, Row>, log: seq<Entry>, i: nat)
    requires i < |log|
  {
    CommitsWork(RowBefore(table, log, i), log[i].req)
  }

  /**
   What every later call on the key of a committed run gets, exactly: a conflict for another payload,
   a corrupt-row conflict if the work had returned nothing, else the committed result.
   */
  lemma LaterCallsReplay(table: map<Key, Row>, log: seq<Entry>, i: nat, j: nat)
    requires i < j < |log| && log[i].req.key == log[j].req.key
    requires SerialReplies(table, log) && CommittedAt(table, log, i)
    ensures !CommittedAt(table, log, j)
    ensures log[j].reply ==
            if log[j].req.requestHash != log[i].req.requestHash then Threw(KeyReuseDifferentRequest)
            else if log[i].req.work.result == None then Threw(CorruptRow)
            else Returned(log[i].req.work.result)
  {
    var k := log[i].req.key;
    SerialStep(table, log, i, k);
    TerminalRowsAreFrozen(table, log, i + 1, j, k);
    assert log[j].reply == ReplyAt(table, log, j);
  }

  /** The row is COMPLETED with the payload hash and the response of this entry. */
  predicate IsStored(row: Option<Row>, e: Entry) {
    && e.reply.Returned?
    && row.Some? && row.value.status.Completed?
    && row.value.requestHash == e.req.requestHash
    && row.value.responseJson == e.reply.result
  }

  lemma StoredRowsAgree(table: map<Key, Row>, log: seq<Entry>, i: nat, j: nat, k: Key)
    requires i < j < |log|
    requires IsStored(Find(SerialTable(table, log[..i + 1]), k), log[i])
    requires IsStored(Find(SerialTable(table, log[..j + 1]), k), log[j])
    ensures log[i].reply == log[j].reply && log[i].req.requestHash == log[j].req.requestHash
  {
    TerminalRowsAreFrozen(table, log, i + 1, j + 1, k);
  }

  /** A normal return always leaves the key COMPLETED with that payload and that response. */
  lemma ReturnedIsStored(table: map<Key, Row>, log: seq<Entry>, i: nat)
    requires i < |log| && SerialReplies(table, log) && log[i].reply.Returned?
    ensures IsStored(Find(SerialTable(table, log[..i + 1]), log[i].req.key), log[i])
  {
    assert log[i].reply == ReplyAt(table, log, i);
    SerialStep(table, log, i, log[i].req.key);
  }

  /** Any two normal returns for one key agree. */
  lemma ReturnsAgree(table: map<Key, Row>, log: seq<Entry>, i: nat, j: nat)
    requires i < j < |log| && log[i].req.key == log[j].req.key && SerialReplies(table, log)
    requires log[i].reply.Returned? && log[j].reply.Returned?
    ensures log[i].reply == log[j].reply && log[i].req.requestHash == log[j].req.requestHash
  {
    ReturnedIsStored(table, log, i);
    ReturnedIsStored(table, log, j);
    StoredRowsAgree(table, log, i, j, log[i].req.key);
  }

  lemma AtMostOncePerKey(table: map<Key, Row>, log: seq<Entry>, i: nat, j: nat)
    requires i < j < |log| && log[i].req.key == log[j].req.key && SerialReplies(table, log)
    ensures !(CommittedAt(table, log, i) && CommittedAt(table, log, j))
    ensures log[i].reply.Returned? && log[j].reply.Returned? ==>
              log[i].reply == log[j].reply && log[i].req.requestHash == log[j].req.requestHash
  {
    if CommittedAt(table, log, i) {
      LaterCallsReplay(table, log, i, j);
    }
    if log[i].reply.Returned? && log[j].reply.Returned? {
      ReturnsAgree(table, log, i, j);
    }
  }

  /**
   Money moves at most once per key, in every interleaving from every starting table; and any two
   normal returns for one key answer the same payload with the same response.
   */
  lemma MoneyMovesAtMostOnce(
      table: map<Key, Row>, steps: seq<Step>, lockOf: Key -> int, i: nat, j: nat)
    requires Legal(Start(table), steps, lockOf)
    requires var log := Exec(Start(table), steps, lockOf).log;
             i < j < |log| && log[i].req.key == log[j].req.key
    ensures var log := Exec(Start(table), steps, lockOf).log;
            && !(CommittedAt(table, log, i) && CommittedAt(table, log, j))
            && (log[i].reply.Returned? && log[j].reply.Returned? ==>
                  log[i].reply == log[j].reply && log[i].req.requestHash == log[j].req.requestHash)
  {
    EveryInterleavingIsSerial(table, steps, lockOf);
    AtMostOncePerKey(table, Exec(Start(table), steps, lockOf).log, i, j);
  }

  /**
   A call that throws leaves no trace, and a call that returns changes the table only if it committed
   work: the FAILED and UNCERTAIN rows the service writes are rolled back with the rest.
   */
  lemma {:induction false} OnlyCompletedRowsAreWritten(table: map<Key, Row>, log: seq<Entry>, k: Key)
    requires SerialReplies(table, log)
    ensures var row := Find(SerialTable(table, log), k);
            || row == Find(table, k)
            || (exists i :: 0 <= i < |log| && log[i].req.key == k && CommittedAt(table, log, i)
                            && row == Some(CommittedRow(log[i].req)))
    decreases |log|
  {
    if log != [] {
      var n := |log| - 1;
      var init := log[..n];
      assert log[..n + 1] == log;
      forall i | 0 <= i < n ensures RowBefore(table, init, i) == RowBefore(table, log, i) {
        assert init[..i] == log[..i];
      }
      assert forall i :: 0 <= i < n ==> init[i].reply == log[i].reply;
      assert SerialReplies(table, init);
      OnlyCompletedRowsAreWritten(table, init, k);
      SerialStep(table, log, n, k);
      if k == log[n].req.key && !CommittedAt(table, log, n) {
        assert Find(SerialTable(table, log), k) == Find(SerialTable(table, init), k);
      }
      if Find(SerialTable(table, log), k) == Find(SerialTable(table, init), k)
         && Find(SerialTable(table, log), k) != Find(table, k) {
        var i :| 0 <= i < n && init[i].req.key == k && CommittedAt(table, init, i)
                 && Find(SerialTable(table, init), k) == Some(CommittedRow(init[i].req));
        assert CommittedAt(table, log, i);
      }
    }
  }

  /**
   Any other failure, had it been stored: with deletion allowed the key is free again; otherwise every later
   call with the payload is told that the outcome is uncertain, and the row keeps the error.
   */
  lemma StoredUncertaintyRoundTrip(row: Row, work: Work, allowDelete: bool, now: int, later: int, staleMs: int)
    requires work.ThrowsOther? || (work.ThrowsHttp? && !(400 <= work.status < 500))
    ensures var stored := RowAfterWork(row, work, allowDelete, now);
            if allowDelete then stored == None
            else
              && Judge(stored, row.requestHash, later, staleMs) == Answer(Threw(OutcomeUncertain))
              && stored.value.httpStatus == Some(if work.ThrowsHttp? then work.status else 500)
              && stored.value.errorJson
                 == Some(ErrorJson(stored.value.httpStatus, Some(if work.ThrowsHttp? then work.body else work.message)))
  {
  }

  /** A 4xx failure that had been stored would be replayed with its status and body intact. */
  lemma StoredFailureRoundTrip(
      row: Row, status: int, body: string, allowDelete: bool, now: int, later: int, staleMs: int)
    requires 400 <= status < 500
    ensures var stored := RowAfterWork(row, ThrowsHttp(status, body), allowDelete, now);
            Judge(stored, row.requestHash, later, staleMs) == Answer(Threw(StoredError(status, body)))
  {
  }

  lemma PrefixReplies(table: map<Key, Row>, log: seq<Entry>, i: nat)
    requires i <= |log| && SerialReplies(table, log)
    ensures SerialReplies(table, log[..i])
    ensures forall j :: 0 <= j < i ==> (CommittedAt(table, log[..i], j) <==> CommittedAt(table, log, j))
  {
    var prefix := log[..i];
    forall j | 0 <= j < i ensures RowBefore(table, prefix, j) == RowBefore(table, log, j) {
      assert prefix[..j] == log[..j];
    }
    assert forall j :: 0 <= j < i ==> log[j].reply == ReplyAt(table, log, j);
  }

  /** Until a run on a key commits, the key is as the starting table had it. */
  lemma UncommittedKeyIsUntouched(table: map<Key, Row>, log: seq<Entry>, i: nat)
    requires i < |log| && SerialReplies(table, log)
    requires forall j :: 0 <= j < i && log[j].req.key == log[i].req.key ==> !CommittedAt(table, log, j)
    ensures RowBefore(table, log, i) == Find(table, log[i].req.key)
  {
    PrefixReplies(table, log, i);
    OnlyCompletedRowsAreWritten(table, log[..i], log[i].req.key);
  }

  /**
   Exactly when a call runs its work and commits it: its work succeeds, the key was free or stale in the
   starting table, and no earlier call on it has committed. It then found the key as it was at the start.
   */
  lemma CommittedIff(table: map<Key, Row>, log: seq<Entry>, i: nat)
    requires i < |log| && SerialReplies(table, log)
    ensures CommittedAt(table, log, i) ==> RowBefore(table, log, i) == Find(table, log[i].req.key)
    ensures CommittedAt(table, log, i)
            <==> && log[i].req.work.Succeeds? && FreeOrStale(table, log[i].req)
                 && forall j :: 0 <= j < i && log[j].req.key == log[i].req.key ==> !CommittedAt(table, log, j)
  {
    if j :| 0 <= j < i && log[j].req.key == log[i].req.key && CommittedAt(table, log, j) {
      AtMostOncePerKey(table, log, j, i);
    } else {
      UncommittedKeyIsUntouched(table, log, i);
    }
  }

  /** A call that does not commit work leaves the table as it was, and so does every call that throws. */
  lemma UncommittedCallLeavesTable(table: map<Key, Row>, log: seq<Entry>, i: nat)
    requires i < |log| && SerialReplies(table, log) && (!CommittedAt(table, log, i) || log[i].reply.Threw?)
    ensures SerialTable(table, log[..i + 1]) == SerialTable(table, log[..i])
  {
    var before := SerialTable(table, log[..i]);
    assert log[..i + 1][..i] == log[..i] && log[..i + 1][i] == log[i];
    assert log[i].reply == ReplyAt(table, log, i);
    StoreUnchanged(before, log[i].req.key);
  }

  /** The table after a committed call. */
  lemma CommittedCallStores(table: map<Key, Row>, log: seq<Entry>, i: nat)
    requires i < |log| && SerialReplies(table, log) && CommittedAt(table, log, i)
    ensures var req := log[i].req;
            SerialTable(table, log[..i + 1])
            == SerialTable(table, log[..i])[req.key :=
                 Row(req.requestHash, Completed, Some(200), req.work.result, None, req.workAt)]
  {
    assert log[..i + 1][..i] == log[..i] && log[..i + 1][i] == log[i];
  }

  /** The ladder, read off the row. */
  lemma LadderReplies(table: map<Key, Row>, req: Request)
    ensures var (row, reply) := RunAlone(Find(table, req.key), req);
            if FreeOrStale(table, req) then
              reply == if req.work.Succeeds? then Returned(req.work.result) else Threw(WorkThrew(req.work))
            else reply == BlockedReply(table[req.key], req.requestHash)
  {
  }

  /**
   What every call gets until a call on its key has committed, on the starting table alone: on a free or
   stale key the result of its work or exactly what the work threw, and otherwise the answer its row
   dictates. A work that throws leaves the table as it was.
   */
  lemma ReplyBeforeCommit(table: map<Key, Row>, log: seq<Entry>, i: nat)
    requires i < |log| && SerialReplies(table, log)
    requires forall j :: 0 <= j < i && log[j].req.key == log[i].req.key ==> !CommittedAt(table, log, j)
    ensures var req := log[i].req;
            if FreeOrStale(table, req) then
              && log[i].reply == (if req.work.Succeeds? then Returned(req.work.result) else Threw(WorkThrew(req.work)))
              && (!req.work.Succeeds? ==> SerialTable(table, log[..i + 1]) == SerialTable(table, log[..i]))
            else
              && log[i].reply == BlockedReply(table[req.key], req.requestHash)
              && SerialTable(table, log[..i + 1]) == SerialTable(table, log[..i])
  {
    UncommittedKeyIsUntouched(table, log, i);
    LadderReplies(table, log[i].req);
    assert log[i].reply == ReplyAt(table, log, i);
    CommittedIff(table, log, i);
    if !CommittedAt(table, log, i) {
      UncommittedCallLeavesTable(table, log, i);
    }
  }

  /** So it is in every interleaving, from every table. */
  lemma ReplyInEveryInterleaving(table: map<Key, Row>, steps: seq<Step>, lockOf: Key -> int, i: nat)
    requires Legal(Start(table), steps, lockOf) && i < |Exec(Start(table), steps, lockOf).log|
    requires var log := Exec(Start(table), steps, lockOf).log;
             forall j :: 0 <= j < i && log[j].req.key == log[i].req.key ==> !CommittedAt(table, log, j)
    ensures var e := Exec(Start(table), steps, lockOf).log[i];
            if FreeOrStale(table, e.req) then
              e.reply == if e.req.work.Succeeds? then Returned(e.req.work.result) else Threw(WorkThrew(e.req.work))
            else e.reply == BlockedReply(table[e.req.key], e.req.requestHash)
  {
    EveryInterleavingIsSerial(table, steps, lockOf);
    ReplyBeforeCommit(table, Exec(Start(table), steps, lockOf).log, i);
  }

  /** The same for every interleaving, from every table. */
  lemma WorkCommitsIff(table: map<Key, Row>, steps: seq<Step>, lockOf: Key -> int, i: nat)
    requires Legal(Start(table), steps, lockOf) && i < |Exec(Start(table), steps, lockOf).log|
    ensures var log := Exec(Start(table), steps, lockOf).log;
            CommittedAt(table, log, i)
            <==> && log[i].req.work.Succeeds? && FreeOrStale(table, log[i].req)
                 && forall j :: 0 <= j < i && log[j].req.key == log[i].req.key ==> !CommittedAt(table, log, j)
  {
    EveryInterleavingIsSerial(table, steps, lockOf);
    CommittedIff(table, Exec(Start(table), steps, lockOf).log, i);
  }

  /**
   Failed attempts do not block a retry: on a key that the starting table leaves free, or stale for this
   payload, the first call whose work succeeds commits it, however many failed before it.
   */
  lemma FailedAttemptDoesNotBlockRetry(table: map<Key, Row>, log: seq<Entry>, i: nat)
    requires i < |log| && SerialReplies(table, log)
    requires log[i].req.work.Succeeds? && FreeOrStale(table, log[i].req)
    requires forall j :: 0 <= j < i && log[j].req.key == log[i].req.key ==> !log[j].req.work.Succeeds?
    ensures CommittedAt(table, log, i) && log[i].reply == Returned(log[i].req.work.result)
  {
    CommittedIff(table, log, i);
    assert log[i].reply == ReplyAt(table, log, i);
  }

  // ---------------------------------------------------------------------------------------------
  // Locks
  // ---------------------------------------------------------------------------------------------

  /** A lock is held exactly while a call of its key is between its lock and its end. */
  ghost predicate LocksExact(s: System, lockOf: Key -> int) {
    && (forall l :: l in s.locks ==> LockInUse(s, lockOf, l))
    && (forall t :: t in s.calls && Holds(s.calls[t].phase) ==>
          lockOf(s.calls[t].key) in s.locks && s.locks[lockOf(s.calls[t].key)] == t)
  }

  ghost predicate LockInUse(s: System, lockOf: Key -> int, l: int)
    requires l in s.locks
  {
    s.locks[l] in s.calls && Holds(s.calls[s.locks[l]].phase) && lockOf(s.calls[s.locks[l]].key) == l
  }

  lemma StepKeepsLocks(s: System, step: Step, lockOf: Key -> int)
    requires LocksExact(s, lockOf) && Enabled(s, step, lockOf)
    ensures LocksExact(Apply(s, step, lockOf), lockOf)
  {
    var s' := Apply(s, step, lockOf);
    forall l | l in s'.locks ensures LockInUse(s', lockOf, l) {
      if l in s.locks {
        assert LockInUse(s, lockOf, l);
      }
    }
  }

  lemma {:induction false} LocksStayExact(s: System, steps: seq<Step>, lockOf: Key -> int)
    requires LocksExact(s, lockOf) && Legal(s, steps, lockOf)
    ensures LocksExact(Exec(s, steps, lockOf), lockOf)
    decreases |steps|
  {
    if steps != [] {
      StepKeepsLocks(s, steps[0], lockOf);
      LocksStayExact(Apply(s, steps[0], lockOf), steps[1..], lockOf);
    }
  }

  /** So a queued call can go on exactly if no call with its lock is between lock and end. */
  lemma QueuedCallProceedsIff(table: map<Key, Row>, steps: seq<Step>, lockOf: Key -> int, t: nat)
    requires Legal(Start(table), steps, lockOf)
    requires var s := Exec(Start(table), steps, lockOf); t in s.calls && s.calls[t].phase.Queued?
    ensures var s := Exec(Start(table), steps, lockOf);
            Enabled(s, Acquire(t), lockOf)
            <==> forall u :: u in s.calls && Holds(s.calls[u].phase) ==>
                   lockOf(s.calls[u].key) != lockOf(s.calls[t].key)
  {
    LocksStayExact(Start(table), steps, lockOf);
    var s := Exec(Start(table), steps, lockOf);
    var l := lockOf(s.calls[t].key);
    if l in s.locks {
      assert LockInUse(s, lockOf, l);
    }
  }

  // ---------------------------------------------------------------------------------------------
  // Where logged requests come from
  // ---------------------------------------------------------------------------------------------

  /** A run, one system per moment. */
  ghost predicate IsRun(run: seq<System>, steps: seq<Step>, lockOf: Key -> int) {
    && |run| == |steps| + 1
    && forall k :: 0 <= k < |steps| ==> NextAt(run, steps, lockOf, k)
  }

  ghost predicate NextAt(run: seq<System>, steps: seq<Step>, lockOf: Key -> int, k: nat)
    requires k < |steps| < |run|
  {
    Enabled(run[k], steps[k], lockOf) && run[k + 1] == Apply(run[k], steps[k], lockOf)
  }

  /** The moments of an execution. */
  lemma {:induction false} MomentsOf(s: System, steps: seq<Step>, lockOf: Key -> int) returns (run: seq<System>)
    requires Legal(s, steps, lockOf)
    ensures IsRun(run, steps, lockOf) && run[0] == s && run[|steps|] == Exec(s, steps, lockOf)
    decreases |steps|
  {
    if steps == [] {
      run := [s];
    } else {
      var rest := MomentsOf(Apply(s, steps[0], lockOf), steps[1..], lockOf);
      run := [s] + rest;
      forall k | 0 <= k < |steps| ensures NextAt(run, steps, lockOf, k) {
        if k > 0 {
          assert NextAt(rest, steps[1..], lockOf, k - 1);
        }
      }
    }
  }

  lemma {:induction false} CallBegan(run: seq<System>, steps: seq<Step>, lockOf: Key -> int, k: nat, t: nat)
    returns (b: nat)
    requires IsRun(run, steps, lockOf) && run[0].calls == map[] && k <= |steps| && t in run[k].calls
    ensures b < k
    ensures var c := run[k].calls[t]; steps[b] == Begin(t, c.key, c.requestHash, c.staleMs)
    decreases k
  {
    assert NextAt(run, steps, lockOf, k - 1);
    if t in run[k - 1].calls {
      b := CallBegan(run, steps, lockOf, k - 1, t);
    } else {
      b := k - 1;
    }
  }

  lemma {:induction false} CallRead(run: seq<System>, steps: seq<Step>, lockOf: Key -> int, k: nat, t: nat)
    returns (r: nat)
    requires IsRun(run, steps, lockOf) && run[0].calls == map[] && k <= |steps|
    requires t in run[k].calls && run[k].calls[t].phase.Working?
    ensures r < k && steps[r] == Read(t) && run[r].clock == run[k].calls[t].phase.readAt
    decreases k
  {
    assert NextAt(run, steps, lockOf, k - 1);
    if t in run[k - 1].calls && run[k - 1].calls[t] == run[k].calls[t] {
      r := CallRead(run, steps, lockOf, k - 1, t);
    } else {
      r := k - 1;
    }
  }

  /** The request was read at step `r` and, if it got past the ladder, did its work at step `d`. */
  ghost predicate ReadAndWorked(
      run: seq<System>, steps: seq<Step>, t: nat, req: Request, r: nat, d: nat)
    requires r <= d < |steps| < |run|
  {
    && steps[r] == Read(t) && run[r].clock == req.readAt
    && run[d].clock == req.workAt
    && if req.work.NotInvoked? then r == d else steps[d].DoWork? && steps[d].t == t && steps[d].work == req.work
  }

  lemma {:induction false} CallResolved(run: seq<System>, steps: seq<Step>, lockOf: Key -> int, k: nat, t: nat)
    returns (r: nat, d: nat)
    requires IsRun(run, steps, lockOf) && run[0].calls == map[] && k <= |steps|
    requires t in run[k].calls && run[k].calls[t].phase.Resolved?
    ensures r <= d < k && ReadAndWorked(run, steps, t, run[k].calls[t].phase.req, r, d)
    ensures var c := run[k].calls[t];
            var req := c.phase.req;
            req.key == c.key && req.requestHash == c.requestHash && req.staleMs == c.staleMs
    decreases k
  {
    assert NextAt(run, steps, lockOf, k - 1);
    if t in run[k - 1].calls && run[k - 1].calls[t] == run[k].calls[t] {
      r, d := CallResolved(run, steps, lockOf, k - 1, t);
    } else if steps[k - 1].Read? {
      r, d := k - 1, k - 1;
    } else {
      r := CallRead(run, steps, lockOf, k - 1, t);
      d := k - 1;
    }
  }

  /**
   Every logged request is that of a call which began with its key, hash and stale limit, read at its
   read time, did its work at its work time and ended after that.
   */
  lemma {:induction false} EntryHasSteps(run: seq<System>, steps: seq<Step>, lockOf: Key -> int, k: nat, n: nat)
    returns (t: nat, b: nat, r: nat, d: nat, e: nat)
    requires IsRun(run, steps, lockOf) && run[0].calls == map[] && run[0].log == []
    requires k <= |steps| && n < |run[k].log|
    ensures b < k && r <= d < e < k && steps[e] == End(t)
    ensures var req := run[k].log[n].req;
            && steps[b] == Begin(t, req.key, req.requestHash, req.staleMs)
            && ReadAndWorked(run, steps, t, req, r, d)
    decreases k
  {
    assert NextAt(run, steps, lockOf, k - 1);
    if n < |run[k - 1].log| {
      t, b, r, d, e := EntryHasSteps(run, steps, lockOf, k - 1, n);
    } else {
      t, e := steps[k - 1].t, k - 1;
      b := CallBegan(run, steps, lockOf, e, t);
      r, d := CallResolved(run, steps, lockOf, e, t);
    }
  }

  /** So it is for the log of every execution. */
  lemma LogComesFromSteps(table: map<Key, Row>, steps: seq<Step>, lockOf: Key -> int, n: nat)
    returns (run: seq<System>, t: nat, b: nat, r: nat, d: nat, e: nat)
    requires Legal(Start(table), steps, lockOf) && n < |Exec(Start(table), steps, lockOf).log|
    ensures IsRun(run, steps, lockOf) && run[0] == Start(table) && run[|steps|] == Exec(Start(table), steps, lockOf)
    ensures b < |steps| && r <= d < e < |steps| && steps[e] == End(t)
    ensures var req := run[|steps|].log[n].req;
            && steps[b] == Begin(t, req.key, req.requestHash, req.staleMs)
            && ReadAndWorked(run, steps, t, req, r, d)
  {
    run := MomentsOf(Start(table), steps, lockOf);
    t, b, r, d, e := EntryHasSteps(run, steps, lockOf, |steps|, n);
  }
}
