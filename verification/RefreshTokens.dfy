/**
 Refresh-token rotation: a presented token is revoked and replaced; presenting a token that is already
 revoked revokes every token of its user. Concurrent calls with one token share one rotation through
 an in-process map. The pattern is that of section 4.14.2 of RFC 9700.

 Tokens are named by their hashes. `lineage` is bookkeeping of the model: it maps each token issued by
 a rotation to the token that was rotated.
 */
module RefreshTokens {
  import opened Wrappers

  type Hash = string

  datatype Token = Token(userId: string, deviceId: Option<string>, revoked: bool, expiresAt: int)

  // ---------------------------------------------------------------------------------------------
  // One rotation on its own
  // ---------------------------------------------------------------------------------------------

  datatype Verdict = Unknown | Reused(userId: string) | Expired | DeviceMismatch | Good

  /** A device id that JavaScript counts as true: present and not empty. */
  predicate Given(deviceId: Option<string>) {
    deviceId.Some? && deviceId.value != ""
  }

  /** The checks on the row found for a presented token. */
  function Examine(row: Option<Token>, deviceId: Option<string>, now: int): Verdict {
    match row
    case None => Unknown
    case Some(t) =>
      if t.revoked then Reused(t.userId)
      else if t.expiresAt < now then Expired
      else if Given(deviceId) && Given(t.deviceId) && t.deviceId != deviceId then DeviceMismatch
      else Good
  }

  function Revoke(tokens: map<Hash, Token>, which: set<Hash>): map<Hash, Token> {
    map h | h in tokens :: if h in which then tokens[h].(revoked := true) else tokens[h]
  }

  function OfUser(tokens: map<Hash, Token>, userId: string): set<Hash> {
    set h | h in tokens && tokens[h].userId == userId
  }

  /** The row a rotation of `row` issues. */
  function Successor(row: Token, deviceId: Option<string>, expiresAt: int): Token {
    Token(row.userId, if deviceId.Some? then deviceId else row.deviceId, false, expiresAt)
  }

  datatype TokenStore = TokenStore(tokens: map<Hash, Token>, lineage: map<Hash, Hash>)

  datatype Presentation = Presentation(
    key: Hash, deviceId: Option<string>, now: int, userExists: bool, newHash: Hash, newExpiry: int)

  datatype Reply = Rejected(verdict: Verdict) | UserNotFound | Rotated(newHash: Hash)

  /** A rotation with nothing else running. */
  function Rotate(s: TokenStore, p: Presentation): (Reply, TokenStore) {
    var verdict := Examine(Find(s.tokens, p.key), p.deviceId, p.now);
    match verdict
    case Reused(userId) => (Rejected(verdict), s.(tokens := Revoke(s.tokens, OfUser(s.tokens, userId))))
    case Good =>
      if !p.userExists then (UserNotFound, s)
      else
        var row := s.tokens[p.key];
        (Rotated(p.newHash),
         TokenStore(Revoke(s.tokens, {p.key})[p.newHash := Successor(row, p.deviceId, p.newExpiry)],
               s.lineage[p.newHash := p.key]))
    case _ => (Rejected(verdict), s)
  }

  /** One of the two device ids is absent or empty, or they are the same. */
  predicate DevicesAgree(stored: Option<string>, sent: Option<string>) {
    stored == None || sent == None || stored.value == "" || sent.value == "" || stored.value == sent.value
  }

  /** The token table, updated in place by `rotateRefreshToken` and the revoke methods. */
  class TokenTable {
    var tokens: map<Hash, Token>
    ghost var lineage: map<Hash, Hash>

    constructor ()
      ensures tokens == map[] && lineage == map[]
    {
      tokens, lineage := map[], map[];
    }

    method RotateRefreshToken(p: Presentation) returns (reply: Reply)
      requires p.newHash !in tokens
      modifies this
      ensures (reply, TokenStore(tokens, lineage)) == Rotate(TokenStore(old(tokens), old(lineage)), p)
      // The same, read off the stored row.
      ensures p.key !in old(tokens) ==> reply == Rejected(Unknown) && tokens == old(tokens)
      ensures p.key in old(tokens) ==>
                var t := old(tokens)[p.key];
                && (t.revoked ==> reply == Rejected(Reused(t.userId)))
                && (!t.revoked && t.expiresAt < p.now ==> reply == Rejected(Expired) && tokens == old(tokens))
                && (reply == Rotated(p.newHash)
                    <==> !t.revoked && t.expiresAt >= p.now && DevicesAgree(t.deviceId, p.deviceId) && p.userExists)
    {
      if p.key !in tokens {
        return Rejected(Unknown);
      }
      var row := tokens[p.key];
      if row.revoked {
        tokens := Revoke(tokens, OfUser(tokens, row.userId));
        return Rejected(Reused(row.userId));
      }
      if row.expiresAt < p.now {
        return Rejected(Expired);
      }
      if Given(p.deviceId) && Given(row.deviceId) && row.deviceId != p.deviceId {
        return Rejected(DeviceMismatch);
      }
      if !p.userExists {
        return UserNotFound;
      }
      tokens := tokens[p.key := row.(revoked := true)];
      assert tokens == Revoke(old(tokens), {p.key});
      tokens := tokens[p.newHash := Successor(row, p.deviceId, p.newExpiry)];
      lineage := lineage[p.newHash := p.key];
      return Rotated(p.newHash);
    }

    method RevokeRefreshSessionByToken(key: Hash)
      modifies this`tokens
      ensures tokens == Revoke(old(tokens), {key})
    {
      if key in tokens && !tokens[key].revoked {
        tokens := tokens[key := tokens[key].(revoked := true)];
      }
      assert tokens == Revoke(old(tokens), {key});
    }

    method RevokeRefreshTokens(userId: string, deviceId: Option<string>)
      modifies this`tokens
      ensures tokens == Revoke(old(tokens), set h | h in old(tokens) && old(tokens)[h].userId == userId
                                                    && (Given(deviceId) ==> old(tokens)[h].deviceId == deviceId))
    {
      var rows := set h | h in tokens && tokens[h].userId == userId && !tokens[h].revoked
                          && (Given(deviceId) ==> tokens[h].deviceId == deviceId);
      tokens := Revoke(tokens, rows);
      assert tokens == Revoke(old(tokens), set h | h in old(tokens) && old(tokens)[h].userId == userId
                                                   && (Given(deviceId) ==> old(tokens)[h].deviceId == deviceId));
    }
  }

  // ---------------------------------------------------------------------------------------------
  // Runs of atomic rotations: reuse and devices
  // ---------------------------------------------------------------------------------------------

  datatype Action =
    | Present(p: Presentation)
    | Login(hash: Hash, token: Token)
    | RevokeSome(which: set<Hash>)

  /** New tokens come from 48 random bytes, so their hashes are new. */
  predicate Fresh(s: TokenStore, a: Action) {
    match a
    case Present(p) => p.newHash !in s.tokens
    case Login(h, t) => h !in s.tokens && !t.revoked
    case RevokeSome(_) => true
  }

  function Act(s: TokenStore, a: Action): TokenStore {
    match a
    case Present(p) => Rotate(s, p).1
    case Login(h, t) => s.(tokens := s.tokens[h := t])
    case RevokeSome(which) => s.(tokens := Revoke(s.tokens, which))
  }

  predicate FreshRun(s: TokenStore, actions: seq<Action>)
    decreases |actions|
  {
    actions == [] || (Fresh(s, actions[0]) && FreshRun(Act(s, actions[0]), actions[1..]))
  }

  function Run(s: TokenStore, actions: seq<Action>): TokenStore
    decreases |actions|
  {
    if actions == [] then s else Run(Act(s, actions[0]), actions[1..])
  }

  predicate IsRevoked(tokens: map<Hash, Token>, h: Hash) {
    h in tokens && tokens[h].revoked
  }

  /** Exactly when a presented token is rotated, and which refusal every other one gets. */
  lemma RotatedIff(s: TokenStore, p: Presentation)
    ensures var reply := Rotate(s, p).0;
            if p.key !in s.tokens then reply == Rejected(Unknown)
            else
              var t := s.tokens[p.key];
              && (reply == Rejected(Reused(t.userId)) <==> t.revoked)
              && (reply == Rejected(Expired) <==> !t.revoked && t.expiresAt < p.now)
              && (reply == Rejected(DeviceMismatch)
                  <==> !t.revoked && t.expiresAt >= p.now && !DevicesAgree(t.deviceId, p.deviceId))
              && (reply == UserNotFound
                  <==> !t.revoked && t.expiresAt >= p.now && DevicesAgree(t.deviceId, p.deviceId) && !p.userExists)
              && (reply == Rotated(p.newHash)
                  <==> !t.revoked && t.expiresAt >= p.now && DevicesAgree(t.deviceId, p.deviceId) && p.userExists)
  {
  }

  /**
   What a rotation leaves: the presented token revoked, a live token of the same user with the new expiry,
   bound to the device that was sent or else to the old one, and every other token as it was.
   */
  lemma RotationLeaves(s: TokenStore, p: Presentation)
    requires p.newHash !in s.tokens && Rotate(s, p).0 == Rotated(p.newHash)
    ensures var s' := Rotate(s, p).1;
            var t := s.tokens[p.key];
            && s'.tokens.Keys == s.tokens.Keys + {p.newHash}
            && s'.tokens[p.newHash].userId == t.userId
            && !s'.tokens[p.newHash].revoked
            && s'.tokens[p.newHash].expiresAt == p.newExpiry
            && s'.tokens[p.newHash].deviceId == (if p.deviceId == None then t.deviceId else p.deviceId)
            && s'.tokens[p.key] == Token(t.userId, t.deviceId, true, t.expiresAt)
            && (forall h :: h in s.tokens && h != p.key ==> s'.tokens[h] == s.tokens[h])
            && s'.lineage == s.lineage[p.newHash := p.key]
  {
  }

  /** A refusal other than a reuse leaves everything as it was. */
  lemma RefusalLeaves(s: TokenStore, p: Presentation)
    requires !IsRevoked(s.tokens, p.key) && !Rotate(s, p).0.Rotated?
    ensures Rotate(s, p).1 == s
  {
  }

  lemma {:induction false} RevokedForever(s: TokenStore, actions: seq<Action>, h: Hash)
    requires FreshRun(s, actions) && IsRevoked(s.tokens, h)
    ensures IsRevoked(Run(s, actions).tokens, h)
    decreases |actions|
  {
    if actions != [] {
      RevokedForever(Act(s, actions[0]), actions[1..], h);
    }
  }

  /** Presenting a revoked token issues nothing and revokes the whole family of its user. */
  lemma ReuseRevokesFamily(s: TokenStore, p: Presentation)
    requires IsRevoked(s.tokens, p.key)
    ensures var (reply, s') := Rotate(s, p);
            && reply == Rejected(Reused(s.tokens[p.key].userId))
            && s'.tokens.Keys == s.tokens.Keys && s'.lineage == s.lineage
            && forall h :: h in s'.tokens ==>
                 s'.tokens[h] == if s.tokens[h].userId == s.tokens[p.key].userId then s.tokens[h].(revoked := true)
                                 else s.tokens[h]
  {
  }

  /**
   After a reuse, no token the user had can ever be exchanged again: whatever happens in between,
   presenting it issues nothing.
   */
  lemma ReuseIsFinal(s: TokenStore, p: Presentation, actions: seq<Action>, later: Presentation)
    requires IsRevoked(s.tokens, p.key) && FreshRun(Rotate(s, p).1, actions)
    requires later.key in s.tokens && s.tokens[later.key].userId == s.tokens[p.key].userId
    ensures var s' := Run(Rotate(s, p).1, actions);
            && Rotate(s', later).0.Rejected?
            && Rotate(s', later).1.tokens.Keys == s'.tokens.Keys
            && Rotate(s', later).1.lineage == s'.lineage
  {
    ReuseRevokesFamily(s, p);
    RevokedForever(Rotate(s, p).1, actions, later.key);
  }

  /** A rotated token shown again is a reuse, and takes the token that replaced it down too. */
  lemma SecondUseRevokesSuccessor(s: TokenStore, p: Presentation, again: Presentation)
    requires p.newHash !in s.tokens && Rotate(s, p).0.Rotated? && again.key == p.key
    ensures var s' := Rotate(s, p).1;
            && !s'.tokens[p.newHash].revoked
            && Rotate(s', again).0 == Rejected(Reused(s.tokens[p.key].userId))
            && IsRevoked(Rotate(s', again).1.tokens, p.newHash)
  {
  }

  /** Runs change nothing of a token but its revocation. */
  lemma {:induction false} TokensKeepTheirTerms(s: TokenStore, actions: seq<Action>, h: Hash)
    requires FreshRun(s, actions) && h in s.tokens
    ensures var s' := Run(s, actions);
            h in s'.tokens && s'.tokens[h].(revoked := false) == s.tokens[h].(revoked := false)
    decreases |actions|
  {
    if actions != [] {
      TokensKeepTheirTerms(Act(s, actions[0]), actions[1..], h);
    }
  }

  /** So an expired token is never exchanged, whatever happened since it was issued. */
  lemma ExpiredTokensStayExpired(s: TokenStore, actions: seq<Action>, p: Presentation)
    requires FreshRun(s, actions) && p.key in s.tokens && s.tokens[p.key].expiresAt < p.now
    ensures var s' := Run(s, actions);
            Rotate(s', p).0.Rejected? && Rotate(s', p).1.tokens.Keys == s'.tokens.Keys
  {
    TokensKeepTheirTerms(s, actions, p.key);
  }

  /** For a token bound to a device, the successor keeps the device exactly if none or a non-empty one was sent. */
  lemma SuccessorKeepsDevice(s: TokenStore, p: Presentation)
    requires Rotate(s, p).0.Rotated? && Given(s.tokens[p.key].deviceId)
    ensures Rotate(s, p).1.tokens[p.newHash].deviceId == s.tokens[p.key].deviceId <==> p.deviceId != Some("")
  {
  }

  /** Child and parent are rows, and a bound parent has a child bound to the same device. */
  ghost predicate DevicesInherited(s: TokenStore) {
    forall h :: h in s.lineage ==>
      && h in s.tokens && s.lineage[h] in s.tokens
      && (Given(s.tokens[s.lineage[h]].deviceId) ==> s.tokens[h].deviceId == s.tokens[s.lineage[h]].deviceId)
  }

  lemma {:induction false} RunInheritsDevices(s: TokenStore, actions: seq<Action>)
    requires DevicesInherited(s) && FreshRun(s, actions)
    requires forall a :: a in actions && a.Present? ==> a.p.deviceId != Some("")
    ensures DevicesInherited(Run(s, actions))
    decreases |actions|
  {
    if actions != [] {
      ActInheritsDevices(s, actions[0]);
      assert forall a :: a in actions[1..] ==> a in actions;
      RunInheritsDevices(Act(s, actions[0]), actions[1..]);
    }
  }

  lemma ActInheritsDevices(s: TokenStore, a: Action)
    requires DevicesInherited(s) && Fresh(s, a)
    requires a.Present? ==> a.p.deviceId != Some("")
    ensures DevicesInherited(Act(s, a))
  {
  }

  /** `h` descends from `ancestor` in `n` rotations. */
  predicate Descends(s: TokenStore, h: Hash, ancestor: Hash, n: nat)
    decreases n
  {
    if n == 0 then h == ancestor else h in s.lineage && Descends(s, s.lineage[h], ancestor, n - 1)
  }

  /** Once a token in a rotation chain carries a device id, all its descendants carry the same one. */
  lemma {:induction false} ChainKeepsDevice(s: TokenStore, h: Hash, ancestor: Hash, n: nat)
    requires DevicesInherited(s) && Descends(s, h, ancestor, n)
    requires ancestor in s.tokens && Given(s.tokens[ancestor].deviceId)
    ensures h in s.tokens && s.tokens[h].deviceId == s.tokens[ancestor].deviceId
    decreases n
  {
    if n > 0 {
      ChainKeepsDevice(s, s.lineage[h], ancestor, n - 1);
    }
  }

  lemma DeviceBindingHolds(actions: seq<Action>, h: Hash, ancestor: Hash, n: nat)
    requires FreshRun(TokenStore(map[], map[]), actions)
    requires forall a :: a in actions && a.Present? ==> a.p.deviceId != Some("")
    requires var s := Run(TokenStore(map[], map[]), actions);
             Descends(s, h, ancestor, n) && ancestor in s.tokens && Given(s.tokens[ancestor].deviceId)
    ensures var s := Run(TokenStore(map[], map[]), actions);
            h in s.tokens && s.tokens[h].deviceId == s.tokens[ancestor].deviceId
  {
    RunInheritsDevices(TokenStore(map[], map[]), actions);
    ChainKeepsDevice(Run(TokenStore(map[], map[]), actions), h, ancestor, n);
  }

  // ---------------------------------------------------------------------------------------------
  // Interleaved at the awaits: one successor per token
  // ---------------------------------------------------------------------------------------------

  datatype Phase =
    | Finding
    | RevokingFamily(userId: string)
    | LoadingUser(row: Token)
    | Revoking(row: Token)
    | Issuing(row: Token)
    | Issued(newHash: Hash)
    | Settled

  datatype Rotation = Rotation(key: Hash, deviceId: Option<string>, phase: Phase)

  /** One process: the table, the in-flight map, and every rotation ever started. */
  datatype Process = Process(
    tokens: map<Hash, Token>,
    lineage: map<Hash, Hash>,
    inFlight: map<Hash, nat>,
    rotations: map<nat, Rotation>)

  datatype Step =
    | Refresh(id: nat, key: Hash, deviceId: Option<string>)
    | FindRow(id: nat, now: int)
    | RevokeFamily(id: nat)
    | LoadUser(id: nat, found: bool)
    | RevokeRow(id: nat)
    | Issue(id: nat, newHash: Hash, expiresAt: int)
    | Finish(id: nat)
    | Crash(id: nat)
    | NewLogin(hash: Hash, token: Token)
    | RevokeAny(which: set<Hash>)

  predicate Enabled(s: Process, step: Step) {
    match step
    case Refresh(id, _, _) => id !in s.rotations
    case FindRow(id, _) => id in s.rotations && s.rotations[id].phase.Finding?
    case RevokeFamily(id) => id in s.rotations && s.rotations[id].phase.RevokingFamily?
    case LoadUser(id, _) => id in s.rotations && s.rotations[id].phase.LoadingUser?
    case RevokeRow(id) => id in s.rotations && s.rotations[id].phase.Revoking?
    case Issue(id, h, _) => id in s.rotations && s.rotations[id].phase.Issuing? && h !in s.tokens
    case Finish(id) => id in s.rotations && s.rotations[id].phase.Issued?
    case Crash(id) => id in s.rotations && !s.rotations[id].phase.Settled?
    case NewLogin(h, t) => h !in s.tokens && !t.revoked
    case RevokeAny(_) => true
  }

  function Move(s: Process, id: nat, phase: Phase): Process
    requires id in s.rotations
  {
    s.(rotations := s.rotations[id := s.rotations[id].(phase := phase)])
  }

  /** The promise settles: its `finally` takes the key out of the map. */
  function Settle(s: Process, id: nat): Process
    requires id in s.rotations
  {
    Move(s, id, Settled).(inFlight := s.inFlight - {s.rotations[id].key})
  }

  function Apply(s: Process, step: Step): Process
    requires Enabled(s, step)
  {
    match step
    case Refresh(id, key, deviceId) =>
      // A call that finds its key in the map shares the promise and starts nothing.
      if key in s.inFlight then s
      else s.(inFlight := s.inFlight[key := id], rotations := s.rotations[id := Rotation(key, deviceId, Finding)])
    case FindRow(id, now) =>
      var r := s.rotations[id];
      (match Examine(Find(s.tokens, r.key), r.deviceId, now)
       case Reused(userId) => Move(s, id, RevokingFamily(userId))
       case Good => Move(s, id, LoadingUser(s.tokens[r.key]))
       case _ => Settle(s, id))
    case RevokeFamily(id) =>
      Settle(s.(tokens := Revoke(s.tokens, OfUser(s.tokens, s.rotations[id].phase.userId))), id)
    case LoadUser(id, found) =>
      if found then Move(s, id, Revoking(s.rotations[id].phase.row)) else Settle(s, id)
    case RevokeRow(id) =>
      Move(s.(tokens := Revoke(s.tokens, {s.rotations[id].key})), id, Issuing(s.rotations[id].phase.row))
    case Issue(id, h, expiresAt) =>
      var r := s.rotations[id];
      Move(s.(tokens := s.tokens[h := Successor(r.phase.row, r.deviceId, expiresAt)],
              lineage := s.lineage[h := r.key]), id, Issued(h))
    case Finish(id) => Settle(s, id)
    case Crash(id) => Settle(s, id)
    case NewLogin(h, t) => s.(tokens := s.tokens[h := t])
    case RevokeAny(which) => s.(tokens := Revoke(s.tokens, which))
  }

  predicate Legal(s: Process, steps: seq<Step>)
    decreases |steps|
  {
    steps == [] || (Enabled(s, steps[0]) && Legal(Apply(s, steps[0]), steps[1..]))
  }

  function Exec(s: Process, steps: seq<Step>): Process
    requires Legal(s, steps)
    decreases |steps|
  {
    if steps == [] then s else Exec(Apply(s, steps[0]), steps[1..])
  }

  const START := Process(map[], map[], map[], map[])

  /** A key is in the map exactly while a rotation of it is unsettled. */
  ghost predicate InFlightExact(inFlight: map<Hash, nat>, rotations: map<nat, Rotation>) {
    && (forall id :: id in rotations && !rotations[id].phase.Settled? ==>
          rotations[id].key in inFlight && inFlight[rotations[id].key] == id)
    && (forall key :: key in inFlight ==>
          && inFlight[key] in rotations
          && rotations[inFlight[key]].key == key
          && !rotations[inFlight[key]].phase.Settled?)
  }

  ghost predicate HasSuccessor(lineage: map<Hash, Hash>, key: Hash) {
    exists h :: h in lineage && lineage[h] == key
  }

  /** Has this rotation seen its token good and not replaced it yet? */
  predicate Committing(phase: Phase) {
    phase.LoadingUser? || phase.Revoking? || phase.Issuing?
  }

  ghost predicate RotationInv(tokens: map<Hash, Token>, lineage: map<Hash, Hash>, r: Rotation) {
    && (Committing(r.phase) ==> r.key in tokens && !HasSuccessor(lineage, r.key))
    && (r.phase.Issuing? ==> IsRevoked(tokens, r.key))
  }

  ghost predicate LineageInv(tokens: map<Hash, Token>, lineage: map<Hash, Hash>) {
    && (forall h :: h in lineage ==> h in tokens && IsRevoked(tokens, lineage[h]))
    && (forall h, h' :: h in lineage && h' in lineage && lineage[h] == lineage[h'] ==> h == h')
  }

  ghost predicate Inv(s: Process) {
    && InFlightExact(s.inFlight, s.rotations)
    && LineageInv(s.tokens, s.lineage)
    && forall id :: id in s.rotations ==> RotationInv(s.tokens, s.lineage, s.rotations[id])
  }

  lemma MoveKeepsMap(s: Process, id: nat, phase: Phase)
    requires InFlightExact(s.inFlight, s.rotations)
    requires id in s.rotations && !s.rotations[id].phase.Settled? && !phase.Settled?
    ensures var s' := Move(s, id, phase); InFlightExact(s'.inFlight, s'.rotations)
  {
  }

  lemma SettleKeepsMap(s: Process, id: nat)
    requires InFlightExact(s.inFlight, s.rotations)
    requires id in s.rotations && !s.rotations[id].phase.Settled?
    ensures var s' := Settle(s, id); InFlightExact(s'.inFlight, s'.rotations)
  {
  }

  lemma StepKeepsMap(s: Process, step: Step)
    requires InFlightExact(s.inFlight, s.rotations) && Enabled(s, step)
    ensures var s' := Apply(s, step); InFlightExact(s'.inFlight, s'.rotations)
  {
    var s' := Apply(s, step);
    if !step.Refresh? && s'.rotations != s.rotations {
      var phase := s'.rotations[step.id].phase;
      if phase.Settled? {
        SettleKeepsMap(s, step.id);
      } else {
        MoveKeepsMap(s, step.id, phase);
      }
    }
  }

  lemma StepKeepsRevoked(s: Process, step: Step, h: Hash)
    requires Enabled(s, step) && h in s.tokens
    ensures h in Apply(s, step).tokens
    ensures s.tokens[h].revoked ==> Apply(s, step).tokens[h].revoked
  {
  }

  lemma StepKeepsLineage(s: Process, step: Step)
    requires LineageInv(s.tokens, s.lineage) && Enabled(s, step)
    requires step.Issue? ==> RotationInv(s.tokens, s.lineage, s.rotations[step.id])
    ensures LineageInv(Apply(s, step).tokens, Apply(s, step).lineage)
  {
  }

  /** A step other than `Issue` on rotation `id` leaves it with a good token only if it saw one. */
  lemma CommittingBefore(s: Process, step: Step, id: nat)
    requires Enabled(s, step) && id in Apply(s, step).rotations
    requires Committing(Apply(s, step).rotations[id].phase)
    ensures id in s.rotations && s.rotations[id].key == Apply(s, step).rotations[id].key
    ensures !s.rotations[id].phase.Settled?
    ensures var r := s.rotations[id];
            Committing(r.phase) || (r.key in s.tokens && !s.tokens[r.key].revoked)
    ensures Apply(s, step).rotations[id].phase.Issuing? ==>
              s.rotations[id].phase.Issuing? || step == RevokeRow(id)
    ensures step.Issue? ==> step.id != id
  {
  }

  lemma SuccessorsAfter(s: Process, step: Step, key: Hash)
    requires Enabled(s, step) && !HasSuccessor(s.lineage, key)
    requires step.Issue? ==> s.rotations[step.id].key != key
    ensures !HasSuccessor(Apply(s, step).lineage, key)
  {
  }

  lemma StepKeepsRotation(s: Process, step: Step, id: nat)
    requires InFlightExact(s.inFlight, s.rotations) && LineageInv(s.tokens, s.lineage)
    requires Enabled(s, step) && id in Apply(s, step).rotations
    requires id in s.rotations ==> RotationInv(s.tokens, s.lineage, s.rotations[id])
    ensures RotationInv(Apply(s, step).tokens, Apply(s, step).lineage, Apply(s, step).rotations[id])
  {
    var r := Apply(s, step).rotations[id];
    if Committing(r.phase) {
      CommittingBefore(s, step, id);
      SuccessorsAfter(s, step, r.key);
      StepKeepsRevoked(s, step, r.key);
    }
  }

  lemma {:induction false} ExecKeepsInv(s: Process, steps: seq<Step>)
    requires Inv(s) && Legal(s, steps)
    ensures Inv(Exec(s, steps))
    decreases |steps|
  {
    if steps != [] {
      var s' := Apply(s, steps[0]);
      StepKeepsMap(s, steps[0]);
      StepKeepsLineage(s, steps[0]);
      forall id | id in s'.rotations ensures RotationInv(s'.tokens, s'.lineage, s'.rotations[id]) {
        StepKeepsRotation(s, steps[0], id);
      }
      ExecKeepsInv(s', steps[1..]);
    }
  }

  /**
   In every interleaving of refresh calls at their awaits, with logins and revocations around them:
   a key is in the map exactly while its rotation is unsettled, and no token has two successors.
   */
  lemma OneSuccessorPerToken(steps: seq<Step>, h: Hash, h': Hash)
    requires Legal(START, steps)
    requires var s := Exec(START, steps); h in s.lineage && h' in s.lineage && s.lineage[h] == s.lineage[h']
    ensures h == h'
    ensures InFlightExact(Exec(START, steps).inFlight, Exec(START, steps).rotations)
  {
    ExecKeepsInv(START, steps);
  }

  /** Two rotations of one token are never unsettled at the same time. */
  lemma OneRotationAtATime(steps: seq<Step>, a: nat, b: nat)
    requires Legal(START, steps)
    requires var rs := Exec(START, steps).rotations;
             && a in rs && b in rs && rs[a].key == rs[b].key
             && !rs[a].phase.Settled? && !rs[b].phase.Settled?
    ensures a == b
  {
    ExecKeepsInv(START, steps);
  }

  /** Revocation is never undone, and no token disappears. */
  lemma {:induction false} RevocationIsPermanent(s: Process, steps: seq<Step>, h: Hash)
    requires Legal(s, steps) && IsRevoked(s.tokens, h)
    ensures IsRevoked(Exec(s, steps).tokens, h)
    decreases |steps|
  {
    if steps != [] {
      StepKeepsRevoked(s, steps[0], h);
      RevocationIsPermanent(Apply(s, steps[0]), steps[1..], h);
    }
  }

  // Reuse at the awaits.

  /** Is a rotation of this token past its check? */
  ghost predicate UnderWay(s: Process, key: Hash) {
    exists id :: id in s.rotations && s.rotations[id].key == key && Committing(s.rotations[id].phase)
  }

  /** Once a reuse has revoked a family, every token its user had is revoked. */
  lemma FamilyIsRevoked(s: Process, id: nat, key: Hash)
    requires Enabled(s, RevokeFamily(id)) && key in s.tokens
    requires s.tokens[key].userId == s.rotations[id].phase.userId
    ensures IsRevoked(Apply(s, RevokeFamily(id)).tokens, key)
  {
  }

  /** A revoked token passes no check, so no step starts replacing it. */
  lemma NoRotationComesUnderWay(s: Process, step: Step, key: Hash)
    requires Enabled(s, step) && IsRevoked(s.tokens, key) && !UnderWay(s, key)
    ensures !UnderWay(Apply(s, step), key)
    ensures !HasSuccessor(s.lineage, key) ==> !HasSuccessor(Apply(s, step).lineage, key)
  {
    var s' := Apply(s, step);
    forall id | id in s'.rotations && s'.rotations[id].key == key ensures !Committing(s'.rotations[id].phase) {
      if Committing(s'.rotations[id].phase) {
        CommittingBefore(s, step, id);
      }
    }
    if !HasSuccessor(s.lineage, key) {
      SuccessorsAfter(s, step, key);
    }
  }

  lemma {:induction false} NoSuccessorEver(s: Process, steps: seq<Step>, key: Hash)
    requires Legal(s, steps) && IsRevoked(s.tokens, key) && !UnderWay(s, key) && !HasSuccessor(s.lineage, key)
    ensures !HasSuccessor(Exec(s, steps).lineage, key)
    decreases |steps|
  {
    if steps != [] {
      NoRotationComesUnderWay(s, steps[0], key);
      StepKeepsRevoked(s, steps[0], key);
      NoSuccessorEver(Apply(s, steps[0]), steps[1..], key);
    }
  }

  /** What a rotation past its check has left to do. */
  function Rest(id: nat, phase: Phase, newHash: Hash): seq<Step> {
    match phase
    case LoadingUser(_) => [LoadUser(id, true), RevokeRow(id), Issue(id, newHash, 0)]
    case Revoking(_) => [RevokeRow(id), Issue(id, newHash, 0)]
    case Issuing(_) => [Issue(id, newHash, 0)]
    case _ => []
  }

  lemma RestIssues(s: Process, id: nat, newHash: Hash)
    requires id in s.rotations && Committing(s.rotations[id].phase) && newHash !in s.tokens
    ensures Legal(s, Rest(id, s.rotations[id].phase, newHash))
    ensures HasSuccessor(Exec(s, Rest(id, s.rotations[id].phase, newHash)).lineage, s.rotations[id].key)
    decreases s.rotations[id].phase.LoadingUser?, s.rotations[id].phase.Revoking?
  {
    var phase := s.rotations[id].phase;
    var steps := Rest(id, phase, newHash);
    var s' := Apply(s, steps[0]);
    assert [steps[0]] + steps[1..] == steps;
    ExecSplit(s, steps[0], steps[1..]);
    if phase.Issuing? {
      assert s'.lineage[newHash] == s.rotations[id].key;
      assert HasSuccessor(s'.lineage, s.rotations[id].key);
    } else {
      assert steps[1..] == Rest(id, s'.rotations[id].phase, newHash);
      RestIssues(s', id, newHash);
    }
  }

  ghost predicate LeadsToSuccessor(s: Process, steps: seq<Step>, key: Hash) {
    Legal(s, steps) && HasSuccessor(Exec(s, steps).lineage, key)
  }

  /**
   Reuse at the awaits, exactly. Once the family of a reused token is revoked, a token its user had, if
   not replaced yet, can still get a successor if and only if a rotation of it is past its check.
   */
  lemma ReuseIsFinalIff(s: Process, id: nat, key: Hash, newHash: Hash)
    requires Enabled(s, RevokeFamily(id)) && key in s.tokens && newHash !in s.tokens
    requires s.tokens[key].userId == s.rotations[id].phase.userId && !HasSuccessor(s.lineage, key)
    ensures var s' := Apply(s, RevokeFamily(id));
            (exists steps :: LeadsToSuccessor(s', steps, key)) <==> UnderWay(s', key)
  {
    var s' := Apply(s, RevokeFamily(id));
    FamilyIsRevoked(s, id, key);
    if UnderWay(s', key) {
      var r :| r in s'.rotations && s'.rotations[r].key == key && Committing(s'.rotations[r].phase);
      RestIssues(s', r, newHash);
      assert LeadsToSuccessor(s', Rest(r, s'.rotations[r].phase, newHash), key);
    } else {
      forall steps | Legal(s', steps) ensures !LeadsToSuccessor(s', steps, key) {
        NoSuccessorEver(s', steps, key);
      }
    }
  }

  // A rotation that nothing interrupts.

  function Checks(id: nat, p: Presentation): seq<Step> {
    [Refresh(id, p.key, p.deviceId), FindRow(id, p.now), LoadUser(id, true)]
  }

  function Writes(id: nat, p: Presentation): seq<Step> {
    [RevokeRow(id), Issue(id, p.newHash, p.newExpiry), Finish(id)]
  }

  lemma ChecksPass(s: Process, id: nat, p: Presentation)
    requires id !in s.rotations && p.key !in s.inFlight
    requires Examine(Find(s.tokens, p.key), p.deviceId, p.now).Good?
    ensures Legal(s, Checks(id, p))
    ensures Exec(s, Checks(id, p))
            == s.(inFlight := s.inFlight[p.key := id],
                  rotations := s.rotations[id := Rotation(p.key, p.deviceId, Revoking(s.tokens[p.key]))])
  {
    var a, b, c := Refresh(id, p.key, p.deviceId), FindRow(id, p.now), LoadUser(id, true);
    ExecSplit(s, a, [b, c]);
    ExecSplit(Apply(s, a), b, [c]);
    ExecSplit(Apply(Apply(s, a), b), c, []);
    assert [a] + [b, c] == Checks(id, p) && [b] + [c] == [b, c] && [c] + [] == [c];
  }

  lemma WritesRotate(s: Process, id: nat, p: Presentation)
    requires id in s.rotations && p.key in s.tokens && p.newHash !in s.tokens
    requires s.rotations[id] == Rotation(p.key, p.deviceId, Revoking(s.tokens[p.key]))
    ensures Legal(s, Writes(id, p))
    ensures var s' := Exec(s, Writes(id, p));
            && s'.tokens == Revoke(s.tokens, {p.key})[p.newHash := Successor(s.tokens[p.key], p.deviceId, p.newExpiry)]
            && s'.lineage == s.lineage[p.newHash := p.key]
            && s'.inFlight == s.inFlight - {p.key}
  {
    var d, e, f := RevokeRow(id), Issue(id, p.newHash, p.newExpiry), Finish(id);
    ExecSplit(s, d, [e, f]);
    ExecSplit(Apply(s, d), e, [f]);
    ExecSplit(Apply(Apply(s, d), e), f, []);
    assert [d] + [e, f] == Writes(id, p) && [e] + [f] == [e, f] && [f] + [] == [f];
  }

  /** The steps of a rotation that nothing interrupts, by what its check finds. */
  function Path(s: Process, id: nat, p: Presentation): seq<Step> {
    match Examine(Find(s.tokens, p.key), p.deviceId, p.now)
    case Good =>
      if p.userExists then Checks(id, p) + Writes(id, p)
      else [Refresh(id, p.key, p.deviceId), FindRow(id, p.now), LoadUser(id, false)]
    case Reused(_) => [Refresh(id, p.key, p.deviceId), FindRow(id, p.now), RevokeFamily(id)]
    case _ => [Refresh(id, p.key, p.deviceId), FindRow(id, p.now)]
  }

  lemma {:induction false} ExecBoth(s: Process, a: seq<Step>, b: seq<Step>)
    requires Legal(s, a) && Legal(Exec(s, a), b)
    ensures Legal(s, a + b) && Exec(s, a + b) == Exec(Exec(s, a), b)
    decreases |a|
  {
    if a == [] {
      assert a + b == b;
    } else {
      assert (a + b)[1..] == a[1..] + b;
      ExecBoth(Apply(s, a[0]), a[1..], b);
    }
  }

  lemma PathOfSuccess(s: Process, id: nat, p: Presentation)
    requires id !in s.rotations && p.key !in s.inFlight && p.newHash !in s.tokens && p.userExists
    requires Examine(Find(s.tokens, p.key), p.deviceId, p.now).Good?
    ensures Legal(s, Path(s, id, p))
    ensures var s' := Exec(s, Path(s, id, p));
            && TokenStore(s'.tokens, s'.lineage) == Rotate(TokenStore(s.tokens, s.lineage), p).1
            && s'.inFlight == s.inFlight
  {
    ChecksPass(s, id, p);
    WritesRotate(Exec(s, Checks(id, p)), id, p);
    ExecBoth(s, Checks(id, p), Writes(id, p));
  }

  lemma ExecTwo(s: Process, a: Step, b: Step)
    requires Enabled(s, a) && Enabled(Apply(s, a), b)
    ensures Legal(s, [a, b]) && Exec(s, [a, b]) == Apply(Apply(s, a), b)
  {
    assert [a] + [b] == [a, b] && [b] + [] == [b];
    ExecSplit(s, a, [b]);
    ExecSplit(Apply(s, a), b, []);
  }

  lemma PathOfRefusal(s: Process, id: nat, p: Presentation)
    requires id !in s.rotations && p.key !in s.inFlight
    requires Examine(Find(s.tokens, p.key), p.deviceId, p.now).Good? ==> !p.userExists
    ensures Legal(s, Path(s, id, p))
    ensures var s' := Exec(s, Path(s, id, p));
            && TokenStore(s'.tokens, s'.lineage) == Rotate(TokenStore(s.tokens, s.lineage), p).1
            && s'.inFlight == s.inFlight
  {
    var a, b := Refresh(id, p.key, p.deviceId), FindRow(id, p.now);
    ExecTwo(s, a, b);
    var found := Apply(Apply(s, a), b);
    var verdict := Examine(Find(s.tokens, p.key), p.deviceId, p.now);
    if verdict.Good? || verdict.Reused? {
      var c := if verdict.Good? then LoadUser(id, false) else RevokeFamily(id);
      assert [c] + [] == [c] && [a, b] + [c] == Path(s, id, p);
      ExecSplit(found, c, []);
      ExecBoth(s, [a, b], [c]);
    }
  }

  /** A rotation that nothing interrupts does to the table what `Rotate` does, whatever its check finds. */
  lemma UninterruptedRotation(s: Process, id: nat, p: Presentation)
    requires id !in s.rotations && p.key !in s.inFlight && p.newHash !in s.tokens
    ensures Legal(s, Path(s, id, p))
    ensures var s' := Exec(s, Path(s, id, p));
            && TokenStore(s'.tokens, s'.lineage) == Rotate(TokenStore(s.tokens, s.lineage), p).1
            && s'.inFlight == s.inFlight
  {
    if Examine(Find(s.tokens, p.key), p.deviceId, p.now).Good? && p.userExists {
      PathOfSuccess(s, id, p);
    } else {
      PathOfRefusal(s, id, p);
    }
  }

  lemma ExecSplit(s: Process, step: Step, rest: seq<Step>)
    ensures Legal(s, [step] + rest) <==> Enabled(s, step) && Legal(Apply(s, step), rest)
    ensures Legal(s, [step] + rest) ==> Exec(s, [step] + rest) == Exec(Apply(s, step), rest)
  {
  }
}
