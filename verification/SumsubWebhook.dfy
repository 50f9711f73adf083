/**
 Ingestion of the identity provider's webhooks. Deliveries may be repeated, reordered and retried.
 A per-user advisory lock makes each status update one transaction, which keeps the event with the
 greatest provider time; a later, unlocked write of the dossier snapshot is guarded by that time.
 */
module SumsubWebhook {
  import opened Wrappers
  import opened Text

  // ---------------------------------------------------------------------------------------------
  // Data
  // ---------------------------------------------------------------------------------------------

  datatype Decision = Approved | Rejected | Pending

  datatype Status = VERIFIED | UNDER_REVIEW | REJECTED | PENDING | Other(text: string)

  /** An ISO 3166 alpha-2 code. */
  predicate IsAlpha2(s: string) {
    |s| == 2 && 'A' <= s[0] <= 'Z' && 'A' <= s[1] <= 'Z'
  }

  type CountryCode = s: string | IsAlpha2(s) witness "MA"

  /** What a country column's text amounts to for this code. */
  datatype Country = Blank | Code(code: CountryCode) | Unusable

  function ReadColumn(text: string): Country {
    var code := ToUpper(Trim(text));
    if code == "" then Blank else if IsAlpha2(code) then Code(code) else Unusable
  }

  /** Copying a `varchar(10)` column trimmed and cut to ten characters keeps what it amounts to. */
  lemma CopyReadsTheSame(text: string)
    requires |text| <= 10
    ensures ReadColumn(Cut(Trim(text), 10)) == ReadColumn(text)
  {
    TrimTrims(text);
    TrimmedIsFixed(Trim(text));
  }

  datatype Kyc = Kyc(
    status: Status,
    lastEventType: Option<string>,
    lastEventAt: Option<int>,
    documentCountry: Country,
    nationality: Country)

  datatype User = User(kycStatus: Status, nationality: Country)

  datatype Account = Account(kyc: Option<Kyc>, user: Option<User>)

  /** A signed payload for this user. Provider times are in milliseconds. */
  datatype Payload = Payload(
    at: int, eventType: Option<string>, reviewStatus: Option<string>, reviewAnswer: Option<string>)

  /** What the status transaction uses of a payload. */
  datatype Event = Event(at: int, storedType: Option<string>, decision: Decision)

  /** What the payload or the applicant lookup says of the countries: a known code or nothing. */
  datatype Identity = Identity(documentCountry: Option<CountryCode>, nationality: Option<CountryCode>)

  /** One delivery attempt. `persists` is false when its transaction fails, which asks for a retry. */
  datatype Delivery = Delivery(event: Event, identity: Identity, persists: bool)

  // ---------------------------------------------------------------------------------------------
  // The status transaction
  // ---------------------------------------------------------------------------------------------

  /** `mapSumsubEventToKycStatus` */
  function MapEvent(p: Payload): Decision {
    var eventType := ToLower(p.eventType.GetOr(""));
    var reviewStatus := ToLower(p.reviewStatus.GetOr(""));
    var reviewAnswer := ToUpper(p.reviewAnswer.GetOr(""));
    if reviewAnswer == "GREEN" then Approved
    else if reviewAnswer == "RED" then Rejected
    else if reviewStatus == "completed" then
      if Includes(eventType, "workflowfailed") || Includes(eventType, "deactivated") || Includes(eventType, "deleted")
      then Rejected else Approved
    else Pending
  }

  function StoredEventType(p: Payload): Option<string> {
    var text := Cut(p.eventType.GetOr("sumsubStatusSync"), 100);
    if text == "" then None else Some(text)
  }

  function Receive(p: Payload): Event {
    Event(p.at, StoredEventType(p), MapEvent(p))
  }

  function Fill(column: Country, code: Option<CountryCode>): Country {
    if code.Some? && column.Blank? then Code(code.value) else column
  }

  /** `applyProviderIdentityToKyc`, for the two country columns: only empty ones are filled. */
  function Filled(kyc: Kyc, id: Identity): Kyc {
    kyc.(documentCountry := Fill(kyc.documentCountry, id.documentCountry),
         nationality := Fill(kyc.nationality, id.nationality))
  }

  function ResolveIssuerCountryCode(kyc: Kyc, user: Option<User>): Option<CountryCode> {
    if kyc.documentCountry.Code? then Some(kyc.documentCountry.code)
    else if user.Some? && user.value.nationality.Code? then Some(user.value.nationality.code)
    else if kyc.nationality.Code? then Some(kyc.nationality.code)
    else None
  }

  const NEW_KYC := Kyc(Other(""), None, None, Blank, Blank)

  function StatusFor(decision: Decision, country: Option<CountryCode>): Status {
    match decision
    case Approved => if country.Some? then VERIFIED else UNDER_REVIEW
    case Rejected => REJECTED
    case Pending => PENDING
  }

  /** `applySumsubReviewStatus`, then the write of the event time. */
  function ApplyEvent(a: Account, e: Event, id: Identity): Account {
    var kyc := Filled(a.kyc.GetOr(NEW_KYC), id);
    var country := ResolveIssuerCountryCode(kyc, a.user);
    var status := StatusFor(e.decision, country);
    var documentCountry :=
      if e.decision.Approved? && country.Some? && kyc.documentCountry.Blank? then Code(country.value)
      else kyc.documentCountry;
    Account(
      Some(Kyc(status, e.storedType, Some(e.at), documentCountry, kyc.nationality)),
      match a.user
      case None => None
      case Some(user) => Some(User(status, CopiedNationality(user.nationality, kyc.nationality))))
  }

  function CopiedNationality(mine: Country, profile: Country): Country {
    if mine.Blank? then profile else mine
  }

  predicate IsStale(a: Account, e: Event) {
    a.kyc.Some? && a.kyc.value.lastEventAt.Some? && e.at <= a.kyc.value.lastEventAt.value
  }

  function Deliver(a: Account, d: Delivery): Account {
    if IsStale(a, d.event) || !d.persists then a else ApplyEvent(a, d.event, d.identity)
  }

  /** The KYC and user rows, updated in place by the webhook's transaction. */
  class KycRows {
    var kyc: Option<Kyc>
    var user: Option<User>

    ghost function Abstract(): Account
      reads this
    {
      Account(kyc, user)
    }

    constructor (a: Account)
      ensures Abstract() == a
    {
      kyc, user := a.kyc, a.user;
    }

    /** Answers whether the event was applied. */
    method ProcessSumsubWebhook(p: Payload, id: Identity) returns (updated: bool)
      modifies this
      ensures Abstract() == Deliver(old(Abstract()), Delivery(Receive(p), id, true))
      ensures updated == !IsStale(old(Abstract()), Receive(p))
    {
      var e := Receive(p);
      if kyc.Some? && kyc.value.lastEventAt.Some? && e.at <= kyc.value.lastEventAt.value {
        return false;
      }
      ApplySumsubReviewStatus(e, id);
      kyc := Some(kyc.value.(lastEventAt := Some(e.at)));
      return true;
    }

    method ApplySumsubReviewStatus(e: Event, id: Identity)
      modifies this
      ensures kyc.Some?
      ensures Account(Some(kyc.value.(lastEventAt := Some(e.at))), user) == ApplyEvent(old(Abstract()), e, id)
    {
      var row := if kyc.Some? then kyc.value else NEW_KYC;
      row := row.(lastEventType := e.storedType);
      row := ApplyProviderIdentityToKyc(row, id);
      var country := ResolveIssuerCountryCode(row, user);
      row := Decide(row, e.decision, country);
      kyc := Some(row);
      if user.Some? {
        var u := user.value.(kycStatus := row.status);
        user := Some(u.(nationality := CopiedNationality(u.nationality, row.nationality)));
      }
    }

    static method ApplyProviderIdentityToKyc(kyc: Kyc, id: Identity) returns (row: Kyc)
      ensures row == Filled(kyc, id)
    {
      row := kyc;
      if id.documentCountry.Some? && row.documentCountry.Blank? {
        row := row.(documentCountry := Code(id.documentCountry.value));
      }
      if id.nationality.Some? && row.nationality.Blank? {
        row := row.(nationality := Code(id.nationality.value));
      }
    }

    static method Decide(kyc: Kyc, decision: Decision, country: Option<CountryCode>) returns (row: Kyc)
      ensures row == kyc.(status := StatusFor(decision, country),
                          documentCountry := if decision.Approved? && country.Some? && kyc.documentCountry.Blank?
                                             then Code(country.value) else kyc.documentCountry)
    {
      row := kyc.(status := if decision == Rejected then REJECTED else PENDING);
      if decision == Approved {
        if country == None {
          row := row.(status := UNDER_REVIEW);
        } else {
          if row.documentCountry.Blank? {
            row := row.(documentCountry := Code(country.value));
          }
          row := row.(status := VERIFIED);
        }
      }
    }
  }

  // ---------------------------------------------------------------------------------------------
  // Convergence
  // ---------------------------------------------------------------------------------------------

  function Run(a: Account, ds: seq<Delivery>): Account {
    if ds == [] then a else Deliver(Run(a, ds[..|ds| - 1]), ds[|ds| - 1])
  }

  predicate Before(a: Account, t: int) {
    a.kyc == None || a.kyc.value.lastEventAt == None || a.kyc.value.lastEventAt.value < t
  }

  /** The account has taken `latest` in, as its last event. */
  predicate Reflects(a: Account, latest: Event) {
    && a.kyc.Some?
    && a.kyc.value.lastEventAt == Some(latest.at)
    && a.kyc.value.lastEventType == latest.storedType
    && (a.kyc.value.status == StatusFor(latest.decision, None)
        || a.kyc.value.status == StatusFor(latest.decision, Some("MA")))
    && (a.user.Some? ==> a.user.value.kycStatus == a.kyc.value.status)
  }

  /** `latest` has the greatest provider time of the deliveries that persist, and has it alone. */
  ghost predicate IsLatest(ds: seq<Delivery>, latest: Event) {
    forall d :: d in ds && d.persists ==> d.event.at < latest.at || d.event == latest
  }

  ghost predicate Delivered(ds: seq<Delivery>, e: Event) {
    exists d :: d in ds && d.persists && d.event == e
  }

  lemma DeliveredLast(ds: seq<Delivery>, e: Event)
    requires ds != []
    ensures var last := ds[|ds| - 1];
            Delivered(ds, e) <==> Delivered(ds[..|ds| - 1], e) || (last.persists && last.event == e)
  {
  }

  lemma {:induction false} RunTracksLatest(a: Account, ds: seq<Delivery>, latest: Event)
    requires Before(a, latest.at) && IsLatest(ds, latest)
    ensures if Delivered(ds, latest) then Reflects(Run(a, ds), latest) else Before(Run(a, ds), latest.at)
    decreases |ds|
  {
    if ds != [] {
      var n := |ds| - 1;
      RunTracksLatest(a, ds[..n], latest);
      DeliveredLast(ds, latest);
      assert ds[n] in ds;
    }
  }

  /**
   Last writer by provider time wins: whatever the order, the repeats and the failed attempts, once
   the latest event has persisted the account shows its time, its type and its decision.
   */
  lemma LatestEventWins(a: Account, ds: seq<Delivery>, latest: Event)
    requires Before(a, latest.at) && IsLatest(ds, latest) && Delivered(ds, latest)
    ensures Reflects(Run(a, ds), latest)
  {
    RunTracksLatest(a, ds, latest);
  }

  // ---------------------------------------------------------------------------------------------
  // The stored status
  // ---------------------------------------------------------------------------------------------

  /** Would an approval find an issuer country now? */
  predicate Resolvable(a: Account) {
    ResolveIssuerCountryCode(a.kyc.GetOr(NEW_KYC), a.user).Some?
  }

  /** Would an approval find one after filling the empty columns from `id`? */
  predicate ResolvableWith(a: Account, id: Identity) {
    ResolveIssuerCountryCode(Filled(a.kyc.GetOr(NEW_KYC), id), a.user).Some?
  }

  /** Does `id` bring a country into a column that is empty? */
  predicate Supplies(a: Account, id: Identity) {
    var kyc := a.kyc.GetOr(NEW_KYC);
    || (id.documentCountry.Some? && kyc.documentCountry.Blank?)
    || (id.nationality.Some? && kyc.nationality.Blank?)
  }

  lemma ResolvableWithIff(a: Account, id: Identity)
    ensures ResolvableWith(a, id) <==> Resolvable(a) || Supplies(a, id)
  {
  }

  /** Applying an event never loses a country, and brings one in exactly if its identity does. */
  lemma ApplyResolves(a: Account, e: Event, id: Identity)
    ensures Resolvable(ApplyEvent(a, e, id)) <==> Resolvable(a) || Supplies(a, id)
    ensures ApplyEvent(a, e, id).kyc.value.status
            == StatusFor(e.decision, if Resolvable(a) || Supplies(a, id) then Some("MA") else None)
  {
  }

  /** An event that brings no country into an account without one leaves its empty columns empty. */
  lemma ApplyKeepsGaps(a: Account, e: Event, id: Identity, other: Identity)
    requires !Resolvable(a) && !Supplies(a, id)
    ensures Supplies(ApplyEvent(a, e, id), other) <==> Supplies(a, other)
  {
  }

  /** One delivery, before or after the latest event has been taken in. */
  lemma DeliverKeepsStatus(a: Account, d: Delivery, latest: Event)
    requires Reflects(a, latest) && (d.persists ==> d.event.at < latest.at || d.event == latest)
    ensures Deliver(a, d) == a
  {
  }

  /** An account with a country resolves every approval: the status then depends on the latest event alone. */
  lemma {:induction false} ResolvableConverges(a: Account, ds: seq<Delivery>, latest: Event)
    requires Before(a, latest.at) && IsLatest(ds, latest) && Resolvable(a)
    ensures Resolvable(Run(a, ds))
    ensures Delivered(ds, latest) ==>
              Run(a, ds).kyc.Some? && Run(a, ds).kyc.value.status == StatusFor(latest.decision, Some("MA"))
    decreases |ds|
  {
    if ds != [] {
      var n := |ds| - 1;
      var mid := Run(a, ds[..n]);
      ResolvableConverges(a, ds[..n], latest);
      RunTracksLatest(a, ds[..n], latest);
      DeliveredLast(ds, latest);
      assert ds[n] in ds;
      if Delivered(ds[..n], latest) {
        DeliverKeepsStatus(mid, ds[n], latest);
      } else {
        ApplyResolves(mid, ds[n].event, ds[n].identity);
        ResolvableWithIff(mid, ds[n].identity);
      }
    }
  }

  /**
   If an issuer country was resolvable at the start, any two runs of deliveries with the same latest
   event end with the same status, on the profile and on the user.
   */
  lemma StatusConverges(a: Account, ds: seq<Delivery>, ds': seq<Delivery>, latest: Event)
    requires Before(a, latest.at) && Resolvable(a)
    requires IsLatest(ds, latest) && Delivered(ds, latest)
    requires IsLatest(ds', latest) && Delivered(ds', latest)
    ensures Run(a, ds).kyc.Some? && Run(a, ds').kyc.Some?
    ensures Run(a, ds).kyc.value.status == Run(a, ds').kyc.value.status
    ensures Run(a, ds).user.Some? && Run(a, ds').user.Some? ==>
              Run(a, ds).user.value.kycStatus == Run(a, ds').user.value.kycStatus
  {
    ResolvableConverges(a, ds, latest);
    ResolvableConverges(a, ds', latest);
    LatestEventWins(a, ds, latest);
    LatestEventWins(a, ds', latest);
  }

  // ---------------------------------------------------------------------------------------------
  // The country columns
  // ---------------------------------------------------------------------------------------------

  function DocumentOf(a: Account): Country {
    if a.kyc.Some? then a.kyc.value.documentCountry else Blank
  }

  function NationalityOf(a: Account): Country {
    if a.kyc.Some? then a.kyc.value.nationality else Blank
  }

  /**
   The issuer country after an approval: what is there stays, even if unusable; else the document country
   that was supplied, else the user's nationality, else the profile's own, else the one supplied.
   */
  lemma ApprovalSetsIssuer(a: Account, e: Event, id: Identity)
    requires e.decision.Approved?
    ensures DocumentOf(ApplyEvent(a, e, id))
            == if !DocumentOf(a).Blank? then DocumentOf(a)
               else if id.documentCountry.Some? then Code(id.documentCountry.value)
               else if a.user.Some? && a.user.value.nationality.Code? then a.user.value.nationality
               else if NationalityOf(a).Code? then NationalityOf(a)
               else if NationalityOf(a).Blank? && id.nationality.Some? then Code(id.nationality.value)
               else Blank
  {
  }

  /** Any other event writes there only what was supplied, and only into an empty column. */
  lemma OtherEventsSetIssuer(a: Account, e: Event, id: Identity)
    requires !e.decision.Approved?
    ensures DocumentOf(ApplyEvent(a, e, id))
            == if DocumentOf(a).Blank? && id.documentCountry.Some? then Code(id.documentCountry.value)
               else DocumentOf(a)
  {
  }

  /** Nationalities: an empty profile column takes what was supplied, and an empty user column follows it. */
  lemma EventSetsNationality(a: Account, e: Event, id: Identity)
    ensures var a' := ApplyEvent(a, e, id);
            && NationalityOf(a')
               == (if NationalityOf(a).Blank? && id.nationality.Some? then Code(id.nationality.value)
                   else NationalityOf(a))
            && (a'.user.Some? <==> a.user.Some?)
            && (a.user.Some? ==>
                  && a'.user.value.kycStatus == a'.kyc.value.status
                  && a'.user.value.nationality
                     == if a.user.value.nationality.Blank? then NationalityOf(a') else a.user.value.nationality)
  {
  }

  /** No delivery ever changes a country column that is not empty, on either row. */
  lemma {:induction false} FilledColumnsStay(a: Account, ds: seq<Delivery>)
    ensures var a' := Run(a, ds);
            && (!DocumentOf(a).Blank? ==> DocumentOf(a') == DocumentOf(a))
            && (!NationalityOf(a).Blank? ==> NationalityOf(a') == NationalityOf(a))
            && (a'.user.Some? <==> a.user.Some?)
            && (a.user.Some? && !a.user.value.nationality.Blank? ==>
                  a'.user.value.nationality == a.user.value.nationality)
    decreases |ds|
  {
    if ds != [] {
      var mid := Run(a, ds[..|ds| - 1]);
      var d := ds[|ds| - 1];
      FilledColumnsStay(a, ds[..|ds| - 1]);
      EventSetsNationality(mid, d.event, d.identity);
      if d.event.decision.Approved? {
        ApprovalSetsIssuer(mid, d.event, d.identity);
      } else {
        OtherEventsSetIssuer(mid, d.event, d.identity);
      }
    }
  }

  /**
   From payloads to the stored status, for an account with a country: an answer decides, in any letter
   case; without one a completed review approves, unless the event ended the applicant; anything else
   is pending. The time is stored, and the type cut to 100 characters, with a stand-in for a missing one.
   */
  lemma FinalStatusFromPayload(a: Account, ds: seq<Delivery>, p: Payload)
    requires Before(a, p.at) && Resolvable(a) && IsLatest(ds, Receive(p)) && Delivered(ds, Receive(p))
    ensures Run(a, ds).kyc.Some?
    ensures var kyc := Run(a, ds).kyc.value;
            var answer := ToUpper(p.reviewAnswer.GetOr(""));
            var completed := ToLower(p.reviewStatus.GetOr("")) == "completed";
            var ended := EndsApplicant(ToLower(p.eventType.GetOr("")));
            && kyc.lastEventAt == Some(p.at)
            && kyc.lastEventType == (match p.eventType
                                     case None => Some("sumsubStatusSync")
                                     case Some("") => None
                                     case Some(text) => Some(if |text| <= 100 then text else text[..100]))
            && (kyc.status == VERIFIED <==> answer == "GREEN" || (answer != "RED" && completed && !ended))
            && (kyc.status == REJECTED <==> answer == "RED" || (answer != "GREEN" && completed && ended))
            && (kyc.status == PENDING <==> answer != "GREEN" && answer != "RED" && !completed)
  {
    ResolvableConverges(a, ds, Receive(p));
    LatestEventWins(a, ds, Receive(p));
    assert |"GREEN"| != |"RED"|;
  }

  predicate EndsApplicant(eventType: string) {
    exists word :: word in {"workflowfailed", "deactivated", "deleted"} && Includes(eventType, word)
  }

  // ---------------------------------------------------------------------------------------------
  // Exactly when the status converges
  // ---------------------------------------------------------------------------------------------

  /** What the payload of an event and the applicant lookups during its deliveries may say. */
  type Identities = Event -> iset<Identity>

  /** Deliveries of exactly the events of `events`, each at least once with success, with any of its identities. */
  ghost predicate Complete(ds: seq<Delivery>, events: set<Event>, identities: Identities) {
    && (forall d :: d in ds ==> d.event in events && d.identity in identities(d.event))
    && (forall e :: e in events ==> Delivered(ds, e))
  }

  ghost predicate LatestOf(events: set<Event>, latest: Event) {
    latest in events && forall e :: e in events ==> e.at < latest.at || e == latest
  }

  lemma {:induction false} TimeOnlyAdvances(a: Account, ds: seq<Delivery>, t: int)
    requires !Before(a, t)
    ensures !Before(Run(a, ds), t)
    decreases |ds|
  {
    if ds != [] {
      TimeOnlyAdvances(a, ds[..|ds| - 1], t);
    }
  }

  /** No event newer than the account brings in a country, so none is found. */
  lemma {:induction false} NothingSupplied(a: Account, ds: seq<Delivery>, latest: Event)
    requires Before(a, latest.at) && IsLatest(ds, latest)
    requires !Resolvable(a) && forall d :: d in ds && Before(a, d.event.at) ==> !Supplies(a, d.identity)
    ensures var s := Run(a, ds);
            && !Resolvable(s)
            && (forall id :: Supplies(s, id) <==> Supplies(a, id))
            && (Delivered(ds, latest) ==> s.kyc.Some? && s.kyc.value.status == StatusFor(latest.decision, None))
    decreases |ds|
  {
    if ds != [] {
      var n := |ds| - 1;
      var mid := Run(a, ds[..n]);
      NothingSupplied(a, ds[..n], latest);
      RunTracksLatest(a, ds[..n], latest);
      DeliveredLast(ds, latest);
      assert ds[n] in ds;
      if Delivered(ds[..n], latest) {
        DeliverKeepsStatus(mid, ds[n], latest);
      } else if !Before(a, ds[n].event.at) {
        TimeOnlyAdvances(a, ds[..n], ds[n].event.at);
      } else {
        ApplyResolves(mid, ds[n].event, ds[n].identity);
        forall id ensures Supplies(Run(a, ds), id) <==> Supplies(a, id) {
          ApplyKeepsGaps(mid, ds[n].event, ds[n].identity, id);
        }
      }
    }
  }

  /** Does every one of these identities bring a country in? */
  ghost predicate AllSupply(a: Account, ids: iset<Identity>) {
    forall id :: id in ids ==> Supplies(a, id)
  }

  /** The latest event brings its own country whatever is looked up, so it is found whatever came before. */
  lemma {:induction false} LatestSupplies(a: Account, ds: seq<Delivery>, latest: Event, ids: iset<Identity>)
    requires Before(a, latest.at) && IsLatest(ds, latest) && AllSupply(a, ids)
    requires forall d :: d in ds && d.event == latest ==> d.identity in ids
    ensures Resolvable(Run(a, ds)) || AllSupply(Run(a, ds), ids)
    ensures Delivered(ds, latest) ==>
              Run(a, ds).kyc.Some? && Run(a, ds).kyc.value.status == StatusFor(latest.decision, Some("MA"))
    decreases |ds|
  {
    if ds != [] {
      var n := |ds| - 1;
      var mid := Run(a, ds[..n]);
      LatestSupplies(a, ds[..n], latest, ids);
      RunTracksLatest(a, ds[..n], latest);
      DeliveredLast(ds, latest);
      assert ds[n] in ds;
      if Delivered(ds[..n], latest) {
        DeliverKeepsStatus(mid, ds[n], latest);
      } else {
        ApplyResolves(mid, ds[n].event, ds[n].identity);
        ResolvableWithIff(mid, ds[n].identity);
        if !Resolvable(mid) && !Supplies(mid, ds[n].identity) {
          forall id | id in ids ensures Supplies(ApplyEvent(mid, ds[n].event, ds[n].identity), id) {
            ApplyKeepsGaps(mid, ds[n].event, ds[n].identity, id);
          }
        }
      }
    }
  }

  /**
   Is the status left to the order of delivery and the lookups? The latest event approves and may come
   without a country, and some event that is not stale may bring one.
   */
  ghost predicate OrderDecides(a: Account, events: set<Event>, identities: Identities, latest: Event) {
    && latest.decision.Approved?
    && !Resolvable(a)
    && !AllSupply(a, identities(latest))
    && exists e, id :: e in events && id in identities(e) && Before(a, e.at) && Supplies(a, id)
  }

  function StatusOf(a: Account): Status {
    a.kyc.GetOr(NEW_KYC).status
  }

  lemma CompleteRunStatus(a: Account, ds: seq<Delivery>, events: set<Event>, identities: Identities, latest: Event)
    requires LatestOf(events, latest) && Before(a, latest.at) && Complete(ds, events, identities)
    requires !OrderDecides(a, events, identities, latest)
    ensures StatusOf(Run(a, ds))
            == StatusFor(latest.decision,
                         if Resolvable(a) || AllSupply(a, identities(latest)) then Some("MA") else None)
  {
    assert IsLatest(ds, latest) && Delivered(ds, latest);
    if Resolvable(a) {
      ResolvableConverges(a, ds, latest);
    } else if AllSupply(a, identities(latest)) {
      LatestSupplies(a, ds, latest, identities(latest));
    } else if latest.decision.Approved? {
      forall d | d in ds && Before(a, d.event.at) ensures !Supplies(a, d.identity) {
        assert d.event in events && d.identity in identities(d.event);
      }
      NothingSupplied(a, ds, latest);
    } else {
      LatestEventWins(a, ds, latest);
    }
  }

  lemma {:induction false} RunConcat(a: Account, xs: seq<Delivery>, ys: seq<Delivery>)
    ensures Run(a, xs + ys) == Run(Run(a, xs), ys)
    decreases |ys|
  {
    if ys == [] {
      assert xs + ys == xs;
    } else {
      var n := |ys| - 1;
      assert (xs + ys)[..|xs + ys| - 1] == xs + ys[..n];
      RunConcat(a, xs, ys[..n]);
    }
  }

  lemma {:induction false} RestIsStale(a: Account, ds: seq<Delivery>, latest: Event)
    requires Reflects(a, latest) && IsLatest(ds, latest)
    ensures Run(a, ds) == a
    decreases |ds|
  {
    if ds != [] {
      RestIsStale(a, ds[..|ds| - 1], latest);
      assert ds[|ds| - 1] in ds;
      DeliverKeepsStatus(a, ds[|ds| - 1], latest);
    }
  }

  /** Every event has some identity. */
  ghost predicate Answered(events: set<Event>, identities: Identities) {
    forall e :: e in events ==> identities(e) != iset{}
  }

  lemma {:induction false} SomeCompleteRun(events: set<Event>, identities: Identities) returns (ds: seq<Delivery>)
    requires Answered(events, identities)
    ensures Complete(ds, events, identities)
    decreases |events|
  {
    if events == {} {
      ds := [];
    } else {
      var e :| e in events;
      var id :| id in identities(e);
      var rest := SomeCompleteRun(events - {e}, identities);
      var d := Delivery(e, id, true);
      ds := [d] + rest;
      forall x | x in events ensures Delivered(ds, x) {
        if x == e {
          assert d in ds;
        } else {
          assert x in events - {e} && Delivered(rest, x);
          var y :| y in rest && y.persists && y.event == x;
          assert y in ds;
        }
      }
    }
  }

  /** Delivering `first`, then everything: the status is the one after `first`, if that takes the latest event in. */
  lemma LedBy(
      a: Account, first: seq<Delivery>, ds: seq<Delivery>, events: set<Event>, identities: Identities, latest: Event)
    requires LatestOf(events, latest) && Complete(ds, events, identities) && Reflects(Run(a, first), latest)
    requires forall d :: d in first ==> d.event in events && d.identity in identities(d.event)
    ensures Complete(first + ds, events, identities)
    ensures StatusOf(Run(a, first + ds)) == StatusOf(Run(a, first))
  {
    forall e | e in events ensures Delivered(first + ds, e) {
      var d :| d in ds && d.persists && d.event == e;
      assert d in first + ds;
    }
    RunConcat(a, first, ds);
    RestIsStale(Run(a, first), ds, latest);
  }

  /** The latest event alone, with an identity that brings nothing. */
  lemma LatestAlone(a: Account, latest: Event, id: Identity)
    requires Before(a, latest.at) && latest.decision.Approved?
    ensures var s := Run(a, [Delivery(latest, id, true)]);
            && Reflects(s, latest)
            && StatusOf(s) == if Resolvable(a) || Supplies(a, id) then VERIFIED else UNDER_REVIEW
  {
    var d := Delivery(latest, id, true);
    assert [d][..0] == [] && Run(a, []) == a && Run(a, [d]) == ApplyEvent(a, latest, id);
    ApplyResolves(a, latest, id);
  }

  /** The latest event after an older one that brings a country. */
  lemma LatestAfter(a: Account, e: Event, supplying: Identity, latest: Event, id: Identity)
    requires Before(a, e.at) && e.at < latest.at && latest.decision.Approved? && Supplies(a, supplying)
    ensures var s := Run(a, [Delivery(e, supplying, true), Delivery(latest, id, true)]);
            Reflects(s, latest) && StatusOf(s) == VERIFIED
  {
    var de, dl := Delivery(e, supplying, true), Delivery(latest, id, true);
    assert [de, dl][..1] == [de] && [de][..0] == [];
    assert Run(a, []) == a && Run(a, [de]) == ApplyEvent(a, e, supplying);
    ApplyResolves(a, e, supplying);
    ApplyResolves(Run(a, [de]), latest, id);
  }

  /** When the order decides, here are two complete deliveries that end differently. */
  lemma OrderShows(a: Account, events: set<Event>, identities: Identities, latest: Event)
    returns (ds: seq<Delivery>, ds': seq<Delivery>)
    requires LatestOf(events, latest) && Before(a, latest.at) && Answered(events, identities)
    requires OrderDecides(a, events, identities, latest)
    ensures Complete(ds, events, identities) && Complete(ds', events, identities)
    ensures StatusOf(Run(a, ds)) == VERIFIED && StatusOf(Run(a, ds')) == UNDER_REVIEW
  {
    var bare :| bare in identities(latest) && !Supplies(a, bare);
    var e, id :| e in events && id in identities(e) && Before(a, e.at) && Supplies(a, id);
    var rest := SomeCompleteRun(events, identities);
    var with := if e == latest then [Delivery(latest, id, true)]
                else [Delivery(e, id, true), Delivery(latest, bare, true)];
    if e == latest {
      LatestAlone(a, latest, id);
    } else {
      LatestAfter(a, e, id, latest, bare);
    }
    LedBy(a, with, rest, events, identities, latest);
    LatestAlone(a, latest, bare);
    LedBy(a, [Delivery(latest, bare, true)], rest, events, identities, latest);
    ds, ds' := with + rest, [Delivery(latest, bare, true)] + rest;
  }

  /**
   The exact condition: all complete deliveries of a set of events end with one status, whatever their
   order and whatever is looked up during each, unless the latest event approves and may come without a
   country while some event may bring one.
   */
  lemma StatusConvergesIff(a: Account, events: set<Event>, identities: Identities, latest: Event)
    requires LatestOf(events, latest) && Before(a, latest.at) && Answered(events, identities)
    ensures (forall ds, ds' :: Complete(ds, events, identities) && Complete(ds', events, identities) ==>
               StatusOf(Run(a, ds)) == StatusOf(Run(a, ds')))
            <==> !OrderDecides(a, events, identities, latest)
  {
    if OrderDecides(a, events, identities, latest) {
      var ds, ds' := OrderShows(a, events, identities, latest);
    } else {
      forall ds, ds' | Complete(ds, events, identities) && Complete(ds', events, identities)
        ensures StatusOf(Run(a, ds)) == StatusOf(Run(a, ds'))
      {
        CompleteRunStatus(a, ds, events, identities, latest);
        CompleteRunStatus(a, ds', events, identities, latest);
      }
    }
  }

  // ---------------------------------------------------------------------------------------------
  // The dossier snapshot, written outside the transaction
  // ---------------------------------------------------------------------------------------------

  /**
   The two columns involved: the committed event time, and the event time behind the stored snapshot.
   `pending` holds the times of committed events whose snapshot write is still to come, `writes` the
   times of the writes that took effect.
   */
  datatype Dossier = Dossier(
    lastEventAt: Option<int>, snapshotOf: Option<int>, pending: multiset<int>, writes: seq<int>)

  datatype DossierStep = Commit(at: int, syncs: bool) | WriteSnapshot(at: int) | GiveUp(at: int)

  predicate DossierEnabled(d: Dossier, step: DossierStep) {
    match step
    case Commit(at, _) => d.lastEventAt == None || d.lastEventAt.value < at
    case WriteSnapshot(at) => at in d.pending
    case GiveUp(at) => at in d.pending
  }

  function DossierApply(d: Dossier, step: DossierStep): Dossier {
    match step
    case Commit(at, syncs) =>
      d.(lastEventAt := Some(at), pending := d.pending + if syncs then multiset{at} else multiset{})
    case WriteSnapshot(at) =>
      // The update is conditioned on the event time still being the one of this event.
      if d.lastEventAt == Some(at)
      then d.(snapshotOf := Some(at), pending := d.pending - multiset{at}, writes := d.writes + [at])
      else d.(pending := d.pending - multiset{at})
    case GiveUp(at) => d.(pending := d.pending - multiset{at})
  }

  predicate DossierLegal(d: Dossier, steps: seq<DossierStep>)
    decreases |steps|
  {
    steps == [] || (DossierEnabled(d, steps[0]) && DossierLegal(DossierApply(d, steps[0]), steps[1..]))
  }

  function DossierExec(d: Dossier, steps: seq<DossierStep>): Dossier
    decreases |steps|
  {
    if steps == [] then d else DossierExec(DossierApply(d, steps[0]), steps[1..])
  }

  /** Writes taken so far are in order of event time, none newer than the committed one. */
  ghost predicate DossierInv(d: Dossier) {
    && (forall i, j :: 0 <= i < j < |d.writes| ==> d.writes[i] <= d.writes[j])
    && (d.writes != [] ==> d.lastEventAt.Some? && d.writes[|d.writes| - 1] <= d.lastEventAt.value)
    && (d.writes != [] ==> d.snapshotOf == Some(d.writes[|d.writes| - 1]))
  }

  /** From `d` on, the committed time has not gone back and no older write has taken effect. */
  ghost predicate Advances(d: Dossier, d': Dossier) {
    && d.writes <= d'.writes
    && (d.lastEventAt.Some? ==>
          && d'.lastEventAt.Some? && d.lastEventAt.value <= d'.lastEventAt.value
          && forall i :: |d.writes| <= i < |d'.writes| ==> d.lastEventAt.value <= d'.writes[i])
  }

  lemma DossierStepAdvances(d: Dossier, step: DossierStep)
    requires DossierInv(d) && DossierEnabled(d, step)
    ensures DossierInv(DossierApply(d, step)) && Advances(d, DossierApply(d, step))
  {
  }

  lemma AdvancesTransitive(a: Dossier, b: Dossier, c: Dossier)
    requires Advances(a, b) && Advances(b, c)
    ensures Advances(a, c)
  {
  }

  /**
   In every interleaving of status commits and later snapshot writes: the event time behind the stored
   snapshot never goes back, and once an event is committed no older event's write takes effect.
   */
  lemma {:induction false} SnapshotNeverGoesBack(d: Dossier, steps: seq<DossierStep>)
    requires DossierInv(d) && DossierLegal(d, steps)
    ensures DossierInv(DossierExec(d, steps)) && Advances(d, DossierExec(d, steps))
    decreases |steps|
  {
    if steps != [] {
      var mid := DossierApply(d, steps[0]);
      DossierStepAdvances(d, steps[0]);
      SnapshotNeverGoesBack(mid, steps[1..]);
      AdvancesTransitive(d, mid, DossierExec(mid, steps[1..]));
    }
  }

  /** The committed event time of an account. */
  function EventTime(a: Account): Option<int> {
    if a.kyc.Some? then a.kyc.value.lastEventAt else None
  }

  /**
   A delivery is a commit of the dossier's run: it is applied exactly if it persists and the commit is
   enabled, and then both show the same event time; otherwise it leaves the account as it was.
   */
  lemma DeliveryIsCommit(a: Account, d: Delivery, dossier: Dossier, syncs: bool)
    requires dossier.lastEventAt == EventTime(a)
    ensures var commit := Commit(d.event.at, syncs);
            if d.persists && DossierEnabled(dossier, commit) then
              EventTime(Deliver(a, d)) == Some(d.event.at) == DossierApply(dossier, commit).lastEventAt
            else Deliver(a, d) == a
    ensures DossierEnabled(dossier, Commit(d.event.at, syncs)) <==> !IsStale(a, d.event)
  {
  }

  /** A write takes effect exactly if its event is still the committed one; otherwise nothing is written. */
  lemma CurrentSnapshotIsWritten(d: Dossier, at: int)
    requires DossierEnabled(d, WriteSnapshot(at))
    ensures var d' := DossierApply(d, WriteSnapshot(at));
            && (d'.writes == d.writes + [at] <==> d.lastEventAt == Some(at))
            && (d'.writes == d.writes <==> d.lastEventAt != Some(at))
            && (if d.lastEventAt == Some(at) then d'.snapshotOf == Some(at) else d'.snapshotOf == d.snapshotOf)
  {
  }
}
