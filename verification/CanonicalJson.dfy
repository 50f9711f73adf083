/**
 The canonical form of a request payload, whose hash is the payload's identity under an idempotency
 key: object members in a fixed order, `idempotency_key` members dropped at every depth.

 Objects are member lists in enumeration order, since printing shows that order. JavaScript
 enumerates integer-like keys first and in numeric order, and an assignment to `__proto__` sets the
 prototype instead of a member; both are modelled.
 */
module CanonicalJson {
  datatype Json =
    | Null
    | Bool(b: bool)
    | Num(n: real)
    | Str(s: string)
    | Arr(items: seq<Json>)
    | Obj(members: seq<Member>)

  datatype Member = Member(key: string, value: Json)

  const IGNORED := "idempotency_key"
  const PROTO := "__proto__"

  /** Does a member with this key reach the canonical form? */
  predicate Relevant(key: string) {
    key != IGNORED && key != PROTO
  }

  ghost predicate DistinctKeys(ms: seq<Member>) {
    forall i, j :: 0 <= i < j < |ms| ==> ms[i].key != ms[j].key
  }

  /** Keys are distinct at every depth, as in every parsed JSON document. */
  ghost predicate WellFormed(j: Json) {
    match j
    case Arr(items) => forall x :: x in items ==> WellFormed(x)
    case Obj(ms) => DistinctKeys(ms) && forall m :: m in ms ==> WellFormed(m.value)
    case _ => true
  }

  // ---------------------------------------------------------------------------------------------
  // Key orders
  // ---------------------------------------------------------------------------------------------

  /** The order of `sort()`. */
  predicate KeyLess(a: string, b: string) {
    b != "" && (a == "" || a[0] < b[0] || (a[0] == b[0] && KeyLess(a[1..], b[1..])))
  }

  lemma KeyLessIrreflexive(a: string)
    ensures !KeyLess(a, a)
  {
  }

  lemma KeyLessTransitive(a: string, b: string, c: string)
    requires KeyLess(a, b) && KeyLess(b, c)
    ensures KeyLess(a, c)
  {
  }

  lemma KeyLessTotal(a: string, b: string)
    ensures a == b || KeyLess(a, b) || KeyLess(b, a)
  {
  }

  const MAX_INDEX := "4294967294"

  /** Is the key the decimal form of an array index, up to 2^32 - 2? */
  predicate IsIndex(key: string) {
    && 1 <= |key| <= 10
    && (forall i :: 0 <= i < |key| ==> '0' <= key[i] <= '9')
    && (key[0] == '0' ==> |key| == 1)
    && (|key| == 10 ==> key == MAX_INDEX || KeyLess(key, MAX_INDEX))
  }

  /** The order in which an object filled in `sort()` order enumerates its keys. */
  predicate OutLess(a: string, b: string) {
    if IsIndex(a) && IsIndex(b) then |a| < |b| || (|a| == |b| && KeyLess(a, b))
    else if IsIndex(a) || IsIndex(b) then IsIndex(a)
    else KeyLess(a, b)
  }

  lemma OutLessIrreflexive(a: string)
    ensures !OutLess(a, a)
  {
    KeyLessIrreflexive(a);
  }

  lemma OutLessTransitive(a: string, b: string, c: string)
    requires OutLess(a, b) && OutLess(b, c)
    ensures OutLess(a, c)
  {
    if KeyLess(a, b) && KeyLess(b, c) {
      KeyLessTransitive(a, b, c);
    }
  }

  lemma OutLessTotal(a: string, b: string)
    ensures a == b || OutLess(a, b) || OutLess(b, a)
  {
    KeyLessTotal(a, b);
  }

  // Integer-like keys as numbers.

  function Pow10(n: nat): nat {
    if n == 0 then 1 else 10 * Pow10(n - 1)
  }

  function Digit(c: char): int {
    c as int - '0' as int
  }

  function Decimal(s: string): int {
    if s == "" then 0 else Digit(s[0]) * Pow10(|s| - 1) + Decimal(s[1..])
  }

  ghost predicate IsDecimal(s: string) {
    forall i :: 0 <= i < |s| ==> '0' <= s[i] <= '9'
  }

  /** A number written without a needless zero in front. */
  ghost predicate IsNumeral(s: string) {
    s != "" && IsDecimal(s) && (s[0] == '0' ==> |s| == 1)
  }

  lemma {:induction false} Scaled(d: int, e: int, p: nat)
    requires d < e
    ensures d * p + p <= e * p
    decreases e - d
  {
    assert e * p == (e - 1) * p + p;
    if d < e - 1 {
      Scaled(d, e - 1, p);
    }
  }

  lemma {:induction false} DecimalBounds(s: string)
    requires IsDecimal(s)
    ensures 0 <= Decimal(s) < Pow10(|s|)
    ensures s != "" && s[0] != '0' ==> Decimal(s) >= Pow10(|s| - 1)
    decreases |s|
  {
    if s != "" {
      DecimalBounds(s[1..]);
      var d, p := Digit(s[0]), Pow10(|s| - 1);
      Scaled(d, 10, p);
      if d > 0 {
        Scaled(0, d, p);
      }
    }
  }

  lemma {:induction false} PowersGrow(m: nat, n: nat)
    requires m <= n
    ensures Pow10(m) <= Pow10(n)
    decreases n
  {
    if m < n {
      PowersGrow(m, n - 1);
    }
  }

  lemma {:induction false} SameLengthOrder(a: string, b: string)
    requires |a| == |b| && IsDecimal(a) && IsDecimal(b) && KeyLess(a, b)
    ensures Decimal(a) < Decimal(b)
    decreases |a|
  {
    DecimalBounds(a[1..]);
    DecimalBounds(b[1..]);
    if a[0] < b[0] {
      Scaled(Digit(a[0]), Digit(b[0]), Pow10(|a| - 1));
    } else {
      SameLengthOrder(a[1..], b[1..]);
    }
  }

  lemma NumeralOrder(a: string, b: string)
    requires IsNumeral(a) && IsNumeral(b) && (|a| < |b| || (|a| == |b| && KeyLess(a, b)))
    ensures Decimal(a) < Decimal(b)
  {
    if |a| == |b| {
      SameLengthOrder(a, b);
    } else {
      DecimalBounds(a);
      DecimalBounds(b);
      PowersGrow(|a|, |b| - 1);
    }
  }

  lemma LimitIsNumeral()
    ensures IsNumeral(MAX_INDEX) && |MAX_INDEX| == 10
  {
  }

  /** The integer-like keys are the numerals up to the largest array index. */
  lemma IsIndexIff(key: string)
    ensures IsIndex(key) <==> IsNumeral(key) && Decimal(key) <= Decimal(MAX_INDEX)
  {
    LimitIsNumeral();
    if IsNumeral(key) && key != MAX_INDEX {
      if |key| < 10 || (|key| == 10 && KeyLess(key, MAX_INDEX)) {
        NumeralOrder(key, MAX_INDEX);
      } else {
        KeyLessTotal(key, MAX_INDEX);
        NumeralOrder(MAX_INDEX, key);
      }
    }
  }

  /** Integer-like keys come first and in numeric order, all others in the order of `sort()`. */
  lemma OutLessIff(a: string, b: string)
    ensures OutLess(a, b)
            <==> if IsIndex(a) && IsIndex(b) then Decimal(a) < Decimal(b)
                 else if IsIndex(a) || IsIndex(b) then IsIndex(a)
                 else KeyLess(a, b)
  {
    if IsIndex(a) && IsIndex(b) {
      assert IsNumeral(a) && IsNumeral(b);
      if OutLess(a, b) {
        NumeralOrder(a, b);
      } else if OutLess(b, a) {
        NumeralOrder(b, a);
      } else {
        OutLessTotal(a, b);
      }
    }
  }

  // ---------------------------------------------------------------------------------------------
  // The canonical form
  // ---------------------------------------------------------------------------------------------

  function Insert(m: Member, sorted: seq<Member>): seq<Member> {
    if sorted == [] || OutLess(m.key, sorted[0].key) then [m] + sorted
    else [sorted[0]] + Insert(m, sorted[1..])
  }

  function Canon(j: Json): Json
    decreases j, 0
  {
    match j
    case Arr(items) => Arr(CanonItems(items))
    case Obj(ms) => Obj(CanonMembers(ms))
    case _ => j
  }

  function CanonItems(items: seq<Json>): seq<Json>
    decreases items
  {
    if items == [] then [] else [Canon(items[0])] + CanonItems(items[1..])
  }

  function CanonMembers(ms: seq<Member>): seq<Member>
    decreases ms
  {
    if ms == [] then []
    else if !Relevant(ms[0].key) then CanonMembers(ms[1..])
    else Insert(Member(ms[0].key, Canon(ms[0].value)), CanonMembers(ms[1..]))
  }

  // ---------------------------------------------------------------------------------------------
  // Sorted member lists
  // ---------------------------------------------------------------------------------------------

  ghost predicate Sorted(ms: seq<Member>) {
    forall i, j :: 0 <= i < j < |ms| ==> OutLess(ms[i].key, ms[j].key)
  }

  lemma InsertMembers(m: Member, sorted: seq<Member>)
    ensures forall x :: x in Insert(m, sorted) <==> x == m || x in sorted
  {
  }

  lemma {:induction false} InsertSorts(m: Member, sorted: seq<Member>)
    requires Sorted(sorted) && forall x :: x in sorted ==> x.key != m.key
    ensures Sorted(Insert(m, sorted))
    decreases |sorted|
  {
    if sorted == [] {
    } else if OutLess(m.key, sorted[0].key) {
      forall j | 0 <= j < |sorted| ensures OutLess(m.key, sorted[j].key) {
        if j > 0 {
          OutLessTransitive(m.key, sorted[0].key, sorted[j].key);
        }
      }
    } else {
      var rest := sorted[1..];
      assert sorted[0] in sorted;
      OutLessTotal(m.key, sorted[0].key);
      InsertSorts(m, rest);
      InsertMembers(m, rest);
      assert forall x :: x in rest ==> OutLess(sorted[0].key, x.key);
      assert forall x :: x in Insert(m, rest) ==> OutLess(sorted[0].key, x.key);
    }
  }

  lemma SortedTail(ms: seq<Member>, x: Member)
    requires Sorted(ms) && ms != []
    ensures x in ms[1..] <==> x in ms && x != ms[0]
  {
    if x in ms[1..] {
      OutLessIrreflexive(x.key);
    }
  }

  /** Two sorted lists with the same members are equal. */
  lemma {:induction false} SortedIsUnique(a: seq<Member>, b: seq<Member>)
    requires Sorted(a) && Sorted(b)
    requires forall x :: x in a <==> x in b
    ensures a == b
    decreases |a|
  {
    if b != [] {
      assert b[0] in a;
    }
    if a != [] {
      assert a[0] in b;
      if a[0] != b[0] {
        SortedTail(a, b[0]);
        SortedTail(b, a[0]);
        OutLessTransitive(a[0].key, b[0].key, a[0].key);
        OutLessIrreflexive(a[0].key);
      }
      forall x ensures x in a[1..] <==> x in b[1..] {
        SortedTail(a, x);
        SortedTail(b, x);
      }
      SortedIsUnique(a[1..], b[1..]);
    }
  }

  /** The members of the canonical object: the relevant ones, with canonical values. */
  lemma {:induction false} CanonMembersHas(ms: seq<Member>)
    ensures forall x :: x in CanonMembers(ms) <==>
              exists m :: m in ms && Relevant(m.key) && x == Member(m.key, Canon(m.value))
    decreases |ms|
  {
    if ms != [] {
      CanonMembersHas(ms[1..]);
      if Relevant(ms[0].key) {
        InsertMembers(Member(ms[0].key, Canon(ms[0].value)), CanonMembers(ms[1..]));
      }
      forall x ensures x in CanonMembers(ms) <==>
                       exists m :: m in ms && Relevant(m.key) && x == Member(m.key, Canon(m.value)) {
        if x in CanonMembers(ms) && x in CanonMembers(ms[1..]) {
          var m :| m in ms[1..] && Relevant(m.key) && x == Member(m.key, Canon(m.value));
          assert m in ms;
        } else if x in CanonMembers(ms) {
          assert ms[0] in ms;
        }
        if m :| m in ms && Relevant(m.key) && x == Member(m.key, Canon(m.value)) {
          assert m == ms[0] || m in ms[1..];
        }
      }
    }
  }

  lemma {:induction false} CanonMembersSorted(ms: seq<Member>)
    requires DistinctKeys(ms)
    ensures Sorted(CanonMembers(ms))
    decreases |ms|
  {
    if ms != [] {
      CanonMembersSorted(ms[1..]);
      CanonMembersHas(ms[1..]);
      assert forall m :: m in ms[1..] ==> m.key != ms[0].key;
      if Relevant(ms[0].key) {
        InsertSorts(Member(ms[0].key, Canon(ms[0].value)), CanonMembers(ms[1..]));
      }
    }
  }

  lemma {:induction false} CanonItemsAt(items: seq<Json>)
    ensures |CanonItems(items)| == |items|
    ensures forall i :: 0 <= i < |items| ==> CanonItems(items)[i] == Canon(items[i])
    decreases |items|
  {
    if items != [] {
      CanonItemsAt(items[1..]);
    }
  }

  // ---------------------------------------------------------------------------------------------
  // What the form identifies
  // ---------------------------------------------------------------------------------------------

  ghost predicate HasKey(ms: seq<Member>, k: string) {
    exists m :: m in ms && m.key == k
  }

  ghost predicate SameKeys(a: seq<Member>, b: seq<Member>) {
    forall k :: Relevant(k) ==> (HasKey(a, k) <==> HasKey(b, k))
  }

  /** The reference: equal up to the order of object members and up to members that are not relevant. */
  ghost predicate Equivalent(a: Json, b: Json) {
    match (a, b)
    case (Arr(xs), Arr(ys)) => |xs| == |ys| && forall i :: 0 <= i < |xs| ==> Equivalent(xs[i], ys[i])
    case (Obj(ms), Obj(ns)) =>
      && SameKeys(ms, ns)
      && forall m, n :: m in ms && n in ns && m.key == n.key && Relevant(m.key) ==> Equivalent(m.value, n.value)
    case _ => a == b
  }

  lemma OneValuePerKey(ms: seq<Member>, m: Member, n: Member)
    requires DistinctKeys(ms) && m in ms && n in ms && m.key == n.key
    ensures m == n
  {
  }

  /** One direction for objects: members that agree in canonical values give equal canonical lists. */
  lemma CanonMembersAgree(ms: seq<Member>, ns: seq<Member>)
    requires DistinctKeys(ms) && DistinctKeys(ns) && SameKeys(ms, ns)
    requires forall m, n :: m in ms && n in ns && m.key == n.key && Relevant(m.key) ==> Canon(m.value) == Canon(n.value)
    ensures CanonMembers(ms) == CanonMembers(ns)
  {
    CanonMembersHas(ms);
    CanonMembersHas(ns);
    CanonMembersSorted(ms);
    CanonMembersSorted(ns);
    forall x ensures x in CanonMembers(ms) <==> x in CanonMembers(ns) {
      if x in CanonMembers(ms) {
        var m :| m in ms && Relevant(m.key) && x == Member(m.key, Canon(m.value));
        assert HasKey(ms, m.key) && HasKey(ns, m.key);
        var n :| n in ns && n.key == m.key;
        assert x == Member(n.key, Canon(n.value));
      }
      if x in CanonMembers(ns) {
        var n :| n in ns && Relevant(n.key) && x == Member(n.key, Canon(n.value));
        assert HasKey(ns, n.key) && HasKey(ms, n.key);
        var m :| m in ms && m.key == n.key;
        assert x == Member(m.key, Canon(m.value));
      }
    }
    SortedIsUnique(CanonMembers(ms), CanonMembers(ns));
  }

  /** The other: equal canonical lists come from the same relevant keys with agreeing values. */
  lemma CanonMembersReveal(ms: seq<Member>, ns: seq<Member>, m: Member)
    requires DistinctKeys(ns) && CanonMembers(ms) == CanonMembers(ns)
    requires m in ms && Relevant(m.key)
    ensures HasKey(ns, m.key)
    ensures forall n :: n in ns && n.key == m.key ==> Canon(m.value) == Canon(n.value)
  {
    CanonMembersHas(ms);
    CanonMembersHas(ns);
    var x := Member(m.key, Canon(m.value));
    assert x in CanonMembers(ms);
    var n :| n in ns && Relevant(n.key) && x == Member(n.key, Canon(n.value));
    forall n' | n' in ns && n'.key == m.key ensures Canon(m.value) == Canon(n'.value) {
      OneValuePerKey(ns, n, n');
    }
  }

  /**
   Two payloads have one canonical form exactly if they differ only in the order of object members and
   in members that do not count, at any depth.
   */
  lemma {:induction false} SameFormIffEquivalent(a: Json, b: Json)
    requires WellFormed(a) && WellFormed(b)
    ensures Canon(a) == Canon(b) <==> Equivalent(a, b)
    decreases a
  {
    match (a, b)
    case (Arr(xs), Arr(ys)) =>
      CanonItemsAt(xs);
      CanonItemsAt(ys);
      if |xs| == |ys| {
        forall i | 0 <= i < |xs| ensures Canon(xs[i]) == Canon(ys[i]) <==> Equivalent(xs[i], ys[i]) {
          assert xs[i] in xs && ys[i] in ys;
          SameFormIffEquivalent(xs[i], ys[i]);
        }
        assert (forall i :: 0 <= i < |xs| ==> Canon(xs[i]) == Canon(ys[i])) ==> CanonItems(xs) == CanonItems(ys);
        assert CanonItems(xs) == CanonItems(ys) ==>
                 forall i :: 0 <= i < |xs| ==> CanonItems(xs)[i] == CanonItems(ys)[i];
      }
    case (Obj(ms), Obj(ns)) =>
      forall m, n | m in ms && n in ns && m.key == n.key
        ensures Canon(m.value) == Canon(n.value) <==> Equivalent(m.value, n.value)
      {
        SameFormIffEquivalent(m.value, n.value);
      }
      if Equivalent(a, b) {
        CanonMembersAgree(ms, ns);
      }
      if CanonMembers(ms) == CanonMembers(ns) {
        forall m | m in ms && Relevant(m.key)
          ensures HasKey(ns, m.key) && forall n :: n in ns && n.key == m.key ==> Canon(m.value) == Canon(n.value)
        {
          CanonMembersReveal(ms, ns, m);
        }
        forall n | n in ns && Relevant(n.key) ensures HasKey(ms, n.key) {
          CanonMembersReveal(ns, ms, n);
        }
      }
    case _ =>
  }

  lemma {:induction false} CanonIsEquivalent(a: Json)
    requires WellFormed(a)
    ensures WellFormed(Canon(a)) && Equivalent(Canon(a), a)
    decreases a
  {
    match a
    case Arr(xs) =>
      CanonItemsAt(xs);
      forall i | 0 <= i < |xs| ensures WellFormed(Canon(xs[i])) && Equivalent(Canon(xs[i]), xs[i]) {
        assert xs[i] in xs;
        CanonIsEquivalent(xs[i]);
      }
    case Obj(ms) =>
      CanonMembersHas(ms);
      CanonMembersSorted(ms);
      SortedHasDistinctKeys(CanonMembers(ms));
      forall m | m in ms ensures WellFormed(Canon(m.value)) && Equivalent(Canon(m.value), m.value) {
        CanonIsEquivalent(m.value);
      }
      forall k | Relevant(k) ensures HasKey(CanonMembers(ms), k) <==> HasKey(ms, k) {
        if m :| m in ms && m.key == k {
          assert Member(m.key, Canon(m.value)) in CanonMembers(ms);
        }
      }
      forall x, n | x in CanonMembers(ms) && n in ms && x.key == n.key && Relevant(x.key)
        ensures Equivalent(x.value, n.value)
      {
        var m :| m in ms && Relevant(m.key) && x == Member(m.key, Canon(m.value));
        OneValuePerKey(ms, m, n);
      }
    case _ =>
  }

  lemma SortedHasDistinctKeys(ms: seq<Member>)
    requires Sorted(ms)
    ensures DistinctKeys(ms)
  {
    forall i, j | 0 <= i < j < |ms| ensures ms[i].key != ms[j].key {
      OutLessIrreflexive(ms[i].key);
    }
  }

  /** Canonicalising twice is canonicalising once. */
  lemma CanonIsIdempotent(a: Json)
    requires WellFormed(a)
    ensures Canon(Canon(a)) == Canon(a)
  {
    CanonIsEquivalent(a);
    SameFormIffEquivalent(Canon(a), a);
  }

  /**
   The request hash identifies a payload up to equivalence, for any digest under which the two canonical
   forms do not collide.
   */
  lemma HashIdentifiesPayload(digest: Json -> string, a: Json, b: Json)
    requires WellFormed(a) && WellFormed(b)
    requires digest(Canon(a)) == digest(Canon(b)) ==> Canon(a) == Canon(b)
    ensures digest(Canon(a)) == digest(Canon(b)) <==> Equivalent(a, b)
  {
    SameFormIffEquivalent(a, b);
  }

  /** For instance, an added `idempotency_key` or `__proto__` member does not change an object's identity. */
  lemma IrrelevantMemberIsDropped(ms: seq<Member>, key: string, v: Json)
    requires WellFormed(Obj(ms)) && WellFormed(v) && !Relevant(key) && !HasKey(ms, key)
    ensures Canon(Obj(ms + [Member(key, v)])) == Canon(Obj(ms))
  {
    var ns := ms + [Member(key, v)];
    assert DistinctKeys(ns) by {
      assert forall i :: 0 <= i < |ms| ==> ms[i] in ms;
    }
    forall k | Relevant(k) ensures HasKey(ns, k) <==> HasKey(ms, k) {
      if m :| m in ms && m.key == k {
        assert m in ns;
      }
    }
    forall m, n | m in ns && n in ms && m.key == n.key && Relevant(m.key) ensures Canon(m.value) == Canon(n.value) {
      OneValuePerKey(ms, m, n);
    }
    CanonMembersAgree(ns, ms);
  }

  // ---------------------------------------------------------------------------------------------
  // The loop that fills the result
  // ---------------------------------------------------------------------------------------------

  /** `filter((k) => k !== 'idempotency_key')` */
  function Keep(ms: seq<Member>): seq<Member> {
    if ms == [] then []
    else (if ms[0].key != IGNORED then [ms[0]] else []) + Keep(ms[1..])
  }

  function KeyInsert(m: Member, sorted: seq<Member>): seq<Member> {
    if sorted == [] || KeyLess(m.key, sorted[0].key) then [m] + sorted
    else [sorted[0]] + KeyInsert(m, sorted[1..])
  }

  /** `sort()`, carrying each key's value along. */
  function KeySort(ms: seq<Member>): seq<Member> {
    if ms == [] then [] else KeyInsert(ms[0], KeySort(ms[1..]))
  }

  /** `out[k] = v` for a key `out` does not have yet. */
  function SetMember(out: seq<Member>, m: Member): seq<Member> {
    if m.key == PROTO then out
    else if IsIndex(m.key) then Insert(m, out)
    else out + [m]
  }

  ghost predicate KeySorted(ms: seq<Member>) {
    forall i, j :: 0 <= i < j < |ms| ==> KeyLess(ms[i].key, ms[j].key)
  }

  lemma KeepMembers(ms: seq<Member>)
    ensures forall m :: m in Keep(ms) <==> m in ms && m.key != IGNORED
    ensures DistinctKeys(ms) ==> DistinctKeys(Keep(ms))
  {
  }

  lemma KeyInsertMembers(m: Member, sorted: seq<Member>)
    ensures forall x :: x in KeyInsert(m, sorted) <==> x == m || x in sorted
  {
  }

  lemma {:induction false} KeyInsertSorts(m: Member, sorted: seq<Member>)
    requires KeySorted(sorted) && forall x :: x in sorted ==> x.key != m.key
    ensures KeySorted(KeyInsert(m, sorted))
    decreases |sorted|
  {
    if sorted == [] {
    } else if KeyLess(m.key, sorted[0].key) {
      forall j | 0 <= j < |sorted| ensures KeyLess(m.key, sorted[j].key) {
        if j > 0 {
          KeyLessTransitive(m.key, sorted[0].key, sorted[j].key);
        }
      }
    } else {
      var rest := sorted[1..];
      assert sorted[0] in sorted;
      KeyLessTotal(m.key, sorted[0].key);
      KeyInsertSorts(m, rest);
      KeyInsertMembers(m, rest);
      assert forall x :: x in rest ==> KeyLess(sorted[0].key, x.key);
      assert forall x :: x in KeyInsert(m, rest) ==> KeyLess(sorted[0].key, x.key);
    }
  }

  lemma {:induction false} KeySortSorts(ms: seq<Member>)
    requires DistinctKeys(ms)
    ensures KeySorted(KeySort(ms)) && forall m :: m in KeySort(ms) <==> m in ms
    decreases |ms|
  {
    if ms != [] {
      KeySortSorts(ms[1..]);
      assert forall m :: m in ms[1..] ==> m.key != ms[0].key;
      KeyInsertSorts(ms[0], KeySort(ms[1..]));
      KeyInsertMembers(ms[0], KeySort(ms[1..]));
    }
  }

  lemma KeySortedIsDistinct(ms: seq<Member>)
    requires KeySorted(ms)
    ensures DistinctKeys(ms)
  {
    forall i, j | 0 <= i < j < |ms| ensures ms[i].key != ms[j].key {
      KeyLessIrreflexive(ms[i].key);
    }
  }

  lemma {:induction false} InsertLast(m: Member, sorted: seq<Member>)
    requires forall x :: x in sorted ==> OutLess(x.key, m.key)
    ensures Insert(m, sorted) == sorted + [m]
    decreases |sorted|
  {
    if sorted != [] {
      assert sorted[0] in sorted;
      if OutLess(m.key, sorted[0].key) {
        OutLessTransitive(m.key, sorted[0].key, m.key);
        OutLessIrreflexive(m.key);
      }
      InsertLast(m, sorted[1..]);
    }
  }

  lemma CanonMembersSnoc(ms: seq<Member>, m: Member)
    requires DistinctKeys(ms + [m])
    ensures CanonMembers(ms + [m])
            == if Relevant(m.key) then Insert(Member(m.key, Canon(m.value)), CanonMembers(ms)) else CanonMembers(ms)
  {
    var all := ms + [m];
    var c := Member(m.key, Canon(m.value));
    assert all[|ms|] == m && forall i :: 0 <= i < |ms| ==> all[i] == ms[i];
    assert DistinctKeys(ms);
    CanonMembersHas(all);
    CanonMembersHas(ms);
    CanonMembersSorted(all);
    CanonMembersSorted(ms);
    var one := if Relevant(m.key) then Insert(c, CanonMembers(ms)) else CanonMembers(ms);
    if Relevant(m.key) {
      forall x | x in CanonMembers(ms) ensures x.key != m.key {
        var n :| n in ms && Relevant(n.key) && x == Member(n.key, Canon(n.value));
        assert n != m;
      }
      InsertSorts(c, CanonMembers(ms));
      InsertMembers(c, CanonMembers(ms));
    }
    forall x ensures x in CanonMembers(all) <==> x in one {
      if x in CanonMembers(all) {
        var n :| n in all && Relevant(n.key) && x == Member(n.key, Canon(n.value));
        assert n == m || n in ms;
      }
      if x in one && x in CanonMembers(ms) {
        var n :| n in ms && Relevant(n.key) && x == Member(n.key, Canon(n.value));
        assert n in all;
      }
    }
    SortedIsUnique(CanonMembers(all), one);
  }

  /** One turn of the loop, when keys come in `sort()` order. */
  lemma SetMemberExtends(ms: seq<Member>, m: Member)
    requires KeySorted(ms + [m]) && m.key != IGNORED
    ensures SetMember(CanonMembers(ms), Member(m.key, Canon(m.value))) == CanonMembers(ms + [m])
  {
    var all := ms + [m];
    KeySortedIsDistinct(all);
    CanonMembersSnoc(ms, m);
    if Relevant(m.key) && !IsIndex(m.key) {
      CanonMembersHas(ms);
      forall x | x in CanonMembers(ms) ensures OutLess(x.key, m.key) {
        var n :| n in ms && Relevant(n.key) && x == Member(n.key, Canon(n.value));
        var i :| 0 <= i < |ms| && ms[i] == n;
        assert KeyLess(all[i].key, all[|ms|].key);
      }
      InsertLast(Member(m.key, Canon(m.value)), CanonMembers(ms));
    }
  }

  lemma TurnOfLoop(kept: seq<Member>, i: nat)
    requires KeySorted(kept) && i < |kept| && kept[i].key != IGNORED
    ensures SetMember(CanonMembers(kept[..i]), Member(kept[i].key, Canon(kept[i].value))) == CanonMembers(kept[..i + 1])
  {
    assert kept[..i + 1] == kept[..i] + [kept[i]];
    SetMemberExtends(kept[..i], kept[i]);
  }

  lemma KeptAgree(ms: seq<Member>)
    requires DistinctKeys(ms)
    ensures KeySorted(KeySort(Keep(ms))) && CanonMembers(KeySort(Keep(ms))) == CanonMembers(ms)
    ensures forall m :: m in KeySort(Keep(ms)) <==> m in ms && m.key != IGNORED
  {
    KeepMembers(ms);
    KeySortSorts(Keep(ms));
    var kept := KeySort(Keep(ms));
    KeySortedIsDistinct(kept);
    forall k | Relevant(k) ensures HasKey(kept, k) <==> HasKey(ms, k) {
      if m :| m in ms && m.key == k {
        assert m in kept;
      }
    }
    forall m, n | m in kept && n in ms && m.key == n.key && Relevant(m.key) ensures Canon(m.value) == Canon(n.value) {
      OneValuePerKey(ms, m, n);
    }
    CanonMembersAgree(kept, ms);
  }

  /** `canonicalizeForIdempotency` */
  method CanonicalizeForIdempotency(value: Json) returns (canon: Json)
    requires WellFormed(value)
    ensures canon == Canon(value)
    decreases value, 0
  {
    match value
    case Arr(items) =>
      var out := CanonicalizeItems(items);
      return Arr(out);
    case Obj(ms) =>
      var out := CanonicalizeMembers(ms);
      return Obj(out);
    case _ =>
      return value;
  }

  method CanonicalizeItems(items: seq<Json>) returns (out: seq<Json>)
    requires forall x :: x in items ==> WellFormed(x)
    ensures out == CanonItems(items)
    decreases items
  {
    CanonItemsAt(items);
    out := [];
    for i := 0 to |items|
      invariant |out| == i && forall j :: 0 <= j < i ==> out[j] == Canon(items[j])
    {
      var c := CanonicalizeForIdempotency(items[i]);
      out := out + [c];
    }
  }

  /** The loop that fills a fresh object key by key. */
  method CanonicalizeMembers(ms: seq<Member>) returns (out: seq<Member>)
    requires DistinctKeys(ms) && forall m :: m in ms ==> WellFormed(m.value)
    ensures out == CanonMembers(ms)
    decreases ms
  {
    var kept := KeySort(Keep(ms));
    KeptAgree(ms);
    out := [];
    for i := 0 to |kept|
      invariant out == CanonMembers(kept[..i])
    {
      assert kept[i] in kept && kept[i] in ms;
      TurnOfLoop(kept, i);
      var c := CanonicalizeForIdempotency(kept[i].value);
      out := SetMember(out, Member(kept[i].key, c));
    }
    assert kept[..|kept|] == kept;
  }
}
