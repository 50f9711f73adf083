/**
 Phone numbers in E.164 form (clause 6.2.1 of ITU-T E.164): the normaliser, whose default country is
 Morocco, and the spellings under which a number may have been stored.
 */
module PhoneNumbers {
  import opened Wrappers
  import opened Text

  const PLUS := '+'
  const COUNTRY := "212"
  const COUNTRY_TRUNK := "2120"

  /** `replace(/\D/g, '')` */
  function Digits(s: string): string {
    if s == "" then "" else (if IsDigit(s[0]) then [s[0]] else "") + Digits(s[1..])
  }

  predicate AllDigits(s: string) {
    forall i :: 0 <= i < |s| ==> IsDigit(s[i])
  }

  predicate StartsNonZero(s: string) {
    s != "" && '1' <= s[0] <= '9'
  }

  predicate StartsPlus(s: string) {
    s != "" && s[0] == PLUS
  }

  /** `/^\+[1-9]\d{1,14}$/` */
  predicate IsE164(s: string) {
    StartsPlus(s) && 2 <= |s| - 1 <= 15 && StartsNonZero(s[1..]) && AllDigits(s[1..])
  }

  /** Users enter +21206..., with the national trunk zero after the country code. */
  function CanonicalizeMoroccoTrunkZero(digits: string): string {
    if COUNTRY_TRUNK <= digits && |digits| >= 12 then
      var subscriber := if |digits| < 13 then digits[4..] else digits[4..13];
      if |subscriber| == 9 then COUNTRY + subscriber else digits
    else digits
  }

  /** `/^[1-9]\d{9,14}$/` */
  predicate IsInternational(digits: string) {
    10 <= |digits| <= 15 && StartsNonZero(digits) && AllDigits(digits)
  }

  /** The rules for numbers that are not passed through; `digits` has at least nine. */
  function NationalForm(digits: string): (form: string)
    requires |digits| >= 9
    ensures |form| <= 13
  {
    if COUNTRY <= digits && |digits| >= 12 then [PLUS] + digits[..12]
    else if digits[0] == '0' && |digits| >= 10 then [PLUS] + COUNTRY + digits[1..10]
    else if COUNTRY <= digits then [PLUS] + COUNTRY + Cut(digits[3..], 9)
    else if digits[0] == '6' then [PLUS] + COUNTRY + digits[..9]
    else [PLUS] + COUNTRY + digits[|digits| - 9..]
  }

  /** The normaliser on what it looks at: is there a leading plus, and which digits are there? */
  function NormalizeDigits(plus: bool, rawDigits: string): Option<string> {
    var digits := CanonicalizeMoroccoTrunkZero(rawDigits);
    if plus && IsInternational(digits) && IsE164([PLUS] + digits) then Some([PLUS] + digits)
    else if |digits| < 9 then None
    else
      var normalized := NationalForm(digits);
      if !IsE164(normalized) || |normalized| < 12 then None else Some(normalized)
  }

  function NormalizePhoneNumber(raw: string): Option<string> {
    var s := Trim(raw);
    NormalizeDigits(StartsPlus(s), Digits(s))
  }

  // ---------------------------------------------------------------------------------------------
  // Shape and idempotence
  // ---------------------------------------------------------------------------------------------

  lemma DigitsOfDigits(s: string)
    requires AllDigits(s)
    ensures Digits(s) == s
  {
  }

  lemma TrunkZeroIsFixed(d: string)
    requires |d| <= 12
    ensures CanonicalizeMoroccoTrunkZero(d) == d
  {
  }

  lemma TrunkZeroTwice(d: string)
    ensures CanonicalizeMoroccoTrunkZero(CanonicalizeMoroccoTrunkZero(d)) == CanonicalizeMoroccoTrunkZero(d)
  {
  }

  /** Every number accepted comes out as E.164 with ten to fifteen digits, free of a trunk zero to strip. */
  lemma NormalizedShape(plus: bool, rawDigits: string)
    requires NormalizeDigits(plus, rawDigits).Some?
    ensures var t := NormalizeDigits(plus, rawDigits).value;
            && IsE164(t) && IsInternational(t[1..])
            && CanonicalizeMoroccoTrunkZero(t[1..]) == t[1..]
  {
  }

  /** An E.164 text is read as a plus and its digits. */
  lemma ReadE164(t: string)
    requires IsE164(t)
    ensures Trim(t) == t && Digits(t) == t[1..]
  {
    assert Trimmed(t) by {
      assert IsDigit(t[1..][|t| - 2]);
    }
    TrimmedIsFixed(t);
    DigitsOfDigits(t[1..]);
  }

  /** Normalising twice is normalising once, and the result is E.164 with at most fifteen digits. */
  lemma NormalizeIsIdempotent(raw: string)
    requires NormalizePhoneNumber(raw).Some?
    ensures var t := NormalizePhoneNumber(raw).value;
            IsE164(t) && 10 <= |t| - 1 <= 15 && NormalizePhoneNumber(t) == Some(t)
  {
    var t := NormalizePhoneNumber(raw).value;
    NormalizedShape(StartsPlus(Trim(raw)), Digits(Trim(raw)));
    ReadE164(t);
    assert [PLUS] + t[1..] == t;
  }

  // ---------------------------------------------------------------------------------------------
  // The spellings of a Moroccan number
  // ---------------------------------------------------------------------------------------------

  /** A national number: nine digits, not starting with zero. */
  predicate IsNational(n: string) {
    |n| == 9 && AllDigits(n) && StartsNonZero(n)
  }

  /** A raw text, with any punctuation, whose digits spell `n` in one of the accepted ways. */
  predicate Spells(raw: string, n: string) {
    var d := Digits(Trim(raw));
    d == n || d == ['0'] + n || d == COUNTRY + n || d == COUNTRY_TRUNK + n
  }

  lemma CanonicalIsE164(n: string)
    requires IsNational(n)
    ensures IsE164([PLUS] + COUNTRY + n)
  {
  }

  lemma BareForm(plus: bool, n: string)
    requires IsNational(n)
    ensures NormalizeDigits(plus, n) == if COUNTRY <= n then None else Some([PLUS] + COUNTRY + n)
  {
    CanonicalIsE164(n);
    TrunkZeroIsFixed(n);
    assert n[..9] == n && n[|n| - 9..] == n;
  }

  lemma ZeroForm(plus: bool, n: string)
    requires IsNational(n)
    ensures NormalizeDigits(plus, ['0'] + n) == Some([PLUS] + COUNTRY + n)
  {
    CanonicalIsE164(n);
    var d := ['0'] + n;
    TrunkZeroIsFixed(d);
    assert d[0] == '0';
    assert d[1..10] == n;
    assert !(COUNTRY <= d);
  }

  lemma CountryForm(plus: bool, n: string)
    requires IsNational(n)
    ensures NormalizeDigits(plus, COUNTRY + n) == Some([PLUS] + COUNTRY + n)
  {
    CanonicalIsE164(n);
    var d := COUNTRY + n;
    TrunkZeroIsFixed(d);
    assert COUNTRY <= d && |d| == 12 && d[..12] == d;
    assert [PLUS] + d == [PLUS] + COUNTRY + n;
  }

  lemma TrunkForm(plus: bool, n: string)
    requires IsNational(n)
    ensures NormalizeDigits(plus, COUNTRY_TRUNK + n) == Some([PLUS] + COUNTRY + n)
  {
    var d := COUNTRY_TRUNK + n;
    assert COUNTRY_TRUNK <= d && |d| == 13 && d[4..13] == n;
    assert CanonicalizeMoroccoTrunkZero(d) == COUNTRY + n;
    TrunkZeroIsFixed(COUNTRY + n);
    CountryForm(plus, n);
  }

  /**
   All spellings of a national number normalise to its one E.164 form, with or without a plus and
   whatever the punctuation, except that a bare number starting with 212 is rejected.
   */
  lemma SpellingsAgree(raw: string, n: string)
    requires IsNational(n) && Spells(raw, n)
    ensures NormalizePhoneNumber(raw)
            == if Digits(Trim(raw)) == n && COUNTRY <= n then None else Some([PLUS] + COUNTRY + n)
  {
    var plus, d := StartsPlus(Trim(raw)), Digits(Trim(raw));
    BareForm(plus, n);
    ZeroForm(plus, n);
    CountryForm(plus, n);
    TrunkForm(plus, n);
  }

  // ---------------------------------------------------------------------------------------------
  // What else reads as a Moroccan number
  // ---------------------------------------------------------------------------------------------

  predicate EndsWith(s: string, n: string) {
    |n| <= |s| && s[|s| - |n|..] == n
  }

  /**
   The digits that, without a plus, are taken for the national number `n`: a spelling of it with anything
   after it, where a bare one must start with 6, or anything else that ends in it.
   */
  predicate ReadsAs(d: string, n: string)
    requires n != ""
  {
    || COUNTRY_TRUNK + n <= d
    || COUNTRY + n <= d
    || ['0'] + n <= d
    || (n[0] == '6' && n <= d)
    || (d != "" && d[0] != '0' && d[0] != '6' && !(COUNTRY <= d) && EndsWith(d, n))
  }

  /** The nine digits the national rules take from digits that hold a country code of Morocco or none. */
  lemma NationalFormIff(d: string, n: string)
    requires |d| >= 9 && |n| == 9
    ensures NationalForm(d) == [PLUS] + COUNTRY + n
            <==> if COUNTRY <= d then |d| >= 12 && d[3..12] == n
                 else if d[0] == '0' && |d| >= 10 then d[1..10] == n
                 else if d[0] == '6' then d[..9] == n
                 else d[|d| - 9..] == n
  {
    var x := Subscriber(d);
    FormOfSubscriber(d);
    SameSubscriber(x, n);
  }

  /** The digits after +212 in the national form. */
  function Subscriber(d: string): string
    requires |d| >= 9
  {
    if COUNTRY <= d && |d| >= 12 then d[3..12]
    else if d[0] == '0' && |d| >= 10 then d[1..10]
    else if COUNTRY <= d then Cut(d[3..], 9)
    else if d[0] == '6' then d[..9]
    else d[|d| - 9..]
  }

  lemma FormOfSubscriber(d: string)
    requires |d| >= 9
    ensures NationalForm(d) == [PLUS] + COUNTRY + Subscriber(d)
  {
    if COUNTRY <= d && |d| >= 12 {
      assert d[..12] == COUNTRY + d[3..12];
    }
  }

  lemma SameSubscriber(x: string, n: string)
    ensures [PLUS] + COUNTRY + x == [PLUS] + COUNTRY + n <==> x == n
  {
    assert ([PLUS] + COUNTRY + x)[4..] == x && ([PLUS] + COUNTRY + n)[4..] == n;
  }

  lemma SpelledFirst(x: string, n: string, d: string)
    requires |n| == 9
    ensures x + n <= d <==> x <= d && |x| + 9 <= |d| && d[|x|..|x| + 9] == n
  {
    if x + n <= d {
      assert d[..|x| + 9] == x + n;
      assert d[..|x|] == (x + n)[..|x|] == x;
      assert d[|x|..|x| + 9] == (x + n)[|x|..] == n;
    }
    if x <= d && |x| + 9 <= |d| && d[|x|..|x| + 9] == n {
      assert d[..|x| + 9] == d[..|x|] + d[|x|..|x| + 9];
    }
  }

  /** The ways of `ReadsAs`, by what the digits start with. */
  lemma ReadsAsCases(d: string, n: string)
    requires IsNational(n) && d != ""
    ensures ReadsAs(d, n)
            <==> if COUNTRY_TRUNK <= d then |d| >= 13 && d[4..13] == n
                 else if COUNTRY <= d then |d| >= 12 && d[3..12] == n
                 else if d[0] == '0' then |d| >= 10 && d[1..10] == n
                 else if d[0] == '6' then |d| >= 9 && d[..9] == n
                 else |d| >= 9 && d[|d| - 9..] == n
  {
    SpelledWithCountry(d, n);
    SpelledLocally(d, n);
    assert COUNTRY_TRUNK <= d ==> COUNTRY <= d;
    assert COUNTRY <= d ==> d[0] == '2';
  }

  lemma SpelledWithCountry(d: string, n: string)
    requires IsNational(n)
    ensures COUNTRY_TRUNK + n <= d <==> COUNTRY_TRUNK <= d && |d| >= 13 && d[4..13] == n
    ensures COUNTRY + n <= d <==> COUNTRY <= d && !(COUNTRY_TRUNK <= d) && |d| >= 12 && d[3..12] == n
  {
    SpelledFirst(COUNTRY_TRUNK, n, d);
    SpelledFirst(COUNTRY, n, d);
    if COUNTRY_TRUNK <= d && |d| >= 12 {
      assert d[3] == '0' && d[3..12][0] == '0';
    }
  }

  lemma SpelledLocally(d: string, n: string)
    requires IsNational(n) && d != ""
    ensures ['0'] + n <= d <==> d[0] == '0' && |d| >= 10 && d[1..10] == n
    ensures n <= d <==> |d| >= 9 && d[..9] == n
    ensures n <= d ==> d[0] == n[0]
  {
    SpelledFirst(['0'], n, d);
  }

  lemma PlainCases(d: string, n: string)
    requires AllDigits(d) && IsNational(n) && d != ""
    ensures NormalizeDigits(false, d) == Some([PLUS] + COUNTRY + n)
            <==> if COUNTRY_TRUNK <= d then |d| >= 13 && d[4..13] == n
                 else if COUNTRY <= d then |d| >= 12 && d[3..12] == n
                 else if d[0] == '0' then |d| >= 10 && d[1..10] == n
                 else if d[0] == '6' then |d| >= 9 && d[..9] == n
                 else |d| >= 9 && d[|d| - 9..] == n
  {
    CanonicalIsE164(n);
    var digits := CanonicalizeMoroccoTrunkZero(d);
    if |digits| >= 9 {
      NationalFormIff(digits, n);
    }
    if COUNTRY_TRUNK <= d {
      assert COUNTRY <= d && d[3] == '0';
      if |d| >= 13 {
        assert digits == COUNTRY + d[4..13];
        assert digits[3..12] == d[4..13];
      } else if |d| == 12 {
        assert d[3..12][0] == '0';
      }
    } else {
      assert digits == d;
      assert |d| == 9 && d[0] == '0' ==> d[|d| - 9..][0] == '0';
    }
  }

  /**
   Exactly which texts without a plus normalise to the form of a national number `n`. They include every
   number of another country whose last nine digits are `n`, unless it starts with 6.
   */
  lemma PlainReadsAsIff(raw: string, n: string)
    requires IsNational(n) && !StartsPlus(Trim(raw))
    ensures NormalizePhoneNumber(raw) == Some([PLUS] + COUNTRY + n) <==> ReadsAs(Digits(Trim(raw)), n)
  {
    var d := Digits(Trim(raw));
    DigitsAreDigits(Trim(raw));
    if d == "" {
      SpelledFirst("", n, d);
    } else {
      PlainCases(d, n);
      ReadsAsCases(d, n);
    }
  }

  lemma DigitsAreDigits(s: string)
    ensures AllDigits(Digits(s))
  {
  }

  /** A country code that is not taken for anything Moroccan, with a national number that is valid in Morocco. */
  predicate IsForeignPrefix(prefix: string, n: string) {
    1 <= |prefix| <= 6 && AllDigits(prefix) && StartsNonZero(prefix) && prefix[0] != '6' && !(COUNTRY <= prefix + n)
  }

  /** Without its plus a foreign number merges with the Moroccan number it ends in. */
  lemma BareForeignMerges(prefix: string, n: string)
    requires IsNational(n) && IsForeignPrefix(prefix, n)
    ensures NormalizePhoneNumber(prefix + n) == Some([PLUS] + COUNTRY + n)
  {
    var d := prefix + n;
    assert d[0] == prefix[0] && d[|d| - 1] == n[8];
    assert Trimmed(d);
    TrimmedIsFixed(d);
    DigitsOfDigits(d);
    LastNine(n, prefix);
    assert EndsWith(d, n);
    PlainReadsAsIff(d, n);
  }

  /** With its plus it does not. */
  lemma PlusTellsForeignApart(prefix: string, n: string)
    requires IsNational(n) && IsForeignPrefix(prefix, n)
    ensures NormalizePhoneNumber([PLUS] + (prefix + n)) == Some([PLUS] + (prefix + n))
    ensures [PLUS] + (prefix + n) != [PLUS] + COUNTRY + n
  {
    PrefixedIsForeign(prefix, n);
    ForeignPassesThrough([PLUS] + (prefix + n));
  }

  lemma PrefixedIsForeign(prefix: string, n: string)
    requires IsNational(n) && IsForeignPrefix(prefix, n)
    ensures IsForeign([PLUS] + (prefix + n)) && [PLUS] + (prefix + n) != [PLUS] + COUNTRY + n
  {
    var c := [PLUS] + (prefix + n);
    assert c[1..] == prefix + n && (prefix + n)[0] == prefix[0];
    assert ([PLUS] + COUNTRY + n)[1..] == COUNTRY + n;
    assert COUNTRY <= COUNTRY + n;
  }

  lemma FormIsE164(x: string)
    requires |x| <= 9 && AllDigits(x)
    ensures IsE164([PLUS] + COUNTRY + x) && |[PLUS] + COUNTRY + x| == 4 + |x|
  {
    assert ([PLUS] + COUNTRY + x)[1..] == COUNTRY + x;
  }

  lemma SubscriberLength(d: string)
    requires |d| >= 9 && AllDigits(d)
    ensures AllDigits(Subscriber(d))
    ensures |Subscriber(d)| == if COUNTRY <= d && |d| < 12 then |d| - 3 else 9
  {
    assert COUNTRY <= d ==> d[0] == '2';
  }

  /** Without passing anything through: nine digits or more are accepted, except 212 with fewer than eight after it. */
  lemma NationalAccepted(d: string)
    requires AllDigits(d)
    ensures NormalizeDigits(false, d).Some? <==> |d| >= 9 && !(COUNTRY <= d && |d| < 11)
    ensures COUNTRY <= d && |d| == 11 ==> NormalizeDigits(false, d) == Some([PLUS] + d)
  {
    var digits := CanonicalizeMoroccoTrunkZero(d);
    assert AllDigits(digits) && (digits == d || (|d| >= 12 && |digits| == 12 && COUNTRY <= digits && COUNTRY <= d));
    if |digits| >= 9 {
      FormOfSubscriber(digits);
      SubscriberLength(digits);
      FormIsE164(Subscriber(digits));
    }
    if COUNTRY <= d && |d| == 11 {
      assert [PLUS] + COUNTRY + d[3..] == [PLUS] + d;
    }
  }

  /** Exactly which texts are accepted. */
  lemma AcceptedIff(raw: string)
    ensures var d := Digits(Trim(raw));
            NormalizePhoneNumber(raw).Some?
            <==> || (|d| >= 9 && !(COUNTRY <= d && |d| < 11))
                 || (StartsPlus(Trim(raw)) && 10 <= |d| <= 15 && StartsNonZero(d))
  {
    var d := Digits(Trim(raw));
    DigitsAreDigits(Trim(raw));
    NationalAccepted(d);
    if StartsPlus(Trim(raw)) {
      PlusAccepted(d);
    }
  }

  lemma PlusAccepted(d: string)
    requires AllDigits(d)
    ensures NormalizeDigits(true, d).Some?
            <==> NormalizeDigits(false, d).Some? || (10 <= |d| <= 15 && StartsNonZero(d))
  {
    var digits := CanonicalizeMoroccoTrunkZero(d);
    assert digits == d || (IsInternational(digits) && COUNTRY <= d && |d| >= 12);
    assert ([PLUS] + digits)[1..] == digits;
    NationalAccepted(d);
  }

  // ---------------------------------------------------------------------------------------------
  // Lookup candidates
  // ---------------------------------------------------------------------------------------------

  const TWO_ZEROS := "00"
  const ZEROS_COUNTRY := "00212"
  const PLUS_COUNTRY := "+212"

  predicate LooksLikeMorocco(raw: string, digits: string, normalized: Option<string>) {
    if normalized.Some? && PLUS_COUNTRY <= normalized.value then true
    else if COUNTRY <= digits then true
    else if StartsPlus(Trim(raw)) && !(COUNTRY <= digits) then false
    else if TWO_ZEROS <= Trim(raw) && !(ZEROS_COUNTRY <= digits) && !(COUNTRY <= digits) then false
    else true
  }

  function LocalSpellings(digits: string): set<string> {
    if |digits| < 9 then {}
    else
      var local9 := digits[|digits| - 9..];
      {local9, ['0'] + local9, COUNTRY + local9, [PLUS] + COUNTRY + local9}
  }

  /** All plausible stored forms of a number, given its digits and its normal form. */
  function CandidateSet(trimmed: string, digits: string, normalized: Option<string>): set<string> {
    {trimmed}
    + (if digits != "" then {digits} else {})
    + (if normalized.Some? && normalized.value != "" then {normalized.value, normalized.value[1..]} else {})
    + (if LooksLikeMorocco(trimmed, digits, normalized) then LocalSpellings(digits) else {})
  }

  function Candidates(raw: string): set<string> {
    var trimmed := Trim(raw);
    if trimmed == "" then {} else CandidateSet(trimmed, Digits(trimmed), NormalizePhoneNumber(trimmed))
  }

  method PhoneLookupCandidates(raw: string) returns (out: set<string>)
    ensures out == Candidates(raw)
  {
    var trimmed := Trim(raw);
    if trimmed == "" {
      return {};
    }
    var digits := Digits(trimmed);
    var normalized := NormalizePhoneNumber(trimmed);
    out := CollectCandidates(trimmed, digits, normalized);
  }

  /** The set is filled step by step; the order in which its members come out is not modelled. */
  method CollectCandidates(trimmed: string, digits: string, normalized: Option<string>) returns (out: set<string>)
    ensures out == CandidateSet(trimmed, digits, normalized)
  {
    out := {trimmed};
    if digits != "" {
      out := out + {digits};
    }
    if normalized.Some? && normalized.value != "" {
      out := out + {normalized.value};
      out := out + {normalized.value[1..]};
    }
    if LooksLikeMorocco(trimmed, digits, normalized) {
      var local9 := if |digits| >= 9 then digits[|digits| - 9..] else "";
      if local9 != "" {
        out := out + {local9};
        out := out + {['0'] + local9};
        out := out + {COUNTRY + local9};
        out := out + {[PLUS] + COUNTRY + local9};
      }
    }
  }

  /** Digits with a plus that are passed through as a number of another country. */
  predicate IsForeignText(raw: string) {
    var d := Digits(Trim(raw));
    StartsPlus(Trim(raw)) && 10 <= |d| <= 15 && StartsNonZero(d) && !(COUNTRY <= d)
  }

  lemma PlainNormalForm(plus: bool, d: string)
    requires |d| >= 9 && AllDigits(d) && !(COUNTRY <= d) && !(plus && 10 <= |d| <= 15 && StartsNonZero(d))
    ensures NormalizeDigits(plus, d).Some? && PLUS_COUNTRY <= NormalizeDigits(plus, d).value
  {
    NoTrunkZero(d);
    FormOfSubscriber(d);
    SubscriberIsNine(d);
    NineDigitsAreE164(Subscriber(d));
  }

  lemma NoTrunkZero(d: string)
    requires !(COUNTRY <= d)
    ensures CanonicalizeMoroccoTrunkZero(d) == d
  {
    assert COUNTRY_TRUNK <= d ==> COUNTRY <= d;
  }

  lemma SubscriberIsNine(d: string)
    requires |d| >= 9 && AllDigits(d) && !(COUNTRY <= d)
    ensures |Subscriber(d)| == 9 && AllDigits(Subscriber(d))
  {
  }

  lemma NineDigitsAreE164(x: string)
    requires |x| == 9 && AllDigits(x)
    ensures IsE164([PLUS] + COUNTRY + x) && |[PLUS] + COUNTRY + x| == 13 && PLUS_COUNTRY <= [PLUS] + COUNTRY + x
  {
    assert ([PLUS] + COUNTRY + x)[1..] == COUNTRY + x;
  }

  lemma ForeignNormalForm(d: string)
    requires 10 <= |d| <= 15 && AllDigits(d) && StartsNonZero(d) && !(COUNTRY <= d)
    ensures NormalizeDigits(true, d) == Some([PLUS] + d) && !(PLUS_COUNTRY <= [PLUS] + d)
  {
    assert COUNTRY_TRUNK <= d ==> COUNTRY <= d;
    assert ([PLUS] + d)[1..] == d;
    assert PLUS_COUNTRY <= [PLUS] + d ==> COUNTRY <= d;
  }

  /**
   Which texts of nine digits or more get the local spellings of their last nine among their candidates:
   all but those passed through as numbers of another country.
   */
  lemma LocalSpellingsIff(raw: string)
    requires |Digits(Trim(raw))| >= 9
    ensures LooksLikeMorocco(Trim(raw), Digits(Trim(raw)), NormalizePhoneNumber(Trim(raw))) <==> !IsForeignText(raw)
  {
    TrimTwice(raw);
    var d := Digits(Trim(raw));
    DigitsAreDigits(Trim(raw));
    if IsForeignText(raw) {
      ForeignNormalForm(d);
    } else if !(COUNTRY <= d) {
      PlainNormalForm(StartsPlus(Trim(raw)), d);
    }
  }

  /** One of the four ways the last nine digits may have been stored. */
  predicate IsLocalSpelling(x: string, digits: string) {
    |digits| >= 9 &&
    var nine := digits[|digits| - 9..];
    x == nine || x == ['0'] + nine || x == COUNTRY + nine || x == [PLUS] + COUNTRY + nine
  }

  /** Exactly what the candidates of a text are. */
  lemma CandidateIff(raw: string, x: string)
    ensures var trimmed := Trim(raw);
            var digits := Digits(trimmed);
            var normalized := NormalizePhoneNumber(raw);
            x in Candidates(raw)
            <==> && trimmed != ""
                 && (|| x == trimmed
                     || (x == digits && digits != "")
                     || (normalized.Some? && (x == normalized.value || [PLUS] + x == normalized.value))
                     || (IsLocalSpelling(x, digits) && !IsForeignText(raw)))
  {
    TrimTwice(raw);
    var digits := Digits(Trim(raw));
    if |digits| >= 9 {
      LocalSpellingsIff(raw);
    }
    if NormalizePhoneNumber(raw).Some? {
      NormalizedShape(StartsPlus(Trim(raw)), digits);
    }
    CandidateSetIff(Trim(raw), digits, NormalizePhoneNumber(raw), x);
  }

  lemma CandidateSetIff(trimmed: string, digits: string, normalized: Option<string>, x: string)
    requires normalized.Some? ==> StartsPlus(normalized.value)
    ensures x in CandidateSet(trimmed, digits, normalized)
            <==> || x == trimmed
                 || (x == digits && digits != "")
                 || (normalized.Some? && (x == normalized.value || [PLUS] + x == normalized.value))
                 || (IsLocalSpelling(x, digits) && LooksLikeMorocco(trimmed, digits, normalized))
  {
    if normalized.Some? {
      WithoutPlusIff(normalized.value, x);
    }
  }

  lemma WithoutPlusIff(t: string, x: string)
    requires StartsPlus(t)
    ensures x == t[1..] <==> [PLUS] + x == t
  {
    assert [PLUS] + t[1..] == t && ([PLUS] + x)[1..] == x;
  }

  /** A Moroccan number in canonical form. */
  predicate IsMoroccan(c: string) {
    PLUS_COUNTRY <= c && IsNational(c[4..])
  }

  /** Any other number in canonical form. */
  predicate IsForeign(c: string) {
    StartsPlus(c) && IsInternational(c[1..]) && !(COUNTRY <= c[1..])
  }

  lemma TrimTwice(s: string)
    ensures Trim(Trim(s)) == Trim(s)
  {
    TrimTrims(s);
    TrimmedIsFixed(Trim(s));
  }

  lemma LastNine(n: string, prefix: string)
    requires |n| == 9
    ensures (prefix + n)[|prefix + n| - 9..] == n
  {
  }

  lemma MoroccanSet(trimmed: string, digits: string, normalized: Option<string>, n: string)
    requires |n| == 9
    requires digits == n || digits == ['0'] + n || digits == COUNTRY + n || digits == COUNTRY_TRUNK + n
    requires normalized == Some([PLUS] + COUNTRY + n) || (digits == n && COUNTRY <= n)
    ensures {n, ['0'] + n, COUNTRY + n, [PLUS] + COUNTRY + n} <= CandidateSet(trimmed, digits, normalized)
  {
  }

  /** Each spelling of a national number yields all four stored spellings. */
  lemma SpellingsAreCandidates(raw: string, n: string)
    requires IsNational(n) && Spells(raw, n)
    ensures {n, ['0'] + n, COUNTRY + n, [PLUS] + COUNTRY + n} <= Candidates(raw)
  {
    TrimTwice(raw);
    SpellingsAgree(raw, n);
    MoroccanSet(Trim(raw), Digits(Trim(raw)), NormalizePhoneNumber(Trim(raw)), n);
  }

  function MoroccanForms(n: string): set<string> {
    {[PLUS] + COUNTRY + n, COUNTRY + n, n, ['0'] + n}
  }

  function ForeignForms(d: string): set<string> {
    {[PLUS] + d, d}
  }

  lemma MoroccanCandidates(c: string)
    requires IsMoroccan(c)
    ensures Candidates(c) == MoroccanForms(c[4..]) && c == [PLUS] + COUNTRY + c[4..]
  {
    var n := c[4..];
    assert c == [PLUS] + COUNTRY + n;
    CanonicalIsE164(n);
    ReadE164(c);
    assert c[1..] == COUNTRY + n;
    CountryForm(true, n);
    LastNine(n, COUNTRY);
    assert NormalizePhoneNumber(c) == Some(c);
  }

  /** An international number with its plus is passed through. */
  lemma ForeignPassesThrough(c: string)
    requires IsForeign(c)
    ensures NormalizePhoneNumber(c) == Some(c)
  {
    var d := c[1..];
    assert c == [PLUS] + d;
    ReadE164(c);
    assert COUNTRY_TRUNK <= d ==> COUNTRY <= d;
    assert CanonicalizeMoroccoTrunkZero(d) == d;
  }

  lemma ForeignCandidates(c: string)
    requires IsForeign(c)
    ensures Candidates(c) == ForeignForms(c[1..]) && c == [PLUS] + c[1..]
  {
    var d := c[1..];
    assert c == [PLUS] + d;
    ReadE164(c);
    ForeignPassesThrough(c);
    assert PLUS_COUNTRY <= c ==> COUNTRY <= d;
  }

  lemma EndsInNational(n: string, x: string)
    requires |n| == 9 && x in MoroccanForms(n)
    ensures |x| >= 9 && x[|x| - 9..] == n
  {
  }

  lemma MoroccanFormsMeet(n: string, m: string, x: string)
    requires |n| == |m| == 9 && x in MoroccanForms(n) && x in MoroccanForms(m)
    ensures n == m
  {
    EndsInNational(n, x);
    EndsInNational(m, x);
  }

  lemma ForeignFormsMeet(d: string, e: string, x: string)
    requires StartsNonZero(d) && StartsNonZero(e) && x in ForeignForms(d) && x in ForeignForms(e)
    ensures d == e
  {
    assert ([PLUS] + d)[1..] == d && ([PLUS] + e)[1..] == e;
    assert ([PLUS] + d)[0] == PLUS && ([PLUS] + e)[0] == PLUS;
  }

  lemma MoroccanAndForeignForms(n: string, d: string, x: string)
    requires IsNational(n) && IsInternational(d) && !(COUNTRY <= d)
    ensures !(x in MoroccanForms(n) && x in ForeignForms(d))
  {
    assert COUNTRY <= COUNTRY + n;
    assert [PLUS] + COUNTRY + n == [PLUS] + (COUNTRY + n);
    assert ([PLUS] + (COUNTRY + n))[1..] == COUNTRY + n && ([PLUS] + d)[1..] == d;
    assert ([PLUS] + d)[0] == PLUS && (['0'] + n)[0] == '0' && (COUNTRY + n)[0] == '2';
    assert ([PLUS] + (COUNTRY + n))[0] == PLUS;
    assert |n| == 9 && |d| >= 10 && n[0] != PLUS && d[0] != PLUS && d[0] != '0';
  }

  /** The candidate sets of two canonical numbers meet exactly if the numbers are equal. */
  lemma CandidatesMeetIffEqual(a: string, b: string)
    requires IsMoroccan(a) || IsForeign(a)
    requires IsMoroccan(b) || IsForeign(b)
    ensures !(Candidates(a) !! Candidates(b)) <==> a == b
  {
    var A := FormsOf(a);
    var B := FormsOf(b);
    FormsMeetIffEqual(a, b, A, B);
  }

  /** The candidates of a canonical number, by its kind. */
  lemma FormsOf(a: string) returns (forms: set<string>)
    requires IsMoroccan(a) || IsForeign(a)
    ensures Candidates(a) == forms
    ensures IsMoroccan(a) ==> forms == MoroccanForms(a[4..]) && a == [PLUS] + COUNTRY + a[4..]
    ensures !IsMoroccan(a) ==> forms == ForeignForms(a[1..]) && a == [PLUS] + a[1..]
  {
    forms := Candidates(a);
    if IsMoroccan(a) {
      MoroccanCandidates(a);
    } else {
      ForeignCandidates(a);
    }
  }

  lemma FormsMeetIffEqual(a: string, b: string, A: set<string>, B: set<string>)
    requires IsMoroccan(a) || IsForeign(a)
    requires IsMoroccan(b) || IsForeign(b)
    requires if IsMoroccan(a) then A == MoroccanForms(a[4..]) && a == [PLUS] + COUNTRY + a[4..]
             else A == ForeignForms(a[1..]) && a == [PLUS] + a[1..]
    requires if IsMoroccan(b) then B == MoroccanForms(b[4..]) && b == [PLUS] + COUNTRY + b[4..]
             else B == ForeignForms(b[1..]) && b == [PLUS] + b[1..]
    ensures !(A !! B) <==> a == b
  {
    if a == b {
      assert a in A;
    } else if !(A !! B) {
      var x :| x in A && x in B;
      if IsMoroccan(a) && IsMoroccan(b) {
        MoroccanFormsMeet(a[4..], b[4..], x);
      } else if IsMoroccan(a) {
        MoroccanAndForeignForms(a[4..], b[1..], x);
      } else if IsMoroccan(b) {
        MoroccanAndForeignForms(b[4..], a[1..], x);
      } else {
        ForeignFormsMeet(a[1..], b[1..], x);
      }
    }
  }
}
