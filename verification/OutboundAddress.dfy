/**
 The address filter for outbound requests: the parser of IPv4 and IPv6 texts (sections 2.2 and 2.5.5.2
 of RFC 4291) and the blocked ranges, stated here as intervals of 32-bit and 128-bit numbers.
 */
module OutboundAddress {
  import opened Wrappers
  import opened Text

  const COLON := ':'
  const DOT := '.'

  // ---------------------------------------------------------------------------------------------
  // Numbers in texts
  // ---------------------------------------------------------------------------------------------

  function DigitValue(c: char): int {
    if '0' <= c <= '9' then c as int - '0' as int
    else if 'a' <= c <= 'f' then c as int - 'a' as int + 10
    else if 'A' <= c <= 'F' then c as int - 'A' as int + 10
    else 0
  }

  predicate IsHex(c: char) {
    '0' <= c <= '9' || 'a' <= c <= 'f' || 'A' <= c <= 'F'
  }

  function Value(digits: string, base: nat): int {
    if digits == "" then 0 else Value(digits[..|digits| - 1], base) * base + DigitValue(digits[|digits| - 1])
  }

  function HexPrefix(s: string): string {
    if s == "" || !IsHex(s[0]) then "" else [s[0]] + HexPrefix(s[1..])
  }

  /** `parseInt(text, 16)`: leading space, sign and `0x` are accepted, trailing text is ignored; `None` is NaN. */
  function ParseInt16(text: string): Option<int> {
    var t := TrimLeft(text);
    var negative := t != "" && t[0] == '-';
    var u := if t != "" && (t[0] == '-' || t[0] == '+') then t[1..] else t;
    var w := if |u| >= 2 && u[0] == '0' && (u[1] == 'x' || u[1] == 'X') then u[2..] else u;
    var digits := HexPrefix(w);
    if digits == "" then None else Some(if negative then -Value(digits, 16) else Value(digits, 16))
  }

  // ---------------------------------------------------------------------------------------------
  // IPv4
  // ---------------------------------------------------------------------------------------------

  predicate IsOctetText(s: string) {
    1 <= |s| <= 3 && forall i :: 0 <= i < |s| ==> IsDigit(s[i])
  }

  /** `/^(\d{1,3})\.(\d{1,3})\.(\d{1,3})\.(\d{1,3})$/` */
  predicate IsDottedQuad(s: string) {
    var parts := Split(s, DOT);
    |parts| == 4 && forall i :: 0 <= i < 4 ==> IsOctetText(parts[i])
  }

  function ParseIpv4(ip: string): Option<seq<int>> {
    if !IsDottedQuad(ip) then None
    else
      var parts := Split(ip, DOT);
      var octets := [Value(parts[0], 10), Value(parts[1], 10), Value(parts[2], 10), Value(parts[3], 10)];
      if exists n :: n in octets && n > 255 then None else Some(octets)
  }

  predicate IsBlockedOctets(a: int, b: int) {
    || a == 0
    || a == 10
    || a == 127
    || (a == 169 && b == 254)
    || (a == 172 && 16 <= b <= 31)
    || (a == 192 && b == 168)
    || (a == 100 && 64 <= b <= 127)
    || a >= 224
  }

  predicate IsBlockedIPv4(ip: string) {
    var parts := ParseIpv4(ip);
    parts == None || IsBlockedOctets(parts.value[0], parts.value[1])
  }

  // ---------------------------------------------------------------------------------------------
  // IPv6
  // ---------------------------------------------------------------------------------------------

  function StripBrackets(host: string): string {
    Unbracketed(ToLower(Trim(host)))
  }

  /** `replace(/^\[|\]$/g, '')` */
  function Unbracketed(t: string): string {
    var u := if t != "" && t[0] == '[' then t[1..] else t;
    if u != "" && u[|u| - 1] == ']' then u[..|u| - 1] else u
  }

  function LastColon(s: string): int
    ensures -1 <= LastColon(s) < |s|
  {
    if s == "" then -1 else if s[|s| - 1] == COLON then |s| - 1 else LastColon(s[..|s| - 1])
  }

  /** Where the first `::` starts, or the length if there is none. */
  function FindDouble(s: string): nat
    ensures FindDouble(s) <= |s|
    ensures FindDouble(s) < |s| ==> FindDouble(s) + 2 <= |s|
  {
    if |s| < 2 then |s| else if s[0] == COLON && s[1] == COLON then 0 else 1 + FindDouble(s[1..])
  }

  /** `filter(Boolean)` */
  function NonEmpty(parts: seq<string>): seq<string> {
    if parts == [] then [] else (if parts[0] != "" then [parts[0]] else []) + NonEmpty(parts[1..])
  }

  function Groups(s: string): seq<string> {
    if s == "" then [] else NonEmpty(Split(s, COLON))
  }

  /** The hextets of the groups; `None` if one is not a number from 0 to 0xffff. */
  function ParseGroups(groups: seq<string>): Option<seq<int>> {
    if groups == [] then Some([])
    else
      var n := ParseInt16(groups[0]);
      var rest := ParseGroups(groups[1..]);
      if n == None || n.value < 0 || n.value > 0xffff || rest == None then None else Some([n.value] + rest.value)
  }

  function Zeros(n: nat): seq<int> {
    seq(n, _ => 0)
  }

  function WithEmbedded(hextets: seq<int>, v4: Option<seq<int>>): seq<int>
    requires |hextets| == 8 && (v4.Some? ==> |v4.value| == 4)
  {
    match v4
    case None => hextets
    case Some(q) => hextets[6 := q[0] * 256 + q[1]][7 := q[2] * 256 + q[3]]
  }

  lemma ParseGroupsLength(groups: seq<string>)
    ensures ParseGroups(groups).Some? ==> |ParseGroups(groups).value| == |groups|
  {
  }

  /** The two sides with zeros between them, and the dotted tail written over the last two slots. */
  function Splice(l: seq<int>, r: seq<int>, v4: Option<seq<int>>): seq<int>
    requires |l| + |r| <= 8 && (v4.Some? ==> |v4.value| == 4)
  {
    WithEmbedded(l + Zeros(8 - |l| - |r|) + r, v4)
  }

  function ExpandCompressed(left: seq<string>, right: seq<string>, v4: Option<seq<int>>): Option<seq<int>>
    requires v4.Some? ==> |v4.value| == 4
  {
    if |left| + |right| > 8 then None
    else
      var l, r := ParseGroups(left), ParseGroups(right);
      ParseGroupsLength(left);
      ParseGroupsLength(right);
      if l == None || r == None then None else Some(Splice(l.value, r.value, v4))
  }

  function ExpandCore(core: string, v4: Option<seq<int>>): Option<seq<int>>
    requires v4.Some? ==> |v4.value| == 4
  {
    var d := FindDouble(core);
    if d < |core| then
      var rest := core[d + 2..];
      ExpandCompressed(Groups(core[..d]), Groups(rest[..FindDouble(rest)]), v4)
    else
      var parts := Split(core, COLON);
      if |parts| != 8 then None else ParseGroups(parts)
  }

  const PLACEHOLDER := ":0:0"

  function ExpandBare(bare: string): Option<seq<int>> {
    var p := LastColon(bare);
    if p < 0 then None
    else if !IsDottedQuad(bare[p + 1..]) then ExpandCore(bare, None)
    else
      var v4 := ParseIpv4(bare[p + 1..]);
      if v4 == None then None else ExpandCore(bare[..p] + PLACEHOLDER, v4)
  }

  function BeforePercent(s: string): string {
    if s == "" || s[0] == '%' then "" else [s[0]] + BeforePercent(s[1..])
  }

  function Expand(ip: string): Option<seq<int>> {
    ExpandBare(BeforePercent(StripBrackets(ip)))
  }

  /** `expandIpv6Hextets`, with its reassigned locals and overwritten slots. */
  method ExpandIpv6Hextets(ip: string) returns (result: Option<seq<int>>)
    ensures result == Expand(ip)
  {
    var bare := BeforePercent(StripBrackets(ip));
    var p := LastColon(bare);
    if p < 0 {
      return None;
    }
    var core := bare;
    var embeddedV4: Option<seq<int>> := None;
    if IsDottedQuad(bare[p + 1..]) {
      embeddedV4 := ParseIpv4(bare[p + 1..]);
      if embeddedV4 == None {
        return None;
      }
      core := bare[..p] + PLACEHOLDER;
    }
    result := ExpandCoreInPlace(core, embeddedV4);
  }

  method ExpandCoreInPlace(core: string, embeddedV4: Option<seq<int>>) returns (result: Option<seq<int>>)
    requires embeddedV4.Some? ==> |embeddedV4.value| == 4
    ensures result == ExpandCore(core, embeddedV4)
  {
    var d := FindDouble(core);
    if d == |core| {
      var parts := Split(core, COLON);
      if |parts| != 8 {
        return None;
      }
      return ParseGroups(parts);
    }
    var rest := core[d + 2..];
    var left, right := Groups(core[..d]), Groups(rest[..FindDouble(rest)]);
    result := ExpandSides(left, right, embeddedV4);
  }

  method ExpandSides(left: seq<string>, right: seq<string>, embeddedV4: Option<seq<int>>)
    returns (result: Option<seq<int>>)
    requires embeddedV4.Some? ==> |embeddedV4.value| == 4
    ensures result == ExpandCompressed(left, right, embeddedV4)
  {
    var missing := 8 - |left| - |right|;
    if missing < 0 {
      return None;
    }
    var l, r := ParseGroups(left), ParseGroups(right);
    ParseGroupsLength(left);
    ParseGroupsLength(right);
    if l == None || r == None {
      return None;
    }
    var hextets := OverwriteTail(l.value + Zeros(missing) + r.value, embeddedV4);
    return Some(hextets);
  }

  method OverwriteTail(zeroed: seq<int>, embeddedV4: Option<seq<int>>) returns (hextets: seq<int>)
    requires |zeroed| == 8 && (embeddedV4.Some? ==> |embeddedV4.value| == 4)
    ensures hextets == WithEmbedded(zeroed, embeddedV4)
  {
    hextets := zeroed;
    if embeddedV4.Some? {
      var v4 := embeddedV4.value;
      hextets := hextets[6 := v4[0] * 256 + v4[1]];
      hextets := hextets[7 := v4[2] * 256 + v4[3]];
    }
  }

  /** What a mask that clears the low bits leaves; `size` is the power of two of the cleared bits. */
  function Masked(n: int, size: int): int
    requires size > 0
  {
    n - n % size
  }

  function DigitChar(d: int): char
    requires 0 <= d < 10
  {
    ('0' as int + d) as char
  }

  function ToDecimal(n: nat): string {
    if n < 10 then [DigitChar(n)] else ToDecimal(n / 10) + [DigitChar(n % 10)]
  }

  function HighByte(h: int): nat {
    h / 256 % 256
  }

  function LowByte(h: int): nat {
    h % 256
  }

  function Dotted(h: int, l: int): string {
    Join([ToDecimal(HighByte(h)), ToDecimal(LowByte(h)), ToDecimal(HighByte(l)), ToDecimal(LowByte(l))], DOT)
  }

  /** The checks on the hextets; `mapped` is the verdict on the IPv4 address in the last two. */
  predicate IsBlockedGiven(h: seq<int>, mapped: bool)
    requires |h| == 8
  {
    if h == Zeros(8) then true
    else if h == Zeros(7) + [1] then true
    else if h[..6] == Zeros(5) + [0xffff] then mapped
    else if Masked(h[0], 64) == 0xfe80 then true
    else if Masked(h[0], 512) == 0xfc00 then true
    else Masked(h[0], 256) == 0xff00
  }

  predicate IsBlockedHextets(h: seq<int>)
    requires |h| == 8
  {
    IsBlockedGiven(h, IsBlockedIPv4(Dotted(h[6], h[7])))
  }

  predicate IsBlockedIPv6(ip: string) {
    var hextets := Expand(ip);
    hextets == None || |hextets.value| != 8 || IsBlockedHextets(hextets.value)
  }

  // ---------------------------------------------------------------------------------------------
  // The texts of an address
  // ---------------------------------------------------------------------------------------------

  /** One to four hexadecimal digits, in lower case as `toLowerCase` leaves them. */
  predicate IsGroup(g: string) {
    1 <= |g| <= 4 && forall i :: 0 <= i < |g| ==> '0' <= g[i] <= '9' || 'a' <= g[i] <= 'f'
  }

  ghost predicate AreGroups(groups: seq<string>) {
    forall i :: 0 <= i < |groups| ==> IsGroup(groups[i])
  }

  predicate IsOctet(s: string) {
    IsOctetText(s) && Value(s, 10) <= 255
  }

  /** The three forms of section 2.2 of RFC 4291: full, compressed, compressed with a dotted tail. */
  datatype Address =
    | Full(groups: seq<string>)
    | Compressed(left: seq<string>, right: seq<string>)
    | Embedded(left: seq<string>, right: seq<string>, quad: seq<string>)

  ghost predicate Valid(a: Address) {
    match a
    case Full(groups) => |groups| == 8 && AreGroups(groups)
    case Compressed(left, right) => |left| + |right| <= 8 && AreGroups(left) && AreGroups(right)
    case Embedded(left, right, quad) =>
      && |left| + |right| <= 6 && AreGroups(left) && AreGroups(right)
      && |quad| == 4 && forall i :: 0 <= i < 4 ==> IsOctet(quad[i])
  }

  const DOUBLE := "::"

  function TextOf(a: Address): string {
    match a
    case Full(groups) => Join(groups, COLON)
    case Compressed(left, right) => Join(left, COLON) + DOUBLE + Join(right, COLON)
    case Embedded(left, right, quad) => Join(left, COLON) + DOUBLE + Join(right + [Join(quad, DOT)], COLON)
  }

  function Values(groups: seq<string>): seq<int> {
    seq(|groups|, i requires 0 <= i < |groups| => Value(groups[i], 16))
  }

  function Octets(quad: seq<string>): seq<int> {
    seq(|quad|, i requires 0 <= i < |quad| => Value(quad[i], 10))
  }

  /** Four octets as two hextets. */
  function PairUp(q: seq<int>): seq<int>
    requires |q| == 4
  {
    [q[0] * 256 + q[1], q[2] * 256 + q[3]]
  }

  /** The eight hextets an address text stands for. */
  function HextetsOf(a: Address): seq<int>
    requires a.Full? || |a.left| + |a.right| <= 8
    requires a.Embedded? ==> |a.left| + |a.right| <= 6 && |a.quad| == 4
  {
    match a
    case Full(groups) => Values(groups)
    case Compressed(left, right) => Values(left) + Zeros(8 - |left| - |right|) + Values(right)
    case Embedded(left, right, quad) =>
      Values(left) + Zeros(6 - |left| - |right|) + Values(right) + PairUp(Octets(quad))
  }

  // ---------------------------------------------------------------------------------------------
  // Parsing gives the hextets back
  // ---------------------------------------------------------------------------------------------

  lemma {:induction false} HexPrefixOfHex(s: string)
    requires forall i :: 0 <= i < |s| ==> IsHex(s[i])
    ensures HexPrefix(s) == s
    decreases |s|
  {
    if s != "" {
      HexPrefixOfHex(s[1..]);
    }
  }

  function Pow16(n: nat): nat {
    if n == 0 then 1 else 16 * Pow16(n - 1)
  }

  lemma {:induction false} HexBounds(s: string)
    requires forall i :: 0 <= i < |s| ==> IsHex(s[i])
    ensures 0 <= Value(s, 16) < Pow16(|s|)
    decreases |s|
  {
    if s != "" {
      HexBounds(s[..|s| - 1]);
    }
  }

  lemma GroupParses(g: string)
    requires IsGroup(g)
    ensures ParseInt16(g) == Some(Value(g, 16)) && 0 <= Value(g, 16) <= 0xffff
  {
    HexPrefixOfHex(g);
    HexBounds(g);
    assert Pow16(1) == 16 && Pow16(2) == 256 && Pow16(3) == 4096 && Pow16(4) == 65536;
    assert TrimLeft(g) == g;
  }

  lemma {:induction false} GroupsParse(groups: seq<string>)
    requires AreGroups(groups)
    ensures ParseGroups(groups) == Some(Values(groups))
    decreases |groups|
  {
    if groups != [] {
      GroupParses(groups[0]);
      GroupsParse(groups[1..]);
      assert Values(groups) == [Value(groups[0], 16)] + Values(groups[1..]);
    }
  }

  lemma {:induction false} NonEmptyGroups(groups: seq<string>)
    requires AreGroups(groups)
    ensures NonEmpty(groups) == groups
    decreases |groups|
  {
    if groups != [] {
      NonEmptyGroups(groups[1..]);
      assert [groups[0]] + groups[1..] == groups;
    }
  }

  /** A run of groups is read back group by group. */
  lemma GroupsOfJoin(groups: seq<string>)
    requires AreGroups(groups)
    ensures Groups(Join(groups, COLON)) == groups
  {
    if groups != [] {
      SplitJoin(groups, COLON);
      NonEmptyGroups(groups);
      assert Join(groups, COLON) != "" by {
        assert IsGroup(groups[0]);
      }
    }
  }

  /** Text in which no colon comes first, last or after another. */
  predicate SingleColons(s: string) {
    && (s != "" ==> s[0] != COLON && s[|s| - 1] != COLON)
    && forall i :: 0 <= i < |s| - 1 ==> s[i] != COLON || s[i + 1] != COLON
  }

  /** Non-empty texts without a colon. */
  ghost predicate AreParts(parts: seq<string>) {
    forall i :: 0 <= i < |parts| ==> parts[i] != "" && Lacks(parts[i], COLON)
  }

  lemma {:induction false} PartsHaveSingleColons(parts: seq<string>)
    requires AreParts(parts)
    ensures SingleColons(Join(parts, COLON))
    decreases |parts|
  {
    if |parts| > 1 {
      var head, tail := parts[0], Join(parts[1..], COLON);
      PartsHaveSingleColons(parts[1..]);
      assert parts[1] != "" && tail != "";
      var s := head + [COLON] + tail;
      assert s[|s| - 1] == tail[|tail| - 1];
      forall i | 0 <= i < |s| - 1 ensures s[i] != COLON || s[i + 1] != COLON {
        if i > |head| {
          assert s[i] == tail[i - |head| - 1] && s[i + 1] == tail[i - |head|];
        } else if i == |head| {
          assert s[i + 1] == tail[0];
        }
      }
    }
  }

  lemma JoinedHasSingleColons(groups: seq<string>)
    requires AreGroups(groups)
    ensures SingleColons(Join(groups, COLON))
  {
    forall i | 0 <= i < |groups| ensures groups[i] != "" && Lacks(groups[i], COLON) {
      assert IsGroup(groups[i]);
    }
    PartsHaveSingleColons(groups);
  }

  lemma {:induction false} NoDouble(s: string)
    requires SingleColons(s)
    ensures FindDouble(s) == |s|
    decreases |s|
  {
    NoDoubleFrom(s, 0);
  }

  lemma {:induction false} NoDoubleFrom(s: string, k: nat)
    requires k <= |s| && forall i :: 0 <= i < |s| - 1 ==> s[i] != COLON || s[i + 1] != COLON
    ensures FindDouble(s[k..]) == |s| - k
    decreases |s| - k
  {
    if k < |s| - 1 {
      NoDoubleFrom(s, k + 1);
      assert s[k..][1..] == s[k + 1..];
    }
  }

  lemma {:induction false} FirstDouble(s: string, rest: string, k: nat)
    requires SingleColons(s) && k <= |s|
    ensures FindDouble(s[k..] + DOUBLE + rest) == |s| - k
    decreases |s| - k
  {
    var t := s[k..] + DOUBLE + rest;
    if k == |s| {
      assert t == DOUBLE + rest;
    } else {
      assert t[1..] == s[k + 1..] + DOUBLE + rest;
      FirstDouble(s, rest, k + 1);
      assert t[0] == s[k];
      assert k < |s| - 1 ==> t[1] == s[k + 1];
    }
  }

  /** A compressed text splits at its `::` into the groups on either side. */
  lemma CompressedCore(left: seq<string>, right: seq<string>, v4: Option<seq<int>>)
    requires AreGroups(left) && AreGroups(right) && (v4.Some? ==> |v4.value| == 4)
    ensures ExpandCore(Join(left, COLON) + DOUBLE + Join(right, COLON), v4) == ExpandCompressed(left, right, v4)
  {
    var l, r := Join(left, COLON), Join(right, COLON);
    var core := l + DOUBLE + r;
    JoinedHasSingleColons(left);
    JoinedHasSingleColons(right);
    FirstDouble(l, r, 0);
    assert l[0..] == l;
    assert core[..|l|] == l && core[|l| + 2..] == r;
    NoDouble(r);
    assert r[..|r|] == r;
    GroupsOfJoin(left);
    GroupsOfJoin(right);
  }

  lemma FullCore(groups: seq<string>, v4: Option<seq<int>>)
    requires |groups| == 8 && AreGroups(groups) && (v4.Some? ==> |v4.value| == 4)
    ensures ExpandCore(Join(groups, COLON), v4) == Some(Values(groups))
  {
    JoinedHasSingleColons(groups);
    NoDouble(Join(groups, COLON));
    SplitJoin(groups, COLON);
    GroupsParse(groups);
  }

  lemma {:induction false} LastColonOf(s: string, tail: string)
    requires Lacks(tail, COLON)
    ensures LastColon(s + [COLON] + tail) == |s|
    decreases |tail|
  {
    var t := s + [COLON] + tail;
    if tail == "" {
      assert t == s + [COLON];
    } else {
      assert t[..|t| - 1] == s + [COLON] + tail[..|tail| - 1];
      LastColonOf(s, tail[..|tail| - 1]);
    }
  }

  /** A tail without a dot is no dotted quad. */
  lemma NoDotNoQuad(tail: string)
    requires Lacks(tail, DOT)
    ensures !IsDottedQuad(tail)
  {
    SplitOne(tail, DOT);
  }

  lemma LastGroupIsNoQuad(s: string)
    requires Lacks(s, DOT) && LastColon(s) >= 0
    ensures ExpandBare(s) == ExpandCore(s, None)
  {
    NoDotNoQuad(s[LastColon(s) + 1..]);
  }

  lemma {:induction false} HasColon(s: string, i: nat)
    requires i < |s| && s[i] == COLON
    ensures LastColon(s) >= 0
    decreases |s|
  {
    if s[|s| - 1] != COLON {
      HasColon(s[..|s| - 1], i);
    }
  }

  lemma {:induction false} JoinLacks(parts: seq<string>, sep: char, c: char)
    requires sep != c && forall i :: 0 <= i < |parts| ==> Lacks(parts[i], c)
    ensures Lacks(Join(parts, sep), c)
    decreases |parts|
  {
    if parts != [] {
      JoinLacks(parts[1..], sep, c);
    }
  }

  lemma GroupsLackDot(groups: seq<string>)
    requires AreGroups(groups)
    ensures Lacks(Join(groups, COLON), DOT)
  {
  }

  lemma FullParses(groups: seq<string>)
    requires |groups| == 8 && AreGroups(groups)
    ensures ExpandBare(Join(groups, COLON)) == Some(Values(groups))
  {
    var s := Join(groups, COLON);
    GroupsLackDot(groups);
    assert s == groups[0] + [COLON] + Join(groups[1..], COLON);
    HasColon(s, |groups[0]|);
    LastGroupIsNoQuad(s);
    FullCore(groups, None);
  }

  /** A text around `::` with no dot in it goes to the core as it is. */
  lemma BareIsCore(l: string, r: string)
    requires Lacks(l, DOT) && Lacks(r, DOT)
    ensures ExpandBare(l + DOUBLE + r) == ExpandCore(l + DOUBLE + r, None)
  {
    var s := l + DOUBLE + r;
    HasColon(s, |l|);
    LastGroupIsNoQuad(s);
  }

  lemma CompressedValue(left: seq<string>, right: seq<string>, v4: Option<seq<int>>)
    requires |left| + |right| <= 8 && AreGroups(left) && AreGroups(right)
    requires v4.Some? ==> |v4.value| == 4
    ensures ExpandCompressed(left, right, v4) == Some(Splice(Values(left), Values(right), v4))
  {
    GroupsParse(left);
    GroupsParse(right);
  }

  lemma CompressedParses(left: seq<string>, right: seq<string>)
    requires |left| + |right| <= 8 && AreGroups(left) && AreGroups(right)
    ensures ExpandBare(Join(left, COLON) + DOUBLE + Join(right, COLON))
            == Some(Splice(Values(left), Values(right), None))
  {
    var s := Join(left, COLON) + DOUBLE + Join(right, COLON);
    assert ExpandBare(s) == ExpandCore(s, None) by {
      GroupsLackDot(left);
      GroupsLackDot(right);
      BareIsCore(Join(left, COLON), Join(right, COLON));
    }
    assert ExpandCore(s, None) == ExpandCompressed(left, right, None) by {
      CompressedCore(left, right, None);
    }
    CompressedValue(left, right, None);
  }

  // The dotted tail.

  lemma QuadParses(quad: seq<string>)
    requires |quad| == 4 && forall i :: 0 <= i < 4 ==> IsOctet(quad[i])
    ensures var s := Join(quad, DOT);
            && IsDottedQuad(s) && Lacks(s, COLON)
            && ParseIpv4(s) == Some(Octets(quad))
  {
    assert IsOctet(quad[0]) && IsOctet(quad[1]) && IsOctet(quad[2]) && IsOctet(quad[3]);
    SplitJoin(quad, DOT);
    JoinLacks(quad, DOT, COLON);
    assert Octets(quad) == [Value(quad[0], 10), Value(quad[1], 10), Value(quad[2], 10), Value(quad[3], 10)];
  }

  lemma {:induction false} JoinSnoc(parts: seq<string>, last: string, sep: char)
    requires parts != []
    ensures Join(parts + [last], sep) == Join(parts, sep) + [sep] + last
    decreases |parts|
  {
    var all := parts + [last];
    assert all[1..] == parts[1..] + [last];
    if |parts| == 1 {
      assert all[1..] == [last];
    } else {
      JoinSnoc(parts[1..], last, sep);
    }
  }

  /** The placeholder puts two zero groups where the dotted tail was. */
  ghost predicate PlaceholderFits(left: seq<string>, right: seq<string>, tail: string) {
    var s := Join(left, COLON) + DOUBLE + Join(right + [tail], COLON);
    var p := LastColon(s);
    && 0 <= p < |s| && s[p + 1..] == tail
    && s[..p] + PLACEHOLDER == Join(left, COLON) + DOUBLE + Join(right + ["0", "0"], COLON)
  }

  lemma PlaceholderFitsAlone(left: seq<string>, tail: string)
    requires Lacks(tail, COLON)
    ensures PlaceholderFits(left, [], tail)
  {
    var l := Join(left, COLON);
    assert [] + [tail] == [tail] && [] + ["0", "0"] == ["0", "0"] && ["0", "0"][1..] == ["0"];
    assert Join(["0", "0"], COLON) == "0:0";
    var s := l + DOUBLE + tail;
    assert s == (l + [COLON]) + [COLON] + tail;
    LastColonOf(l + [COLON], tail);
    assert s[..|l| + 1] == l + [COLON];
    assert l + [COLON] + PLACEHOLDER == l + DOUBLE + "0:0";
  }

  lemma PlaceholderFitsAfter(left: seq<string>, right: seq<string>, tail: string)
    requires Lacks(tail, COLON) && right != []
    ensures PlaceholderFits(left, right, tail)
  {
    var front := Join(left, COLON) + DOUBLE + Join(right, COLON);
    JoinSnoc(right, tail, COLON);
    var s := Join(left, COLON) + DOUBLE + Join(right + [tail], COLON);
    assert s == front + [COLON] + tail;
    LastColonOf(front, tail);
    assert s[..|front|] == front;
    TwoZeroGroups(right);
    assert front + PLACEHOLDER == Join(left, COLON) + DOUBLE + (Join(right, COLON) + PLACEHOLDER);
  }

  lemma TwoZeroGroups(right: seq<string>)
    requires right != []
    ensures Join(right + ["0", "0"], COLON) == Join(right, COLON) + PLACEHOLDER
  {
    JoinSnoc(right, "0", COLON);
    JoinSnoc(right + ["0"], "0", COLON);
    assert right + ["0"] + ["0"] == right + ["0", "0"];
    assert Join(right, COLON) + [COLON] + "0" + [COLON] + "0" == Join(right, COLON) + PLACEHOLDER;
  }

  lemma EmbeddedSplice(l: seq<int>, r: seq<int>, q: seq<int>)
    requires |l| + |r| <= 6 && |q| == 4
    ensures Splice(l, r + [0, 0], Some(q))
            == l + Zeros(6 - |l| - |r|) + r + PairUp(q)
  {
  }

  lemma PaddedValues(right: seq<string>)
    ensures Values(right + ["0", "0"]) == Values(right) + [0, 0]
  {
  }

  lemma PaddedAreGroups(right: seq<string>)
    requires AreGroups(right)
    ensures AreGroups(right + ["0", "0"])
  {
  }

  lemma EmbeddedValue(left: seq<string>, right: seq<string>, q: seq<int>)
    requires |left| + |right| <= 6 && AreGroups(left) && AreGroups(right) && |q| == 4
    ensures ExpandCompressed(left, right + ["0", "0"], Some(q))
            == Some(Values(left) + Zeros(6 - |left| - |right|) + Values(right) + PairUp(q))
  {
    var padded := right + ["0", "0"];
    PaddedAreGroups(right);
    CompressedValue(left, padded, Some(q));
    PaddedValues(right);
    EmbeddedSplice(Values(left), Values(right), q);
  }

  lemma BareIsPadded(left: seq<string>, right: seq<string>, tail: string)
    requires PlaceholderFits(left, right, tail) && IsDottedQuad(tail) && ParseIpv4(tail).Some?
    ensures ExpandBare(Join(left, COLON) + DOUBLE + Join(right + [tail], COLON))
            == ExpandCore(Join(left, COLON) + DOUBLE + Join(right + ["0", "0"], COLON), ParseIpv4(tail))
  {
  }

  lemma EmbeddedParses(left: seq<string>, right: seq<string>, tail: string, q: seq<int>)
    requires |left| + |right| <= 6 && AreGroups(left) && AreGroups(right) && |q| == 4
    requires IsDottedQuad(tail) && Lacks(tail, COLON) && ParseIpv4(tail) == Some(q)
    ensures ExpandBare(Join(left, COLON) + DOUBLE + Join(right + [tail], COLON))
            == Some(Values(left) + Zeros(6 - |left| - |right|) + Values(right) + PairUp(q))
  {
    if right == [] {
      PlaceholderFitsAlone(left, tail);
    } else {
      PlaceholderFitsAfter(left, right, tail);
    }
    BareIsPadded(left, right, tail);
    PaddedAreGroups(right);
    CompressedCore(left, right + ["0", "0"], Some(q));
    EmbeddedValue(left, right, q);
  }

  lemma EmbeddedTextParses(left: seq<string>, right: seq<string>, quad: seq<string>)
    requires |left| + |right| <= 6 && AreGroups(left) && AreGroups(right)
    requires |quad| == 4 && forall i :: 0 <= i < 4 ==> IsOctet(quad[i])
    ensures ExpandBare(Join(left, COLON) + DOUBLE + Join(right + [Join(quad, DOT)], COLON))
            == Some(Values(left) + Zeros(6 - |left| - |right|) + Values(right) + PairUp(Octets(quad)))
  {
    QuadParses(quad);
    EmbeddedParses(left, right, Join(quad, DOT), Octets(quad));
  }

  lemma FullText(a: Address)
    requires a.Full? && Valid(a)
    ensures ExpandBare(TextOf(a)) == Some(HextetsOf(a))
  {
    FullParses(a.groups);
  }

  lemma SpliceGap(left: seq<string>, right: seq<string>)
    requires |left| + |right| <= 8
    ensures Splice(Values(left), Values(right), None) == HextetsOf(Compressed(left, right))
  {
  }

  lemma CompressedText(a: Address)
    requires a.Compressed? && Valid(a)
    ensures ExpandBare(TextOf(a)) == Some(HextetsOf(a))
  {
    CompressedParses(a.left, a.right);
    SpliceGap(a.left, a.right);
  }

  lemma EmbeddedForms(a: Address)
    requires a.Embedded? && Valid(a)
    ensures TextOf(a) == Join(a.left, COLON) + DOUBLE + Join(a.right + [Join(a.quad, DOT)], COLON)
    ensures HextetsOf(a)
            == Values(a.left) + Zeros(6 - |a.left| - |a.right|) + Values(a.right) + PairUp(Octets(a.quad))
  {
  }

  lemma EmbeddedText(a: Address)
    requires a.Embedded? && Valid(a)
    ensures ExpandBare(TextOf(a)) == Some(HextetsOf(a))
  {
    EmbeddedForms(a);
    EmbeddedTextParses(a.left, a.right, a.quad);
  }

  /** Every full text, compressed text and compressed text with a dotted tail gives its eight hextets. */
  lemma ExpandRecoversHextets(ip: string, a: Address)
    requires Valid(a) && BeforePercent(StripBrackets(ip)) == TextOf(a)
    ensures Expand(ip) == Some(HextetsOf(a))
  {
    match a
    case Full(_) => FullText(a);
    case Compressed(_, _) => CompressedText(a);
    case Embedded(_, _, _) => EmbeddedText(a);
  }

  // Six groups and a dotted tail, with no `::`.

  lemma LongTailPlaceholder(groups: seq<string>, tail: string)
    requires groups != [] && Lacks(tail, COLON) && IsDottedQuad(tail) && ParseIpv4(tail).Some?
    ensures ExpandBare(Join(groups + [tail], COLON)) == ExpandCore(Join(groups + ["0", "0"], COLON), ParseIpv4(tail))
  {
    var front := Join(groups, COLON);
    JoinSnoc(groups, tail, COLON);
    TwoZeroGroups(groups);
    var s := front + [COLON] + tail;
    LastColonOf(front, tail);
    assert s[..|front|] == front && s[|front| + 1..] == tail;
  }

  /** Without `::` the two placeholder groups are never overwritten: the dotted tail reads as zero. */
  lemma LongTailIsDropped(groups: seq<string>, quad: seq<string>)
    requires |groups| == 6 && AreGroups(groups)
    requires |quad| == 4 && forall i :: 0 <= i < 4 ==> IsOctet(quad[i])
    ensures ExpandBare(Join(groups + [Join(quad, DOT)], COLON)) == Some(Values(groups) + [0, 0])
  {
    QuadParses(quad);
    LongTailPlaceholder(groups, Join(quad, DOT));
    PaddedAreGroups(groups);
    FullCore(groups + ["0", "0"], Some(Octets(quad)));
    PaddedValues(groups);
  }

  lemma ZeroPairs(h: seq<int>, q: seq<int>)
    requires |q| == 4 && forall i :: 0 <= i < 4 ==> q[i] >= 0
    ensures h + [0, 0] == h + PairUp(q) <==> q == [0, 0, 0, 0]
  {
    var x, y := h + [0, 0], h + PairUp(q);
    assert x == y ==> x[|h|] == y[|h|] && x[|h| + 1] == y[|h| + 1];
  }

  /** Six groups and a dotted tail are read back exactly if the tail is 0.0.0.0. */
  lemma LongTailRecoveredIff(groups: seq<string>, quad: seq<string>)
    requires |groups| == 6 && AreGroups(groups)
    requires |quad| == 4 && forall i :: 0 <= i < 4 ==> IsOctet(quad[i])
    ensures ExpandBare(Join(groups + [Join(quad, DOT)], COLON)) == Some(Values(groups) + PairUp(Octets(quad)))
            <==> Octets(quad) == [0, 0, 0, 0]
  {
    LongTailIsDropped(groups, quad);
    forall i | 0 <= i < 4 ensures Octets(quad)[i] >= 0 {
      DigitsAreNonNegative(quad[i]);
    }
    ZeroPairs(Values(groups), Octets(quad));
  }

  /** `0:0:0:0:0:0:8.8.8.8` is read as `::`. */
  lemma LongTailLosesEights()
    ensures var zeros, eights := ["0", "0", "0", "0", "0", "0"], ["8", "8", "8", "8"];
            && ExpandBare(Join(zeros + [Join(eights, DOT)], COLON)) == Some(Values(zeros) + [0, 0])
            && Octets(eights) == [8, 8, 8, 8]
  {
    assert Value("8", 10) == 8 by {
      assert "8"[..0] == "";
    }
    LongTailIsDropped(["0", "0", "0", "0", "0", "0"], ["8", "8", "8", "8"]);
  }

  // ---------------------------------------------------------------------------------------------
  // Brackets, case and zone
  // ---------------------------------------------------------------------------------------------

  predicate IsAddressChar(c: char) {
    '0' <= c <= '9' || 'a' <= c <= 'f' || c == COLON || c == DOT
  }

  predicate IsAddressText(s: string) {
    forall i :: 0 <= i < |s| ==> IsAddressChar(s[i])
  }

  lemma {:induction false} JoinedIsAddressText(parts: seq<string>, sep: char)
    requires IsAddressChar(sep) && forall i :: 0 <= i < |parts| ==> IsAddressText(parts[i])
    ensures IsAddressText(Join(parts, sep))
    decreases |parts|
  {
    if parts != [] {
      JoinedIsAddressText(parts[1..], sep);
    }
  }

  lemma GroupsAreAddressText(groups: seq<string>)
    requires AreGroups(groups)
    ensures IsAddressText(Join(groups, COLON))
  {
  }

  lemma TailIsAddressText(right: seq<string>, quad: seq<string>)
    requires AreGroups(right) && forall i :: 0 <= i < |quad| ==> IsOctet(quad[i])
    ensures IsAddressText(Join(right + [Join(quad, DOT)], COLON))
  {
    forall i | 0 <= i < |quad| ensures IsAddressText(quad[i]) {
      assert IsOctet(quad[i]);
    }
    JoinedIsAddressText(quad, DOT);
    var parts := right + [Join(quad, DOT)];
    forall i | 0 <= i < |parts| ensures IsAddressText(parts[i]) {
      assert i < |right| ==> IsGroup(right[i]);
    }
    JoinedIsAddressText(parts, COLON);
  }

  lemma TextIsAddressText(a: Address)
    requires Valid(a)
    ensures IsAddressText(TextOf(a)) && TextOf(a) != ""
  {
    match a
    case Full(groups) =>
      GroupsAreAddressText(groups);
      assert IsGroup(groups[0]);
    case Compressed(left, right) =>
      GroupsAreAddressText(left);
      GroupsAreAddressText(right);
    case Embedded(left, right, quad) =>
      GroupsAreAddressText(left);
      TailIsAddressText(right, quad);
  }

  /** A spelling of a lower-case text: any case, perhaps a zone after `%`, perhaps in brackets. */
  ghost predicate Spells(ip: string, text: string) {
    exists upper: string, zone: string, bracketed: bool {:trigger Spelling(upper, zone, bracketed)} ::
      && ToLower(upper) == text && (zone == "" || zone[0] == '%') && Trimmed(zone)
      && ip == Spelling(upper, zone, bracketed)
  }

  function Spelling(upper: string, zone: string, bracketed: bool): string {
    if bracketed then ['['] + (upper + zone) + [']'] else upper + zone
  }

  lemma {:induction false} CutAtPercent(text: string, zone: string)
    requires IsAddressText(text) && (zone == "" || zone[0] == '%')
    ensures BeforePercent(text + zone) == text
    decreases |text|
  {
    if text == "" {
      assert text + zone == zone;
    } else {
      assert (text + zone)[1..] == text[1..] + zone;
      CutAtPercent(text[1..], zone);
      assert [text[0]] + text[1..] == text;
    }
  }

  lemma LowerOfConcat(s: string, t: string)
    ensures ToLower(s + t) == ToLower(s) + ToLower(t)
  {
  }

  lemma AddressTextIsTrimmed(upper: string)
    requires IsAddressText(ToLower(upper))
    ensures Trimmed(upper)
  {
    if upper != "" {
      var text := ToLower(upper);
      assert IsAddressChar(text[0]) && IsAddressChar(text[|text| - 1]);
    }
  }

  lemma NoBracketToStrip(text: string, zone: string)
    requires IsAddressText(text) && text != ""
    ensures Unbracketed(text + zone)
            == text + (if zone != "" && zone[|zone| - 1] == ']' then zone[..|zone| - 1] else zone)
  {
  }

  lemma BareZone(text: string, zone: string)
    requires IsAddressText(text) && text != "" && (zone == "" || zone[0] == '%')
    ensures BeforePercent(Unbracketed(text + zone)) == text
  {
    NoBracketToStrip(text, zone);
    CutAtPercent(text, if zone != "" && zone[|zone| - 1] == ']' then zone[..|zone| - 1] else zone);
  }

  lemma BracketedZone(text: string, zone: string)
    requires IsAddressText(text) && (zone == "" || zone[0] == '%')
    ensures BeforePercent(Unbracketed(['['] + (text + zone) + [']'])) == text
  {
    var inner := text + zone;
    var s := ['['] + inner + [']'];
    assert s[1..] == inner + [']'];
    assert s[1..][..|inner|] == inner;
    CutAtPercent(text, zone);
  }

  lemma SpellingIsTrimmed(upper: string, zone: string)
    requires Trimmed(upper) && upper != "" && Trimmed(zone)
    ensures Trimmed(upper + zone)
  {
  }

  lemma UnbracketedIsStripped(upper: string, zone: string, text: string)
    requires ToLower(upper) == text && IsAddressText(text) && text != ""
    requires (zone == "" || zone[0] == '%') && Trimmed(zone)
    ensures BeforePercent(StripBrackets(upper + zone)) == text
  {
    AddressTextIsTrimmed(upper);
    SpellingIsTrimmed(upper, zone);
    TrimmedIsFixed(upper + zone);
    LowerOfConcat(upper, zone);
    BareZone(text, ToLower(zone));
  }

  lemma BracketedIsStripped(upper: string, zone: string, text: string)
    requires ToLower(upper) == text && IsAddressText(text) && (zone == "" || zone[0] == '%')
    ensures BeforePercent(StripBrackets(['['] + (upper + zone) + [']'])) == text
  {
    var s := ['['] + (upper + zone) + [']'];
    TrimmedIsFixed(s);
    LowerOfConcat(upper, zone);
    LowerOfConcat(['['], upper + zone);
    LowerOfConcat(['['] + (upper + zone), [']']);
    assert ToLower(['[']) == ['['] && ToLower([']']) == [']'];
    BracketedZone(text, ToLower(zone));
  }

  lemma SpellingIsStripped(ip: string, text: string)
    requires IsAddressText(text) && text != "" && Spells(ip, text)
    ensures BeforePercent(StripBrackets(ip)) == text
  {
    var upper, zone, bracketed {:trigger Spelling(upper, zone, bracketed)} :|
      && ToLower(upper) == text && (zone == "" || zone[0] == '%') && Trimmed(zone)
      && ip == Spelling(upper, zone, bracketed);
    if bracketed {
      BracketedIsStripped(upper, zone, text);
    } else {
      UnbracketedIsStripped(upper, zone, text);
    }
  }

  // ---------------------------------------------------------------------------------------------
  // Addresses as numbers, blocked ranges as intervals
  // ---------------------------------------------------------------------------------------------

  datatype Net = Net(base: int, size: int) {
    predicate Has(address: int) {
      base <= address < base + size
    }
  }

  const BITS16 := 0x1_0000
  const BITS20 := 0x10_0000
  const BITS22 := 0x40_0000
  const BITS24 := 0x100_0000

  function Quad(a: int, b: int, c: int, d: int): int {
    ((a * 256 + b) * 256 + c) * 256 + d
  }

  /** 0/8, 10/8, 127/8, 169.254/16, 172.16/12, 192.168/16, 100.64/10 and 224/3. */
  predicate InBlockedNet4(address: int) {
    || Net(0, BITS24).Has(address)
    || Net(Quad(10, 0, 0, 0), BITS24).Has(address)
    || Net(Quad(127, 0, 0, 0), BITS24).Has(address)
    || Net(Quad(169, 254, 0, 0), BITS16).Has(address)
    || Net(Quad(172, 16, 0, 0), BITS20).Has(address)
    || Net(Quad(192, 168, 0, 0), BITS16).Has(address)
    || Net(Quad(100, 64, 0, 0), BITS22).Has(address)
    || Net(Quad(224, 0, 0, 0), 32 * BITS24).Has(address)
  }

  const BITS112 := 0x1_0000_0000_0000_0000_0000_0000_0000
  const MAPPED := Net(0xffff_0000_0000, 0x1_0000_0000)

  /** ::, ::1, fe80::/10, fc00::/7, ff00::/8, and the blocked IPv4 addresses within ::ffff:0:0/96. */
  predicate InBlockedNet6(address: int) {
    || address == 0
    || address == 1
    || (MAPPED.Has(address) && InBlockedNet4(address - MAPPED.base))
    || Net(0xfe80 * BITS112, 64 * BITS112).Has(address)
    || Net(0xfc00 * BITS112, 512 * BITS112).Has(address)
    || Net(0xff00 * BITS112, 256 * BITS112).Has(address)
  }

  lemma OctetsInNet(a: int, b: int, c: int, d: int)
    requires 0 <= a < 256 && 0 <= b < 256 && 0 <= c < 256 && 0 <= d < 256
    ensures IsBlockedOctets(a, b) <==> InBlockedNet4(Quad(a, b, c, d))
  {
  }

  const BITS48 := 0x1_0000_0000_0000
  const BITS64 := 0x1_0000_0000_0000_0000

  function Words(a: int, b: int, c: int, d: int): int {
    ((a * 65536 + b) * 65536 + c) * 65536 + d
  }

  /** The 128-bit number of eight hextets. */
  function Number(h: seq<int>): int
    requires |h| == 8
  {
    Words(h[0], h[1], h[2], h[3]) * BITS64 + Words(h[4], h[5], h[6], h[7])
  }

  predicate IsWord(n: int) {
    0 <= n < 65536
  }

  lemma WordsAreUnique(a: int, b: int, c: int, d: int)
    requires IsWord(a) && IsWord(b) && IsWord(c) && IsWord(d)
    ensures a * BITS48 <= Words(a, b, c, d) < (a + 1) * BITS48
    ensures Words(a, b, c, d) == 0 <==> a == b == c == d == 0
    ensures Words(a, b, c, d) == 1 <==> a == b == c == 0 && d == 1
    ensures MAPPED.Has(Words(a, b, c, d)) <==> a == 0 && b == 0xffff
  {
  }

  /** The number splits into two halves as the hextets do. */
  lemma HalvesAreUnique(hi: int, lo: int, first: int)
    requires 0 <= lo < BITS64 && IsWord(first) && first * BITS48 <= hi < (first + 1) * BITS48
    ensures var n := hi * BITS64 + lo;
            && first * BITS112 <= n < (first + 1) * BITS112
            && (n == 0 <==> hi == lo == 0)
            && (n == 1 <==> hi == 0 && lo == 1)
            && (MAPPED.Has(n) <==> hi == 0 && MAPPED.Has(lo))
  {
  }

  lemma MaskIsNet(first: int, n: int, base: int, size: int)
    requires IsWord(first) && first * BITS112 <= n < (first + 1) * BITS112
    requires (base == 0xfe80 && size == 64) || (base == 0xfc00 && size == 512) || (base == 0xff00 && size == 256)
    ensures Masked(first, size) == base <==> Net(base * BITS112, size * BITS112).Has(n)
  {
  }

  // The dotted text that stands in for a mapped address.

  lemma DecimalOctet(n: nat)
    requires n < 256
    ensures IsOctet(ToDecimal(n)) && Value(ToDecimal(n), 10) == n
  {
    DecimalRoundTrip(n);
    if n >= 10 {
      DecimalLength(n / 10);
    }
  }

  lemma {:induction false} DecimalRoundTrip(n: nat)
    ensures Value(ToDecimal(n), 10) == n && forall i :: 0 <= i < |ToDecimal(n)| ==> IsDigit(ToDecimal(n)[i])
  {
    if n >= 10 {
      DecimalRoundTrip(n / 10);
      var s := ToDecimal(n);
      assert s[..|s| - 1] == ToDecimal(n / 10);
    } else {
      assert ToDecimal(n)[..0] == "";
    }
  }

  lemma DecimalLength(n: nat)
    requires n < 100
    ensures 1 <= |ToDecimal(n)| <= 2
  {
  }

  /** A dotted text is blocked exactly if its 32-bit number lies in a blocked range. */
  lemma QuadBlockedIff(quad: seq<string>)
    requires |quad| == 4 && forall i :: 0 <= i < 4 ==> IsOctet(quad[i])
    ensures IsBlockedIPv4(Join(quad, DOT))
            <==> InBlockedNet4(Quad(Value(quad[0], 10), Value(quad[1], 10), Value(quad[2], 10), Value(quad[3], 10)))
  {
    QuadParses(quad);
    var q := Octets(quad);
    forall i | 0 <= i < 4 ensures 0 <= q[i] < 256 {
      assert IsOctet(quad[i]);
      DigitsAreNonNegative(quad[i]);
    }
    OctetsInNet(q[0], q[1], q[2], q[3]);
  }

  lemma {:induction false} DigitsAreNonNegative(s: string)
    ensures Value(s, 10) >= 0
    decreases |s|
  {
    if s != "" {
      DigitsAreNonNegative(s[..|s| - 1]);
    }
  }

  lemma PrintedQuadBlockedIff(a: nat, b: nat, c: nat, d: nat)
    requires a < 256 && b < 256 && c < 256 && d < 256
    ensures IsBlockedIPv4(Join([ToDecimal(a), ToDecimal(b), ToDecimal(c), ToDecimal(d)], DOT))
            <==> InBlockedNet4(Quad(a, b, c, d))
  {
    DecimalOctet(a);
    DecimalOctet(b);
    DecimalOctet(c);
    DecimalOctet(d);
    QuadBlockedIff([ToDecimal(a), ToDecimal(b), ToDecimal(c), ToDecimal(d)]);
  }

  lemma BytesOfWords(h: int, l: int)
    requires IsWord(h) && IsWord(l)
    ensures Quad(HighByte(h), LowByte(h), HighByte(l), LowByte(l)) == h * 65536 + l
  {
  }

  lemma DottedBlockedIff(h: int, l: int)
    requires IsWord(h) && IsWord(l)
    ensures IsBlockedIPv4(Dotted(h, l)) <==> InBlockedNet4(h * 65536 + l)
  {
    PrintedQuadBlockedIff(HighByte(h), LowByte(h), HighByte(l), LowByte(l));
    BytesOfWords(h, l);
  }

  lemma ShapesAreHextets(h: seq<int>)
    requires |h| == 8
    ensures h == Zeros(8) <==> h[0] == h[1] == h[2] == h[3] == h[4] == h[5] == h[6] == h[7] == 0
    ensures h == Zeros(7) + [1] <==> h[0] == h[1] == h[2] == h[3] == h[4] == h[5] == h[6] == 0 && h[7] == 1
    ensures h[..6] == Zeros(5) + [0xffff] <==> h[0] == h[1] == h[2] == h[3] == h[4] == 0 && h[5] == 0xffff
  {
  }

  lemma ShapesAreNumbers(h: seq<int>)
    requires |h| == 8 && forall i :: 0 <= i < 8 ==> IsWord(h[i])
    ensures h[0] * BITS112 <= Number(h) < (h[0] + 1) * BITS112
    ensures h == Zeros(8) <==> Number(h) == 0
    ensures h == Zeros(7) + [1] <==> Number(h) == 1
    ensures h[..6] == Zeros(5) + [0xffff] <==> MAPPED.Has(Number(h))
  {
    ShapesAreHextets(h);
    WordsAreUnique(h[0], h[1], h[2], h[3]);
    WordsAreUnique(h[4], h[5], h[6], h[7]);
    HalvesAreUnique(Words(h[0], h[1], h[2], h[3]), Words(h[4], h[5], h[6], h[7]), h[0]);
  }

  lemma MappedNumber(h: seq<int>)
    requires |h| == 8 && h[..6] == Zeros(5) + [0xffff]
    ensures Number(h) - MAPPED.base == h[6] * 65536 + h[7]
  {
  }

  lemma GivenIff(h: seq<int>, mapped: bool)
    requires |h| == 8 && forall i :: 0 <= i < 8 ==> IsWord(h[i])
    requires mapped <==> InBlockedNet4(h[6] * 65536 + h[7])
    ensures IsBlockedGiven(h, mapped) <==> InBlockedNet6(Number(h))
  {
    var n := Number(h);
    ShapesAreNumbers(h);
    if h[..6] == Zeros(5) + [0xffff] {
      MappedNumber(h);
    }
    MaskIsNet(h[0], n, 0xfe80, 64);
    MaskIsNet(h[0], n, 0xfc00, 512);
    MaskIsNet(h[0], n, 0xff00, 256);
  }

  /** The checks on the hextets decide membership of the number in the blocked ranges. */
  lemma HextetsBlockedIff(h: seq<int>)
    requires |h| == 8 && forall i :: 0 <= i < 8 ==> IsWord(h[i])
    ensures IsBlockedHextets(h) <==> InBlockedNet6(Number(h))
  {
    DottedBlockedIff(h[6], h[7]);
    GivenIff(h, IsBlockedIPv4(Dotted(h[6], h[7])));
  }

  /** An address text, however spelled, is blocked exactly if its 128-bit number lies in a blocked range. */
  lemma AddressBlockedIff(ip: string, a: Address)
    requires Valid(a) && Spells(ip, TextOf(a))
    ensures Expand(ip) == Some(HextetsOf(a)) && |HextetsOf(a)| == 8
    ensures IsBlockedIPv6(ip) <==> InBlockedNet6(Number(HextetsOf(a)))
  {
    TextIsAddressText(a);
    SpellingIsStripped(ip, TextOf(a));
    ExpandRecoversHextets(ip, a);
    HextetsAreWords(a);
    HextetsBlockedIff(HextetsOf(a));
  }

  lemma ValuesAreWords(groups: seq<string>)
    requires AreGroups(groups)
    ensures forall i :: 0 <= i < |groups| ==> IsWord(Values(groups)[i])
  {
    forall i | 0 <= i < |groups| ensures IsWord(Values(groups)[i]) {
      assert IsGroup(groups[i]);
      GroupParses(groups[i]);
    }
  }

  lemma PairsAreWords(quad: seq<string>)
    requires |quad| == 4 && forall i :: 0 <= i < 4 ==> IsOctet(quad[i])
    ensures IsWord(PairUp(Octets(quad))[0]) && IsWord(PairUp(Octets(quad))[1])
  {
    forall i | 0 <= i < 4 ensures 0 <= Octets(quad)[i] < 256 {
      assert IsOctet(quad[i]);
      DigitsAreNonNegative(quad[i]);
    }
  }

  lemma HextetsAreWords(a: Address)
    requires Valid(a)
    ensures |HextetsOf(a)| == 8 && forall i :: 0 <= i < 8 ==> IsWord(HextetsOf(a)[i])
  {
    match a
    case Full(groups) => ValuesAreWords(groups);
    case Compressed(left, right) =>
      ValuesAreWords(left);
      ValuesAreWords(right);
    case Embedded(left, right, quad) =>
      ValuesAreWords(left);
      ValuesAreWords(right);
      PairsAreWords(quad);
  }

  // ---------------------------------------------------------------------------------------------
  // The verdict on six groups and a dotted tail
  // ---------------------------------------------------------------------------------------------

  /** The hextets such a text stands for. */
  function LongTailHextets(groups: seq<string>, quad: seq<string>): seq<int>
    requires |groups| == 6 && |quad| == 4
  {
    Values(groups) + PairUp(Octets(quad))
  }

  const MAPPED_PREFIX := [0, 0, 0, 0, 0, 0xffff]

  /** Reading the tail as zero: the six groups decide, and two prefixes are then always blocked. */
  lemma GivenZeroTail(front: seq<int>, tail: seq<int>, mapped: bool)
    requires |front| == 6 && |tail| == 2
    ensures IsBlockedGiven(front + [0, 0], true)
            <==> IsBlockedGiven(front + tail, mapped) || front == Zeros(6) || front == MAPPED_PREFIX
  {
    PrefixShapes(front);
    GivenBySplit(front, [0, 0], true);
    GivenBySplit(front, tail, mapped);
  }

  lemma PrefixShapes(front: seq<int>)
    requires |front| == 6
    ensures front == Zeros(6) <==> front[0] == front[1] == front[2] == front[3] == front[4] == front[5] == 0
    ensures front == MAPPED_PREFIX
            <==> front[0] == front[1] == front[2] == front[3] == front[4] == 0 && front[5] == 0xffff
  {
    assert front == [front[0], front[1], front[2], front[3], front[4], front[5]];
    assert Zeros(6) == [0, 0, 0, 0, 0, 0];
  }

  /** The checks, with the first six hextets and the last two apart. */
  lemma GivenBySplit(front: seq<int>, tail: seq<int>, mapped: bool)
    requires |front| == 6 && |tail| == 2
    ensures IsBlockedGiven(front + tail, mapped)
            <==> if front == Zeros(6) && tail[0] == 0 && (tail[1] == 0 || tail[1] == 1) then true
                 else if front == MAPPED_PREFIX then mapped
                 else
                   || Masked(front[0], 64) == 0xfe80
                   || Masked(front[0], 512) == 0xfc00
                   || Masked(front[0], 256) == 0xff00
  {
    var h := front + tail;
    ShapesAreHextets(h);
    PrefixShapes(front);
    assert h[0] == front[0] && h[1] == front[1] && h[2] == front[2] && h[3] == front[3] && h[4] == front[4];
    assert h[5] == front[5] && h[6] == tail[0] && h[7] == tail[1];
  }

  ghost predicate AreWords(h: seq<int>) {
    forall i :: 0 <= i < |h| ==> IsWord(h[i])
  }

  lemma ZeroTailVerdict(front: seq<int>, tail: seq<int>)
    requires |front| == 6 && |tail| == 2 && AreWords(front) && AreWords(tail)
    ensures InBlockedNet6(Number(front + [0, 0]))
            <==> InBlockedNet6(Number(front + tail)) || front == Zeros(6) || front == MAPPED_PREFIX
  {
    var mapped := InBlockedNet4(tail[0] * 65536 + tail[1]);
    GivenIff(front + [0, 0], true);
    GivenIff(front + tail, mapped);
    GivenZeroTail(front, tail, mapped);
  }

  /** Of the addresses below 2^32 only `::` and `::1` are blocked. */
  lemma LowNumbers(front: seq<int>, tail: seq<int>)
    requires |tail| == 2 && AreWords(tail) && front == Zeros(6)
    ensures InBlockedNet6(Number(front + tail)) <==> tail[0] * 65536 + tail[1] <= 1
  {
    assert Number(front + tail) == tail[0] * 65536 + tail[1];
  }

  lemma MappedNumbers(front: seq<int>, tail: seq<int>)
    requires |tail| == 2 && AreWords(tail) && front == MAPPED_PREFIX
    ensures InBlockedNet6(Number(front + tail)) <==> InBlockedNet4(tail[0] * 65536 + tail[1])
  {
    assert Number(front + tail) == MAPPED.base + (tail[0] * 65536 + tail[1]);
  }

  /** Six zero groups with a tail above 1, or the mapped prefix with a tail that is not blocked. */
  ghost predicate TooStrict(front: seq<int>, tail: seq<int>)
    requires |tail| == 2
  {
    var t := tail[0] * 65536 + tail[1];
    (front == Zeros(6) && t > 1) || (front == MAPPED_PREFIX && !InBlockedNet4(t))
  }

  lemma LongTailNumbers(front: seq<int>, tail: seq<int>)
    requires |front| == 6 && |tail| == 2 && AreWords(front) && AreWords(tail)
    ensures InBlockedNet6(Number(front + [0, 0]))
            <==> InBlockedNet6(Number(front + tail)) || TooStrict(front, tail)
    ensures TooStrict(front, tail) ==> !InBlockedNet6(Number(front + tail))
  {
    ZeroTailVerdict(front, tail);
    if front == Zeros(6) {
      LowNumbers(front, tail);
    } else if front == MAPPED_PREFIX {
      MappedNumbers(front, tail);
    }
  }

  /**
   The verdict on such a text, exactly: it is blocked if its number lies in a blocked range, or in the
   two cases in which the lost tail makes the check too strict. No blocked address gets through.
   */
  lemma LongTailVerdict(ip: string, groups: seq<string>, quad: seq<string>)
    requires |groups| == 6 && AreGroups(groups)
    requires |quad| == 4 && forall i :: 0 <= i < 4 ==> IsOctet(quad[i])
    requires Spells(ip, Join(groups + [Join(quad, DOT)], COLON))
    ensures var n := Number(LongTailHextets(groups, quad));
            var strict := TooStrict(Values(groups), PairUp(Octets(quad)));
            && (IsBlockedIPv6(ip) <==> InBlockedNet6(n) || strict)
            && (strict ==> !InBlockedNet6(n))
  {
    LongTailIsRead(ip, groups, quad);
    ValuesAreWords(groups);
    PairsAreWords(quad);
    HextetsBlockedIff(Values(groups) + [0, 0]);
    LongTailNumbers(Values(groups), PairUp(Octets(quad)));
  }

  lemma LongTailIsRead(ip: string, groups: seq<string>, quad: seq<string>)
    requires |groups| == 6 && AreGroups(groups)
    requires |quad| == 4 && forall i :: 0 <= i < 4 ==> IsOctet(quad[i])
    requires Spells(ip, Join(groups + [Join(quad, DOT)], COLON))
    ensures Expand(ip) == Some(Values(groups) + [0, 0])
  {
    var text := Join(groups + [Join(quad, DOT)], COLON);
    TailIsAddressText(groups, quad);
    JoinSnoc(groups, Join(quad, DOT), COLON);
    SpellingIsStripped(ip, text);
    LongTailIsDropped(groups, quad);
  }

  // ---------------------------------------------------------------------------------------------
  // What cannot be read is blocked
  // ---------------------------------------------------------------------------------------------

  /** Four dot-separated parts of one to three digits, none above 255. */
  ghost predicate IsQuadText(ip: string) {
    var parts := Split(ip, DOT);
    |parts| == 4 && forall i :: 0 <= i < 4 ==> IsOctet(parts[i])
  }

  /** Any text at all: blocked as an IPv4 address unless it is a dotted quad outside the blocked ranges. */
  lemma Ipv4BlockedIff(ip: string)
    ensures IsBlockedIPv4(ip)
            <==> !IsQuadText(ip)
                 || var q := Octets(Split(ip, DOT)); InBlockedNet4(Quad(q[0], q[1], q[2], q[3]))
  {
    var parts := Split(ip, DOT);
    if IsQuadText(ip) {
      var q := Octets(parts);
      forall i | 0 <= i < 4 ensures 0 <= q[i] < 256 {
        assert IsOctet(parts[i]);
        DigitsAreNonNegative(parts[i]);
      }
      assert ParseIpv4(ip) == Some(q) by {
        assert IsOctet(parts[0]) && IsOctet(parts[1]) && IsOctet(parts[2]) && IsOctet(parts[3]);
        assert q == [Value(parts[0], 10), Value(parts[1], 10), Value(parts[2], 10), Value(parts[3], 10)];
      }
      OctetsInNet(q[0], q[1], q[2], q[3]);
    } else if IsDottedQuad(ip) {
      BadOctet(ip);
    }
  }

  lemma BadOctet(ip: string)
    requires IsDottedQuad(ip) && !IsQuadText(ip)
    ensures ParseIpv4(ip) == None
  {
    var parts := Split(ip, DOT);
    var octets := [Value(parts[0], 10), Value(parts[1], 10), Value(parts[2], 10), Value(parts[3], 10)];
    var i :| 0 <= i < 4 && !IsOctet(parts[i]);
    assert octets[i] in octets && octets[i] > 255;
  }

  lemma {:induction false} NoLastColon(s: string)
    requires Lacks(s, COLON)
    ensures LastColon(s) == -1
    decreases |s|
  {
    if s != "" {
      NoLastColon(s[..|s| - 1]);
    }
  }

  /** A text without a colon is blocked as an IPv6 address. */
  lemma NoColonIsBlocked(ip: string)
    requires Lacks(BeforePercent(StripBrackets(ip)), COLON)
    ensures IsBlockedIPv6(ip)
  {
    NoLastColon(BeforePercent(StripBrackets(ip)));
  }

  /** Parts joined by single colons, with no dot, are read part by part, and only if there are eight. */
  lemma PartsAreRead(parts: seq<string>)
    requires |parts| >= 2 && AreParts(parts) && forall i :: 0 <= i < |parts| ==> Lacks(parts[i], DOT)
    ensures ExpandBare(Join(parts, COLON)) == if |parts| == 8 then ParseGroups(parts) else None
  {
    var s := Join(parts, COLON);
    JoinLacks(parts, COLON, DOT);
    assert s == parts[0] + [COLON] + Join(parts[1..], COLON);
    HasColon(s, |parts[0]|);
    LastGroupIsNoQuad(s);
    PartsHaveSingleColons(parts);
    NoDouble(s);
    SplitJoin(parts, COLON);
  }

  /** Is the part read as a number from 0 to 0xffff? */
  predicate IsReadable(part: string) {
    ParseInt16(part).Some? && 0 <= ParseInt16(part).value <= 0xffff
  }

  lemma {:induction false} GroupsReadIff(parts: seq<string>)
    ensures ParseGroups(parts).Some? <==> forall i :: 0 <= i < |parts| ==> IsReadable(parts[i])
    decreases |parts|
  {
    if parts != [] {
      GroupsReadIff(parts[1..]);
      assert forall i :: 0 < i < |parts| ==> parts[i] == parts[1..][i - 1];
    }
  }

  /** Too few parts, too many, or one that is no number up to 0xffff: the text is blocked. */
  lemma UnreadableIsBlocked(ip: string, parts: seq<string>)
    requires |parts| >= 2 && AreParts(parts) && forall i :: 0 <= i < |parts| ==> Lacks(parts[i], DOT)
    requires BeforePercent(StripBrackets(ip)) == Join(parts, COLON)
    requires |parts| != 8 || exists i :: 0 <= i < 8 && !IsReadable(parts[i])
    ensures IsBlockedIPv6(ip)
  {
    PartsAreRead(parts);
    GroupsReadIff(parts);
  }

  /** Hexadecimal digits of any number are one hextet exactly if their value is. */
  lemma HexIsReadableIff(g: string)
    requires g != "" && forall i :: 0 <= i < |g| ==> IsHex(g[i])
    ensures IsReadable(g) <==> Value(g, 16) <= 0xffff
  {
    HexBounds(g);
    HexIsRead(g);
  }

  lemma HexIsRead(g: string)
    requires g != "" && forall i :: 0 <= i < |g| ==> IsHex(g[i])
    ensures ParseInt16(g) == Some(Value(g, 16))
  {
    HexPrefixOfHex(g);
    assert IsHex(g[0]) && (|g| >= 2 ==> IsHex(g[1]));
    PlainIsRead(g);
  }

  /** With no space, sign or `0x` in front, all of a text that is its own hexadecimal prefix is read. */
  lemma PlainIsRead(g: string)
    requires g != "" && HexPrefix(g) == g && IsHex(g[0]) && (|g| >= 2 ==> IsHex(g[1]))
    ensures ParseInt16(g) == Some(Value(g, 16))
  {
    assert !IsSpace(g[0]);
    assert TrimLeft(g) == g;
  }

  /** More than eight groups around `::` are blocked. */
  lemma TooManyGroupsAreBlocked(ip: string, left: seq<string>, right: seq<string>)
    requires AreGroups(left) && AreGroups(right) && |left| + |right| > 8
    requires BeforePercent(StripBrackets(ip)) == Join(left, COLON) + DOUBLE + Join(right, COLON)
    ensures IsBlockedIPv6(ip)
  {
    GroupsLackDot(left);
    GroupsLackDot(right);
    BareIsCore(Join(left, COLON), Join(right, COLON));
    CompressedCore(left, right, None);
  }
}
