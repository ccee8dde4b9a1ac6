/** The crypto attribute of SDP (RFC 4568): its parser, its printer, and which values survive both. */
module SrtpCrypto {

  import opened Powers
  import opened Wrappers

  const U32_LIMIT: nat := 0x1_0000_0000

  /** The suites with a name of their own, in the order in which the parser tries them. */
  const SUITES: seq<string> := [
    "AES_CM_128_HMAC_SHA1_80", "AES_CM_128_HMAC_SHA1_32", "F8_128_HMAC_SHA1_80",
    "AES_192_CM_HMAC_SHA1_80", "AES_192_CM_HMAC_SHA1_32", "AES_256_CM_HMAC_SHA1_80",
    "AES_256_CM_HMAC_SHA1_32", "AEAD_AES_128_GCM", "AEAD_AES_256_GCM"]

  datatype Suite = Known(index: nat) | OtherSuite(name: string)

  datatype Key = Key(keyAndSalt: string, lifetime: Option<nat>, mki: Option<(nat, nat)>)

  datatype Param =
    | Kdr(rate: nat)
    | UnencryptedSrtp
    | UnencryptedSrtcp
    | UnauthenticatedSrtp
    | FecOrder(fecFirst: bool)
    | FecKey(keys: seq<Key>)
    | WindowSizeHint(size: nat)
    | OtherParam(text: string)

  datatype Crypto = Crypto(tag: nat, suite: Suite, keys: seq<Key>, params: seq<Param>)

  // ---------- characters ----------

  datatype Class = Digit | Base64 | Word | Visible | AsciiSpace | Space

  predicate IsAlphanumeric(c: char) {
    'a' <= c <= 'z' || 'A' <= c <= 'Z' || '0' <= c <= '9'
  }

  predicate IsUnicodeSpace(n: int) {
    || 9 <= n <= 13 || n == 32 || n == 0x85 || n == 0xA0 || n == 0x1680 || 0x2000 <= n <= 0x200A
    || n == 0x2028 || n == 0x2029 || n == 0x202F || n == 0x205F || n == 0x3000
  }

  predicate In(c: char, k: Class) {
    match k
    case Digit => '0' <= c <= '9'
    case Base64 => IsAlphanumeric(c) || c == '+' || c == '/' || c == '='
    case Word => IsAlphanumeric(c) || c == '_'
    case Visible => 0x21 <= c as int <= 0x7E
    case AsciiSpace => c as int in {9, 10, 12, 13, 32}
    case Space => IsUnicodeSpace(c as int)
  }

  predicate AllIn(t: string, k: Class) {
    forall i :: 0 <= i < |t| ==> In(t[i], k)
  }

  /** The end of the longest run of such characters. */
  function EndOf(s: string, i: nat, k: Class): (j: nat)
    requires i <= |s|
    ensures i <= j <= |s| && (j < |s| ==> !In(s[j], k)) && forall m :: i <= m < j ==> In(s[m], k)
    decreases |s| - i
  {
    if i < |s| && In(s[i], k) then EndOf(s, i + 1, k) else i
  }

  /** The text stands at index i. */
  predicate At(s: string, i: nat, t: string) {
    i + |t| <= |s| && s[i..i + |t|] == t
  }

  lemma AtBoth(s: string, i: nat, a: string, b: string)
    ensures At(s, i, a + b) <==> At(s, i, a) && At(s, i + |a|, b)
    ensures At(s, i, a + b) ==> i + |a| + |b| <= |s|
  {
    if i + |a + b| <= |s| {
      var t := s[i..i + |a + b|];
      assert t[..|a|] == s[i..i + |a|] && t[|a|..] == s[i + |a|..i + |a| + |b|];
      assert t == t[..|a|] + t[|a|..];
    }
  }

  lemma AtChar(s: string, i: nat, t: string, k: nat)
    requires At(s, i, t) && k < |t|
    ensures s[i + k] == t[k]
  {
    assert s[i..i + |t|][k] == s[i + k];
  }

  lemma CharOf(s: string, i: nat, t: string, k: nat)
    ensures At(s, i, t) && k < |t| ==> i + k < |s| && s[i + k] == t[k]
  {
    if At(s, i, t) && k < |t| {
      AtChar(s, i, t, k);
    }
  }

  lemma AtSlice(s: string, i: nat, t: string)
    requires At(s, i, t)
    ensures i + |t| <= |s| && s[i..i + |t|] == t
  {
  }

  /** A text of such characters, not followed by another one, is the whole run. */
  lemma RunEnds(s: string, i: nat, t: string, k: Class)
    requires At(s, i, t) && AllIn(t, k) && (i + |t| == |s| || !In(s[i + |t|], k))
    ensures EndOf(s, i, k) == i + |t|
  {
    CharOf(s, i, t, EndOf(s, i, k) - i);
  }

  // ---------- numbers ----------

  function Decimal(n: nat): (t: string)
    ensures |t| > 0 && AllIn(t, Digit)
  {
    if n < 10 then [('0' as int + n) as char] else Decimal(n / 10) + [('0' as int + n % 10) as char]
  }

  /** The value of the digits from i to j. */
  function Value(s: string, i: nat, j: nat): (n: nat)
    requires i <= j <= |s| && forall m :: i <= m < j ==> In(s[m], Digit)
    decreases j
  {
    if i == j then 0 else
      assert In(s[j - 1], Digit);
      10 * Value(s, i, j - 1) + (s[j - 1] as int - '0' as int)
  }

  /** Digits whose value has 32 bits. */
  function ParseNumber(s: string, i: nat): (r: Option<(nat, nat)>)
    requires i <= |s|
    ensures r.Some? ==> r.value.0 < U32_LIMIT && i < r.value.1 <= |s|
  {
    var j := EndOf(s, i, Digit);
    if j == i || Value(s, i, j) >= U32_LIMIT then None else Some((Value(s, i, j), j))
  }

  lemma {:induction false} DecimalValue(s: string, i: nat, n: nat)
    requires At(s, i, Decimal(n))
    ensures forall m :: i <= m < i + |Decimal(n)| ==> In(s[m], Digit)
    ensures Value(s, i, i + |Decimal(n)|) == n
  {
    var t := Decimal(n);
    forall m | i <= m < i + |t|
      ensures In(s[m], Digit)
    {
      AtChar(s, i, t, m - i);
    }
    AtChar(s, i, t, |t| - 1);
    if n >= 10 {
      AtBoth(s, i, Decimal(n / 10), [('0' as int + n % 10) as char]);
      DecimalValue(s, i, n / 10);
    } else {
      assert Value(s, i, i) == 0;
    }
  }

  lemma NumberParses(s: string, i: nat, n: nat)
    requires At(s, i, Decimal(n)) && n < U32_LIMIT
    requires i + |Decimal(n)| == |s| || !In(s[i + |Decimal(n)|], Digit)
    ensures ParseNumber(s, i) == Some((n, i + |Decimal(n)|))
  {
    DecimalValue(s, i, n);
    RunEnds(s, i, Decimal(n), Digit);
  }

  // ---------- powers of two ----------

  predicate IsPowerOfTwo(n: nat) {
    n == 1 || (n > 1 && n % 2 == 0 && IsPowerOfTwo(n / 2))
  }

  function TrailingZeros(n: nat): (r: nat) {
    if n < 2 || n % 2 == 1 then 0 else 1 + TrailingZeros(n / 2)
  }

  lemma {:induction false} PowerOfZeros(n: nat)
    requires IsPowerOfTwo(n)
    ensures Power2(TrailingZeros(n)) == n
  {
    if n > 1 {
      PowerOfZeros(n / 2);
    }
  }

  lemma {:induction false} ZerosAreFew(n: nat, k: nat)
    requires IsPowerOfTwo(n) && n < Power2(k)
    ensures TrailingZeros(n) < k
  {
    if n > 1 {
      ZerosAreFew(n / 2, k - 1);
    }
  }

  /** 32-bit exponentiation, which wraps around to zero. */
  function Exponential(k: nat): (n: nat)
    ensures n < U32_LIMIT
  {
    if k < 32 then PowersAscend(k, 32); Power32(); Power2(k) else 0
  }

  lemma Power32()
    ensures Power2(32) == U32_LIMIT
  {
    assert Power2(8) == 0x100;
    assert Power2(16) == 0x1_0000;
    assert Power2(24) == 0x100_0000;
  }

  // ---------- keying material ----------

  function LifetimeText(l: Option<nat>): (r: string) {
    if l.None? then ""
    else if IsPowerOfTwo(l.value) then "|2^" + Decimal(TrailingZeros(l.value))
    else "|" + Decimal(l.value)
  }

  function MkiText(m: Option<(nat, nat)>): (r: string) {
    if m.None? then "" else "|" + Decimal(m.value.0) + ":" + Decimal(m.value.1)
  }

  function KeyText(k: Key): (r: string) {
    k.keyAndSalt + LifetimeText(k.lifetime) + MkiText(k.mki)
  }

  predicate CharAt(s: string, i: nat, c: char) {
    i < |s| && s[i] == c
  }

  /** A bar and a number or a power of two, if no colon follows. */
  function ParseLifetime(s: string, i: nat): (r: (Option<nat>, nat))
    requires i <= |s|
    ensures i <= r.1 <= |s| && (r.0.Some? ==> r.0.value < U32_LIMIT) && (r.0.None? ==> r.1 == i)
  {
    if !CharAt(s, i, '|') then (None, i)
    else
      var exp := At(s, i + 1, "2^");
      var n := ParseNumber(s, if exp then i + 3 else i + 1);
      if n.None? || CharAt(s, n.value.1, ':') then (None, i)
      else (Some(if exp then Exponential(n.value.0) else n.value.0), n.value.1)
  }

  function ParseMki(s: string, i: nat): (r: (Option<(nat, nat)>, nat))
    requires i <= |s|
    ensures i <= r.1 <= |s| && (r.0.Some? ==> r.0.value.0 < U32_LIMIT && r.0.value.1 < U32_LIMIT) && (r.0.None? ==> r.1 == i)
  {
    if !CharAt(s, i, '|') then (None, i)
    else
      var a := ParseNumber(s, i + 1);
      if a.None? || !CharAt(s, a.value.1, ':') then (None, i)
      else
        var b := ParseNumber(s, a.value.1 + 1);
        if b.None? then (None, i) else (Some((a.value.0, b.value.0)), b.value.1)
  }

  function ParseKey(s: string, i: nat): (r: Option<(Key, nat)>)
    requires i <= |s|
    ensures r.Some? ==> i < r.value.1 <= |s| && IsKey(r.value.0)
    ensures r.Some? <==> i < |s| && In(s[i], Base64)
  {
    var j := EndOf(s, i, Base64);
    if j == i then None
    else
      var (lifetime, k) := ParseLifetime(s, j);
      var (mki, e) := ParseMki(s, k);
      Some((Key(s[i..j], lifetime, mki), e))
  }

  /** A key that the parser can give: the key is base64 and not empty, and its numbers have 32 bits. */
  predicate IsKey(k: Key) {
    && k.keyAndSalt != "" && AllIn(k.keyAndSalt, Base64)
    && (k.lifetime.Some? ==> k.lifetime.value < U32_LIMIT)
    && (k.mki.Some? ==> k.mki.value.0 < U32_LIMIT && k.mki.value.1 < U32_LIMIT)
  }

  /** Nothing follows, or a separator of keys or params. */
  predicate Separated(s: string, i: nat) {
    i == |s| || (i < |s| && (s[i] == ' ' || s[i] == ';'))
  }

  /** The parts of a key index are in their places. */
  lemma MkiTextAt(s: string, i: nat, a: string, b: string)
    requires At(s, i, "|" + a + ":" + b)
    ensures i + 2 + |a| + |b| <= |s| && CharAt(s, i, '|') && At(s, i + 1, a)
    ensures CharAt(s, i + 1 + |a|, ':') && At(s, i + 2 + |a|, b)
  {
    hide At;
    assert "|" + a + ":" + b == "|" + (a + (":" + b));
    AtBoth(s, i, "|", a + (":" + b));
    AtBoth(s, i + 1, a, ":" + b);
    AtBoth(s, i + 1 + |a|, ":", b);
    AtChar(s, i, "|", 0);
    AtChar(s, i + 1 + |a|, ":", 0);
  }

  lemma MkiParses(s: string, i: nat, m: Option<(nat, nat)>)
    requires At(s, i, MkiText(m)) && Separated(s, i + |MkiText(m)|)
    requires m.Some? ==> m.value.0 < U32_LIMIT && m.value.1 < U32_LIMIT
    ensures ParseMki(s, i) == (m, i + |MkiText(m)|)
    ensures m.Some? ==> CharAt(s, i, '|') && ParseNumber(s, i + 1).Some? && CharAt(s, ParseNumber(s, i + 1).value.1, ':')
  {
    hide At, Value, EndOf, Decimal, ParseNumber;
    if m.Some? {
      var (a, b) := (Decimal(m.value.0), Decimal(m.value.1));
      MkiTextAt(s, i, a, b);
      NumberParses(s, i + 1, m.value.0);
      NumberParses(s, i + 2 + |a|, m.value.1);
    }
  }

  /** What may follow a lifetime: a separator, or the key index. */
  predicate AfterLifetime(s: string, i: nat, m: Option<(nat, nat)>) {
    At(s, i, MkiText(m)) && Separated(s, i + |MkiText(m)|) && (m.Some? ==> m.value.0 < U32_LIMIT && m.value.1 < U32_LIMIT)
  }

  /** A decimal number is not taken for a power of two. */
  lemma NoPowerMark(s: string, i: nat, n: nat)
    requires At(s, i, Decimal(n)) && !CharAt(s, i + |Decimal(n)|, '^')
    ensures !At(s, i, "2^")
  {
    CharOf(s, i, "2^", 1);
    CharOf(s, i, Decimal(n), 1);
  }

  lemma PowerParses(s: string, i: nat, n: nat)
    requires IsPowerOfTwo(n) && n < U32_LIMIT && At(s, i, LifetimeText(Some(n)))
    requires var e := i + |LifetimeText(Some(n))|; e == |s| || (!In(s[e], Digit) && s[e] != ':')
    ensures ParseLifetime(s, i) == (Some(n), i + |LifetimeText(Some(n))|)
  {
    hide At, Value, EndOf, IsPowerOfTwo, Decimal;
    var z := TrailingZeros(n);
    Power32();
    ZerosAreFew(n, 32);
    PowerOfZeros(n);
    AtBoth(s, i, "|2^", Decimal(z));
    AtBoth(s, i, "|", "2^");
    assert "|2^" == "|" + "2^";
    AtChar(s, i, "|", 0);
    NumberParses(s, i + 3, z);
  }

  lemma LifetimeParses(s: string, i: nat, l: Option<nat>, m: Option<(nat, nat)>)
    requires At(s, i, LifetimeText(l)) && (l.Some? ==> l.value < U32_LIMIT)
    requires AfterLifetime(s, i + |LifetimeText(l)|, m)
    ensures ParseLifetime(s, i) == (l, i + |LifetimeText(l)|)
  {
    hide At, Value, EndOf, IsPowerOfTwo, MkiText, Decimal;
    var e := i + |LifetimeText(l)|;
    NextAfterLifetime(s, e, m);
    if l.None? {
      if m.Some? {
        MkiParses(s, i, m);
        MkiIsNoPower(s, i, m);
      }
    } else if IsPowerOfTwo(l.value) {
      PowerParses(s, i, l.value);
    } else {
      AtBoth(s, i, "|", Decimal(l.value));
      AtChar(s, i, "|", 0);
      NumberParses(s, i + 1, l.value);
      NoPowerMark(s, i + 1, l.value);
    }
  }

  lemma NextAfterLifetime(s: string, e: nat, m: Option<(nat, nat)>)
    requires AfterLifetime(s, e, m)
    ensures e == |s| || s[e] == ' ' || s[e] == ';' || s[e] == '|'
    ensures m.None? ==> !CharAt(s, e, '|')
  {
    if m.Some? {
      AtChar(s, e, MkiText(m), 0);
    }
  }

  lemma MkiIsNoPower(s: string, i: nat, m: Option<(nat, nat)>)
    requires m.Some? && At(s, i, MkiText(m))
    ensures !At(s, i + 1, "2^")
  {
    var (a, b) := (Decimal(m.value.0), Decimal(m.value.1));
    assert "|" + a + ":" + b == "|" + (a + (":" + b));
    AtBoth(s, i, "|", a + (":" + b));
    AtBoth(s, i + 1, a, ":" + b);
    AtChar(s, i + 1 + |a|, ":" + b, 0);
    NoPowerMark(s, i + 1, m.value.0);
  }

  /** A printed key parses to the same key, up to the next separator. */
  lemma KeyParses(s: string, i: nat, k: Key)
    requires IsKey(k) && At(s, i, KeyText(k)) && Separated(s, i + |KeyText(k)|)
    ensures ParseKey(s, i) == Some((k, i + |KeyText(k)|))
  {
    hide At, Value, EndOf, LifetimeText, MkiText, ParseLifetime, ParseMki;
    var (a, l, m) := (k.keyAndSalt, LifetimeText(k.lifetime), MkiText(k.mki));
    assert KeyText(k) == a + (l + m);
    AtBoth(s, i, a, l + m);
    AtBoth(s, i + |a|, l, m);
    AtSlice(s, i, a);
    NextAfterLifetime(s, i + |a| + |l|, k.mki);
    NextAfterKey(s, i + |a|, k.lifetime);
    RunEnds(s, i, a, Base64);
    LifetimeParses(s, i + |a|, k.lifetime, k.mki);
    MkiParses(s, i + |a| + |l|, k.mki);
  }

  lemma NextAfterKey(s: string, i: nat, l: Option<nat>)
    requires At(s, i, LifetimeText(l))
    ensures if l.Some? then CharAt(s, i, '|') else |LifetimeText(l)| == 0
  {
    if l.Some? {
      AtChar(s, i, LifetimeText(l), 0);
    }
  }

  // ---------- lists of keys ----------

  const INLINE: string := "inline:"

  function KeysText(ks: seq<Key>, i: nat): (r: string)
    requires i <= |ks|
    decreases |ks| - i
  {
    if i == |ks| then ""
    else INLINE + KeyText(ks[i]) + (if i + 1 < |ks| then ";" + KeysText(ks, i + 1) else "")
  }

  /** At least one key, separated by semicolons; a semicolon that no key follows is left. */
  function ParseKeys(s: string, i: nat): (r: Option<(seq<Key>, nat)>)
    requires i <= |s|
    ensures r.Some? ==> i < r.value.1 <= |s| && AreKeys(r.value.0)
    decreases |s| - i
  {
    if !At(s, i, INLINE) then None
    else
      var k := ParseKey(s, i + |INLINE|);
      if k.None? then None
      else
        var j := k.value.1;
        var more := if CharAt(s, j, ';') then ParseKeys(s, j + 1) else None;
        Some(if more.Some? then ([k.value.0] + more.value.0, more.value.1) else ([k.value.0], j))
  }

  predicate AreKeys(ks: seq<Key>) {
    ks != [] && forall i :: 0 <= i < |ks| ==> IsKey(ks[i])
  }

  /** Nothing follows, or a blank. */
  predicate Ended(s: string, i: nat) {
    i == |s| || CharAt(s, i, ' ')
  }

  lemma KeysTextAt(s: string, i: nat, ks: seq<Key>, n: nat)
    requires n < |ks| && At(s, i, KeysText(ks, n))
    ensures var (e, j) := (i + |KeysText(ks, n)|, i + |INLINE| + |KeyText(ks[n])|);
            && At(s, i, INLINE) && At(s, i + |INLINE|, KeyText(ks[n])) && j <= e <= |s|
            && if n + 1 < |ks| then CharAt(s, j, ';') && At(s, j + 1, KeysText(ks, n + 1)) && j + 1 + |KeysText(ks, n + 1)| == e else e == j
  {
    hide At, KeyText;
    var t := KeyText(ks[n]);
    var rest := if n + 1 < |ks| then ";" + KeysText(ks, n + 1) else "";
    assert KeysText(ks, n) == INLINE + (t + rest);
    AtBoth(s, i, INLINE, t + rest);
    AtBoth(s, i + |INLINE|, t, rest);
    if n + 1 < |ks| {
      var j := i + |INLINE| + |t|;
      AtBoth(s, j, ";", KeysText(ks, n + 1));
      AtChar(s, j, ";", 0);
    }
  }

  lemma {:induction false} KeysParse(s: string, i: nat, ks: seq<Key>, n: nat)
    requires AreKeys(ks) && n < |ks| && At(s, i, KeysText(ks, n)) && Ended(s, i + |KeysText(ks, n)|)
    ensures ParseKeys(s, i) == Some((ks[n..], i + |KeysText(ks, n)|))
    decreases |ks| - n
  {
    hide At, KeyText, KeysText, ParseKey, IsKey;
    KeysTextAt(s, i, ks, n);
    KeyParses(s, i + |INLINE|, ks[n]);
    if n + 1 < |ks| {
      KeysParse(s, i + |INLINE| + |KeyText(ks[n])| + 1, ks, n + 1);
      assert ks[n..] == [ks[n]] + ks[n + 1..];
    } else {
      assert ks[n..] == [ks[n]];
    }
  }

  /** The printer's loop over the keys. */
  method DisplayKeys(ks: seq<Key>) returns (text: string)
    ensures text == KeysText(ks, 0)
  {
    hide KeyText;
    text := "";
    for i := 0 to |ks|
      invariant text + KeysText(ks, i) == KeysText(ks, 0)
    {
      text := text + INLINE + KeyText(ks[i]);
      if i + 1 < |ks| {
        text := text + ";";
      }
    }
  }

  // ---------- params ----------

  const KDR: string := "KDR="
  const UNENCRYPTED_SRTP: string := "UNENCRYPTED_SRTP"
  const UNENCRYPTED_SRTCP: string := "UNENCRYPTED_SRTCP"
  const UNAUTHENTICATED_SRTP: string := "UNAUTHENTICATED_SRTP"
  const FEC_ORDER: string := "FEC_ORDER="
  const FEC_SRTP: string := "FEC_SRTP"
  const SRTP_FEC: string := "SRTP_FEC"
  const FEC_KEY: string := "FEC_KEY="
  const WSH: string := "WSH="

  function ParamText(p: Param): (r: string) {
    match p
    case Kdr(n) => KDR + Decimal(n)
    case UnencryptedSrtp => UNENCRYPTED_SRTP
    case UnencryptedSrtcp => UNENCRYPTED_SRTCP
    case UnauthenticatedSrtp => UNAUTHENTICATED_SRTP
    case FecOrder(fecFirst) => FEC_ORDER + (if fecFirst then FEC_SRTP else SRTP_FEC)
    case FecKey(ks) => if ks == [] then "" else FEC_KEY + KeysText(ks, 0)
    case WindowSizeHint(n) => WSH + Decimal(n)
    case OtherParam(t) => t
  }

  function ParseNumbered(s: string, i: nat, tag: string): (r: Option<(nat, nat)>)
    requires i <= |s|
    ensures r.Some? ==> r.value.0 < U32_LIMIT && i < r.value.1 <= |s|
  {
    if At(s, i, tag) then ParseNumber(s, i + |tag|) else None
  }

  function ParseFecKey(s: string, i: nat): (r: Option<(seq<Key>, nat)>)
    requires i <= |s|
    ensures r.Some? ==> i < r.value.1 <= |s| && AreKeys(r.value.0)
  {
    if At(s, i, FEC_KEY) then ParseKeys(s, i + |FEC_KEY|) else None
  }

  function ParseFecOrder(s: string, i: nat): (r: Option<(bool, nat)>)
    requires i <= |s|
    ensures r.Some? ==> i < r.value.1 <= |s|
  {
    if !At(s, i, FEC_ORDER) then None
    else
      var j := i + |FEC_ORDER|;
      if At(s, j, FEC_SRTP) then Some((true, j + |FEC_SRTP|))
      else if At(s, j, SRTP_FEC) then Some((false, j + |SRTP_FEC|))
      else None
  }

  /** The params with a name of their own, tried in turn. */
  function ParseNamed(s: string, i: nat): (r: Option<(Param, nat)>)
    requires i <= |s|
    ensures r.Some? ==> i < r.value.1 <= |s|
  {
    var kdr := ParseNumbered(s, i, KDR);
    if kdr.Some? then Some((Kdr(kdr.value.0), kdr.value.1))
    else if At(s, i, UNENCRYPTED_SRTP) then Some((UnencryptedSrtp, i + |UNENCRYPTED_SRTP|))
    else if At(s, i, UNENCRYPTED_SRTCP) then Some((UnencryptedSrtcp, i + |UNENCRYPTED_SRTCP|))
    else if At(s, i, UNAUTHENTICATED_SRTP) then Some((UnauthenticatedSrtp, i + |UNAUTHENTICATED_SRTP|))
    else
      var order := ParseFecOrder(s, i);
      if order.Some? then Some((FecOrder(order.value.0), order.value.1))
      else
        var keys := ParseFecKey(s, i);
        if keys.Some? then Some((FecKey(keys.value.0), keys.value.1))
        else
          var wsh := ParseNumbered(s, i, WSH);
          if wsh.Some? then Some((WindowSizeHint(wsh.value.0), wsh.value.1)) else None
  }

  /** Any other visible text that does not start with a minus sign. */
  function ParseParam(s: string, i: nat): (r: Option<(Param, nat)>)
    requires i <= |s|
    ensures r.Some? ==> i < r.value.1 <= |s|
  {
    var named := ParseNamed(s, i);
    if named.Some? then named
    else
      var j := EndOf(s, i, Visible);
      if CharAt(s, i, '-') || j == i then None else Some((OtherParam(s[i..j]), j))
  }

  /** A param that the parser can give. Other text must not be taken for a named one. */
  predicate IsParam(p: Param) {
    match p
    case Kdr(n) => n < U32_LIMIT
    case WindowSizeHint(n) => n < U32_LIMIT
    case FecKey(ks) => AreKeys(ks)
    case OtherParam(t) => t != "" && AllIn(t, Visible) && t[0] != '-' && ParseNamed(t, 0).None?
    case _ => true
  }

  /** What parsing needs of an index behind a named param, whichever it is. */
  lemma EndedStops(s: string, i: nat)
    requires Ended(s, i)
    ensures i == |s| || (!In(s[i], Digit) && !In(s[i], Base64) && !In(s[i], Visible) && !In(s[i], Word) && s[i] != ';')
    ensures Separated(s, i)
  {
  }

  /** Two texts cannot both stand at an index if they differ somewhere. */
  lemma NotBoth(s: string, i: nat, t: string, u: string, k: nat)
    requires At(s, i, t) && k < |t| && k < |u| && t[k] != u[k]
    ensures !At(s, i, u)
  {
    CharOf(s, i, t, k);
    CharOf(s, i, u, k);
  }

  lemma {:induction false} NumberedParses(s: string, i: nat, tag: string, n: nat)
    requires n < U32_LIMIT && At(s, i, tag + Decimal(n)) && Ended(s, i + |tag + Decimal(n)|)
    ensures At(s, i, tag) && i <= |s| && ParseNumbered(s, i, tag) == Some((n, i + |tag + Decimal(n)|))
  {
    hide At, Value, EndOf, Decimal;
    AtBoth(s, i, tag, Decimal(n));
    EndedStops(s, i + |tag + Decimal(n)|);
    NumberParses(s, i + |tag|, n);
  }

  /** A named param parses to itself, up to a blank or the end. */
  lemma NamedParses(s: string, i: nat, p: Param)
    requires IsParam(p) && !p.OtherParam? && At(s, i, ParamText(p)) && Ended(s, i + |ParamText(p)|)
    ensures i <= |s| && ParseNamed(s, i) == Some((p, i + |ParamText(p)|))
  {
    hide At, Decimal, KeysText, ParseNumbered, ParseKeys, Ended;
    AtInside(s, i, ParamText(p));
    match p {
      case Kdr(n) => NumberedParses(s, i, KDR, n);
      case UnencryptedSrtp => NotBoth(s, i, UNENCRYPTED_SRTP, KDR, 0); NotNumbered(s, i, KDR);
      case UnencryptedSrtcp =>
        NotBoth(s, i, UNENCRYPTED_SRTCP, KDR, 0);
        NotNumbered(s, i, KDR);
        NotBoth(s, i, UNENCRYPTED_SRTCP, UNENCRYPTED_SRTP, 15);
      case UnauthenticatedSrtp =>
        NotBoth(s, i, UNAUTHENTICATED_SRTP, KDR, 0);
        NotNumbered(s, i, KDR);
        NotBoth(s, i, UNAUTHENTICATED_SRTP, UNENCRYPTED_SRTP, 2);
        NotBoth(s, i, UNAUTHENTICATED_SRTP, UNENCRYPTED_SRTCP, 2);
      case FecOrder(fecFirst) =>
        var t := if fecFirst then FEC_SRTP else SRTP_FEC;
        AtBoth(s, i, FEC_ORDER, t);
        BeforeFec(s, i, FEC_ORDER);
        if !fecFirst {
          NotBoth(s, i + |FEC_ORDER|, SRTP_FEC, FEC_SRTP, 0);
        }
      case FecKey(ks) =>
        AtBoth(s, i, FEC_KEY, KeysText(ks, 0));
        BeforeFec(s, i, FEC_KEY);
        NotBoth(s, i, FEC_KEY, FEC_ORDER, 4);
        KeysParse(s, i + |FEC_KEY|, ks, 0);
        assert ks[0..] == ks;
      case WindowSizeHint(n) =>
        NumberedParses(s, i, WSH, n);
        NotBoth(s, i, WSH, KDR, 0);
        NotNumbered(s, i, KDR);
        NotBoth(s, i, WSH, UNENCRYPTED_SRTP, 0);
        NotBoth(s, i, WSH, UNENCRYPTED_SRTCP, 0);
        NotBoth(s, i, WSH, UNAUTHENTICATED_SRTP, 0);
        NotBoth(s, i, WSH, FEC_ORDER, 0);
        NotBoth(s, i, WSH, FEC_KEY, 0);
    }
  }

  lemma AtInside(s: string, i: nat, t: string)
    requires At(s, i, t)
    ensures i + |t| <= |s|
  {
  }

  lemma NotNumbered(s: string, i: nat, tag: string)
    requires i <= |s| && !At(s, i, tag)
    ensures ParseNumbered(s, i, tag).None?
  {
  }

  lemma BeforeFec(s: string, i: nat, tag: string)
    requires i <= |s| && At(s, i, tag) && |tag| > 0 && tag[0] == 'F'
    ensures ParseNumbered(s, i, KDR).None?
    ensures !At(s, i, UNENCRYPTED_SRTP) && !At(s, i, UNENCRYPTED_SRTCP) && !At(s, i, UNAUTHENTICATED_SRTP)
  {
    NotBoth(s, i, tag, KDR, 0);
    NotNumbered(s, i, KDR);
    NotBoth(s, i, tag, UNENCRYPTED_SRTP, 0);
    NotBoth(s, i, tag, UNENCRYPTED_SRTCP, 0);
    NotBoth(s, i, tag, UNAUTHENTICATED_SRTP, 0);
  }

  // ---------- other params: what a run of visible characters parses to does not depend on what follows ----------

  /** The text is the whole run of visible characters at index i. */
  ghost predicate Stands(s: string, i: nat, t: string) {
    At(s, i, t) && AllIn(t, Visible) && (i + |t| == |s| || !In(s[i + |t|], Visible))
  }

  lemma CharLocal(s: string, i: nat, t: string, k: nat)
    requires Stands(s, i, t) && k <= |t|
    ensures i + k <= |s| && (k < |t| ==> i + k < |s| && s[i + k] == t[k])
    ensures k == |t| && i + k < |s| ==> !In(s[i + k], Visible)
  {
    if k < |t| {
      AtChar(s, i, t, k);
    }
  }

  lemma TagLocal(s: string, i: nat, t: string, k: nat, tag: string)
    requires Stands(s, i, t) && k <= |t| && AllIn(tag, Visible)
    ensures At(s, i + k, tag) <==> At(t, k, tag)
  {
    if k + |tag| <= |t| {
      var (a, b) := (s[i + k..i + k + |tag|], t[k..k + |tag|]);
      forall m | 0 <= m < |tag|
        ensures a[m] == b[m]
      {
        CharLocal(s, i, t, k + m);
      }
      assert a == b;
    } else {
      CharOf(s, i + k, tag, |t| - k);
    }
  }

  lemma {:induction false} EndLocal(s: string, i: nat, t: string, k: nat)
    requires Stands(s, i, t) && k <= |t|
    ensures i + k <= |s| && EndOf(s, i + k, Digit) == i + EndOf(t, k, Digit)
    decreases |t| - k
  {
    CharLocal(s, i, t, k);
    if k < |t| && In(t[k], Digit) {
      EndLocal(s, i, t, k + 1);
    }
  }

  lemma {:induction false} ValueLocal(s: string, i: nat, t: string, k: nat, j: nat)
    requires Stands(s, i, t) && k <= j <= |t| && forall m :: k <= m < j ==> In(t[m], Digit)
    ensures i + j <= |s| && forall m :: i + k <= m < i + j ==> In(s[m], Digit)
    ensures Value(s, i + k, i + j) == Value(t, k, j)
    decreases j
  {
    CharLocal(s, i, t, j);
    if k < j {
      ValueLocal(s, i, t, k, j - 1);
      CharLocal(s, i, t, j - 1);
    }
  }

  lemma NumberedLocal(s: string, i: nat, t: string, tag: string)
    requires Stands(s, i, t) && AllIn(tag, Visible)
    ensures i <= |s| && (ParseNumbered(s, i, tag).Some? <==> ParseNumbered(t, 0, tag).Some?)
  {
    hide Value;
    CharLocal(s, i, t, 0);
    TagLocal(s, i, t, 0, tag);
    if At(t, 0, tag) {
      EndLocal(s, i, t, |tag|);
      ValueLocal(s, i, t, |tag|, EndOf(t, |tag|, Digit));
    }
  }

  lemma FecKeyLocal(s: string, i: nat, t: string)
    requires Stands(s, i, t)
    ensures i <= |s| && (ParseFecKey(s, i).Some? <==> ParseFecKey(t, 0).Some?)
  {
    hide ParseKey, At;
    CharLocal(s, i, t, 0);
    TagLocal(s, i, t, 0, FEC_KEY);
    if At(t, 0, FEC_KEY) {
      AtInside(t, 0, FEC_KEY);
      TagLocal(s, i, t, |FEC_KEY|, INLINE);
      if At(t, |FEC_KEY|, INLINE) {
        AtInside(t, |FEC_KEY|, INLINE);
        CharLocal(s, i, t, |FEC_KEY| + |INLINE|);
        Base64IsVisible(s, i + |FEC_KEY| + |INLINE|);
      }
    }
  }

  lemma Base64IsVisible(s: string, i: nat)
    ensures i < |s| && In(s[i], Base64) ==> In(s[i], Visible)
  {
  }

  lemma FecOrderLocal(s: string, i: nat, t: string)
    requires Stands(s, i, t)
    ensures i <= |s| && (ParseFecOrder(s, i).Some? <==> ParseFecOrder(t, 0).Some?)
  {
    hide At;
    CharLocal(s, i, t, 0);
    TagLocal(s, i, t, 0, FEC_ORDER);
    if At(t, 0, FEC_ORDER) {
      AtInside(t, 0, FEC_ORDER);
      TagLocal(s, i, t, |FEC_ORDER|, FEC_SRTP);
      TagLocal(s, i, t, |FEC_ORDER|, SRTP_FEC);
    }
  }

  lemma NamedLocal(s: string, i: nat, t: string)
    requires Stands(s, i, t)
    ensures i <= |s| && (ParseNamed(s, i).Some? <==> ParseNamed(t, 0).Some?)
  {
    hide At, Stands, ParseNumbered, ParseFecOrder, ParseFecKey;
    NumberedLocal(s, i, t, KDR);
    TagLocal(s, i, t, 0, UNENCRYPTED_SRTP);
    TagLocal(s, i, t, 0, UNENCRYPTED_SRTCP);
    TagLocal(s, i, t, 0, UNAUTHENTICATED_SRTP);
    FecOrderLocal(s, i, t);
    FecKeyLocal(s, i, t);
    NumberedLocal(s, i, t, WSH);
  }

  /** Every param that the parser can give parses to itself, up to a blank or the end. */
  lemma ParamParses(s: string, i: nat, p: Param)
    requires IsParam(p) && At(s, i, ParamText(p)) && Ended(s, i + |ParamText(p)|)
    ensures i <= |s| && ParseParam(s, i) == Some((p, i + |ParamText(p)|))
  {
    hide At, ParseNamed;
    if p.OtherParam? {
      var t := p.text;
      EndedStops(s, i + |t|);
      NamedLocal(s, i, t);
      RunEnds(s, i, t, Visible);
      AtSlice(s, i, t);
      AtChar(s, i, t, 0);
    } else {
      NamedParses(s, i, p);
    }
  }

  // ---------- lists of params ----------

  function ParamsText(ps: seq<Param>, i: nat): (r: string)
    requires i <= |ps|
    decreases |ps| - i
  {
    if i == |ps| then "" else " " + ParamText(ps[i]) + ParamsText(ps, i + 1)
  }

  /** Params separated by blanks, if there are any; what follows the last one is left. */
  function ParseParams(s: string, i: nat): (r: (seq<Param>, nat))
    requires i <= |s|
    ensures i <= r.1 <= |s| && (r.0 == [] ==> r.1 == i)
    decreases |s| - i
  {
    var p := ParseParam(s, i);
    if p.None? then ([], i)
    else
      var j := EndOf(s, p.value.1, Space);
      if j == p.value.1 then ([p.value.0], j)
      else
        var (ps, e) := ParseParams(s, j);
        if ps == [] then ([p.value.0], p.value.1) else ([p.value.0] + ps, e)
  }

  predicate AreParams(ps: seq<Param>) {
    forall i :: 0 <= i < |ps| ==> IsParam(ps[i])
  }

  lemma ParamsTextAt(s: string, i: nat, ps: seq<Param>, n: nat)
    requires n < |ps| && At(s, i, ParamsText(ps, n))
    ensures var j := i + 1 + |ParamText(ps[n])|;
            && CharAt(s, i, ' ') && At(s, i + 1, ParamText(ps[n])) && At(s, j, ParamsText(ps, n + 1))
            && i + |ParamsText(ps, n)| == j + |ParamsText(ps, n + 1)| <= |s|
  {
    hide At, ParamText;
    var (t, rest) := (ParamText(ps[n]), ParamsText(ps, n + 1));
    assert ParamsText(ps, n) == " " + (t + rest);
    AtBoth(s, i, " ", t + rest);
    AtBoth(s, i + 1, t, rest);
    AtChar(s, i, " ", 0);
  }

  /** The first character of a printed param is not a blank. */
  lemma ParamStarts(s: string, i: nat, p: Param)
    requires IsParam(p) && At(s, i, ParamText(p))
    ensures i < |s| && In(s[i], Visible) && !In(s[i], Space) && !In(s[i], AsciiSpace)
  {
    AtChar(s, i, ParamText(p), 0);
    assert In(ParamText(p)[0], Visible);
  }

  lemma {:induction false} ParamsParse(s: string, i: nat, ps: seq<Param>, n: nat)
    requires AreParams(ps) && n < |ps| && At(s, i, ParamsText(ps, n)) && i + |ParamsText(ps, n)| == |s|
    ensures i + 1 <= |s| && ParseParams(s, i + 1) == (ps[n..], |s|)
    decreases |ps| - n
  {
    hide At, ParamText, ParamsText, ParseParam, IsParam, In, EndOf;
    ParamsTextAt(s, i, ps, n);
    var j := i + 1 + |ParamText(ps[n])|;
    if n + 1 < |ps| {
      ParamsTextAt(s, j, ps, n + 1);
      ParamStarts(s, j + 1, ps[n + 1]);
      BlankRun(s, j);
      ParamParses(s, i + 1, ps[n]);
      ParamsParse(s, j, ps, n + 1);
      assert ps[n..] == [ps[n]] + ps[n + 1..];
    } else {
      NoMoreParams(ps);
      ParamParses(s, i + 1, ps[n]);
      assert ps[n..] == [ps[n]];
    }
  }

  lemma NoMoreParams(ps: seq<Param>)
    ensures ParamsText(ps, |ps|) == ""
  {
  }

  /** One blank is the whole run of them. */
  lemma BlankRun(s: string, i: nat)
    requires CharAt(s, i, ' ') && i + 1 < |s| && !In(s[i + 1], Space) && !In(s[i + 1], AsciiSpace)
    ensures EndOf(s, i, Space) == i + 1 && EndOf(s, i, AsciiSpace) == i + 1
  {
    assert In(s[i], Space) && In(s[i], AsciiSpace);
    assert EndOf(s, i + 1, Space) == i + 1 && EndOf(s, i + 1, AsciiSpace) == i + 1;
  }

  // ---------- suites ----------

  function SuiteText(u: Suite): (r: string)
    requires u.Known? ==> u.index < |SUITES|
  {
    match u
    case Known(k) => SUITES[k]
    case OtherSuite(name) => name
  }

  /** The first known suite whose name stands at the index. */
  function FindSuite(s: string, i: nat, k: nat): (r: nat)
    requires k <= |SUITES|
    ensures k <= r <= |SUITES| && (r < |SUITES| ==> At(s, i, SUITES[r])) && forall j :: k <= j < r ==> !At(s, i, SUITES[j])
    decreases |SUITES| - k
  {
    if k == |SUITES| || At(s, i, SUITES[k]) then k else FindSuite(s, i, k + 1)
  }

  function ParseSuite(s: string, i: nat): (r: Option<(Suite, nat)>)
    requires i <= |s|
    ensures r.Some? ==> i <= r.value.1 <= |s|
  {
    var k := FindSuite(s, i, 0);
    if k < |SUITES| then Some((Known(k), i + |SUITES[k]|))
    else
      var j := EndOf(s, i, Word);
      if j == i then None else Some((OtherSuite(s[i..j]), j))
  }

  /** Another suite must not begin with the name of a known one. */
  predicate IsSuite(u: Suite) {
    match u
    case Known(k) => k < |SUITES|
    case OtherSuite(name) => name != "" && AllIn(name, Word) && FindSuite(name, 0, 0) == |SUITES|
  }

  lemma Suite0IsWord()
    ensures AllIn(SUITES[0], Word)
  {
    hide At, EndOf, Decimal, Value;
    assert SUITES[0] == "AES_CM_128_HMAC_SHA1_80";
  }

  lemma Suite1IsWord()
    ensures AllIn(SUITES[1], Word)
  {
    hide At, EndOf, Decimal, Value;
    assert SUITES[1] == "AES_CM_128_HMAC_SHA1_32";
  }

  lemma Suite2IsWord()
    ensures AllIn(SUITES[2], Word)
  {
    hide At, EndOf, Decimal, Value;
    assert SUITES[2] == "F8_128_HMAC_SHA1_80";
  }

  lemma Suite3IsWord()
    ensures AllIn(SUITES[3], Word)
  {
    hide At, EndOf, Decimal, Value;
    assert SUITES[3] == "AES_192_CM_HMAC_SHA1_80";
  }

  lemma Suite4IsWord()
    ensures AllIn(SUITES[4], Word)
  {
    hide At, EndOf, Decimal, Value;
    assert SUITES[4] == "AES_192_CM_HMAC_SHA1_32";
  }

  lemma Suite5IsWord()
    ensures AllIn(SUITES[5], Word)
  {
    hide At, EndOf, Decimal, Value;
    assert SUITES[5] == "AES_256_CM_HMAC_SHA1_80";
  }

  lemma Suite6IsWord()
    ensures AllIn(SUITES[6], Word)
  {
    hide At, EndOf, Decimal, Value;
    assert SUITES[6] == "AES_256_CM_HMAC_SHA1_32";
  }

  lemma Suite7IsWord()
    ensures AllIn(SUITES[7], Word)
  {
    hide At, EndOf, Decimal, Value;
    assert SUITES[7] == "AEAD_AES_128_GCM";
  }

  lemma Suite8IsWord()
    ensures AllIn(SUITES[8], Word)
  {
    hide At, EndOf, Decimal, Value;
    assert SUITES[8] == "AEAD_AES_256_GCM";
  }

  lemma SuiteIsWord(k: nat)
    requires k < |SUITES|
    ensures AllIn(SUITES[k], Word)
  {
    hide AllIn;
    Suite0IsWord();
    Suite1IsWord();
    Suite2IsWord();
    Suite3IsWord();
    Suite4IsWord();
    Suite5IsWord();
    Suite6IsWord();
    Suite7IsWord();
    Suite8IsWord();
  }

  /** What tells the known suites apart: five characters. */
  lemma SuiteChars(k: nat)
    requires k < |SUITES|
    ensures var t := SUITES[k];
            && |t| >= 16 && (t[0] == 'F' <==> k == 2) && (t[2] == 'A' <==> k >= 7)
            && (k >= 7 ==> (t[9] == '1' <==> k == 7))
            && (k != 2 && k < 7 ==> |t| == 23 && t[4] == (if k < 2 then 'C' else if k < 5 then '1' else '2')
                                    && (t[21] == '8' <==> k == 0 || k == 3 || k == 5))
  {
    assert SUITES[0] == "AES_CM_128_HMAC_SHA1_80" && SUITES[1] == "AES_CM_128_HMAC_SHA1_32";
    assert SUITES[2] == "F8_128_HMAC_SHA1_80";
    assert SUITES[3] == "AES_192_CM_HMAC_SHA1_80" && SUITES[4] == "AES_192_CM_HMAC_SHA1_32";
    assert SUITES[5] == "AES_256_CM_HMAC_SHA1_80" && SUITES[6] == "AES_256_CM_HMAC_SHA1_32";
    assert SUITES[7] == "AEAD_AES_128_GCM" && SUITES[8] == "AEAD_AES_256_GCM";
  }

  /** No two known suites stand at the same index. */
  lemma OneSuite(s: string, i: nat, j: nat, k: nat)
    requires j < |SUITES| && k < |SUITES| && At(s, i, SUITES[j]) && At(s, i, SUITES[k])
    ensures j == k
  {
    hide At;
    SuiteChars(j);
    SuiteChars(k);
    SameChar(s, i, SUITES[j], SUITES[k], 0);
    SameChar(s, i, SUITES[j], SUITES[k], 2);
    SameChar(s, i, SUITES[j], SUITES[k], 4);
    SameChar(s, i, SUITES[j], SUITES[k], 9);
    SameChar(s, i, SUITES[j], SUITES[k], 21);
  }

  lemma SameChar(s: string, i: nat, t: string, u: string, k: nat)
    requires At(s, i, t) && At(s, i, u)
    ensures k < |t| && k < |u| ==> t[k] == u[k]
  {
    if k < |t| && k < |u| {
      AtChar(s, i, t, k);
      AtChar(s, i, u, k);
    }
  }

  lemma SuiteParses(s: string, i: nat, u: Suite)
    requires IsSuite(u) && At(s, i, SuiteText(u)) && Ended(s, i + |SuiteText(u)|)
    ensures i <= |s| && ParseSuite(s, i) == Some((u, i + |SuiteText(u)|))
  {
    hide At;
    AtInside(s, i, SuiteText(u));
    var k := FindSuite(s, i, 0);
    match u {
      case Known(j) =>
        if k < |SUITES| {
          OneSuite(s, i, j, k);
        }
      case OtherSuite(name) =>
        if k < |SUITES| {
          PrefixStands(s, i, name, SUITES[k], k);
        }
        EndedStops(s, i + |name|);
        RunEnds(s, i, name, Word);
        AtSlice(s, i, name);
    }
  }

  /** A known name that stands where a whole word does is a beginning of the word. */
  lemma PrefixStands(s: string, i: nat, name: string, tag: string, k: nat)
    requires At(s, i, name) && Ended(s, i + |name|) && At(s, i, tag) && k < |SUITES| && tag == SUITES[k]
    ensures At(name, 0, tag)
  {
    SuiteIsWord(k);
    CharOf(s, i, tag, |name|);
    assert |name| < |tag| ==> In(tag[|name|], Word);
    if |tag| <= |name| {
      assert name[..|tag|] == s[i..i + |tag|];
    }
  }

  // ---------- the attribute ----------

  function CryptoText(c: Crypto): (r: string)
    requires c.suite.Known? ==> c.suite.index < |SUITES|
  {
    Decimal(c.tag) + " " + SuiteText(c.suite) + (if c.keys == [] then "" else " " + KeysText(c.keys, 0)) + ParamsText(c.params, 0)
  }

  /** Blanks before each of the four parts. */
  function ParseCrypto(s: string): (r: Option<(Crypto, nat)>) {
    var tag := ParseNumber(s, EndOf(s, 0, AsciiSpace));
    if tag.None? then None
    else
      var suite := ParseSuite(s, EndOf(s, tag.value.1, AsciiSpace));
      if suite.None? then None
      else
        var keys := ParseKeys(s, EndOf(s, suite.value.1, AsciiSpace));
        if keys.None? then None
        else
          var (params, e) := ParseParams(s, EndOf(s, keys.value.1, AsciiSpace));
          Some((Crypto(tag.value.0, suite.value.0, keys.value.0, params), e))
  }

  /** A value that survives printing and parsing. */
  predicate IsCrypto(c: Crypto) {
    c.tag < U32_LIMIT && IsSuite(c.suite) && AreKeys(c.keys) && AreParams(c.params)
  }

  lemma CryptoTextAt(c: Crypto)
    requires IsSuite(c.suite) && c.keys != []
    ensures var (s, a, b, k) := (CryptoText(c), Decimal(c.tag), SuiteText(c.suite), KeysText(c.keys, 0));
            && At(s, 0, a) && CharAt(s, |a|, ' ') && At(s, |a| + 1, b) && CharAt(s, |a| + 1 + |b|, ' ')
            && At(s, |a| + |b| + 2, k) && At(s, |a| + |b| + |k| + 2, ParamsText(c.params, 0))
            && |s| == |a| + |b| + |k| + 2 + |ParamsText(c.params, 0)|
  {
    hide At, Decimal, SuiteText, KeysText, ParamsText;
    var (s, a, b, k, p) := (CryptoText(c), Decimal(c.tag), SuiteText(c.suite), KeysText(c.keys, 0), ParamsText(c.params, 0));
    assert s == a + (" " + (b + (" " + (k + p))));
    AtItself(s);
    AtBoth(s, 0, a, " " + (b + (" " + (k + p))));
    AtBoth(s, |a|, " ", b + (" " + (k + p)));
    AtBoth(s, |a| + 1, b, " " + (k + p));
    AtBoth(s, |a| + 1 + |b|, " ", k + p);
    AtBoth(s, |a| + |b| + 2, k, p);
    AtChar(s, |a|, " ", 0);
    AtChar(s, |a| + 1 + |b|, " ", 0);
  }

  lemma AtItself(s: string)
    ensures At(s, 0, s)
  {
  }

  /** No blanks are skipped where a visible character stands. */
  lemma NoBlanks(s: string, i: nat)
    requires i <= |s| && (i == |s| || In(s[i], Visible))
    ensures EndOf(s, i, AsciiSpace) == i
  {
  }

  lemma TextStarts(s: string, i: nat, t: string, k: Class)
    requires At(s, i, t) && t != "" && AllIn(t, k) && k in {Digit, Word, Visible}
    ensures i < |s| && In(s[i], Visible) && !In(s[i], Space) && !In(s[i], AsciiSpace)
  {
    AtChar(s, i, t, 0);
    assert In(t[0], k);
  }

  lemma SuiteStarts(s: string, i: nat, u: Suite)
    requires IsSuite(u) && At(s, i, SuiteText(u))
    ensures i < |s| && !In(s[i], Space) && !In(s[i], AsciiSpace)
  {
    if u.Known? {
      SuiteIsWord(u.index);
      SuiteChars(u.index);
    }
    TextStarts(s, i, SuiteText(u), Word);
  }

  lemma KeysStart(s: string, i: nat, ks: seq<Key>)
    requires ks != [] && At(s, i, KeysText(ks, 0))
    ensures i < |s| && !In(s[i], Space) && !In(s[i], AsciiSpace)
  {
    KeysTextAt(s, i, ks, 0);
    AtChar(s, i, INLINE, 0);
  }

  /** Printing a value and parsing the text gives the value back, with nothing left. */
  lemma RoundTrip(c: Crypto)
    requires IsCrypto(c)
    ensures ParseCrypto(CryptoText(c)) == Some((c, |CryptoText(c)|))
  {
    hide At, In, EndOf, Decimal, SuiteText, KeysText, ParamsText, CryptoText, ParseNumber, ParseSuite, ParseKeys, ParseParams, AreParams;
    var (s, a, b, k) := (CryptoText(c), Decimal(c.tag), SuiteText(c.suite), KeysText(c.keys, 0));
    CryptoTextAt(c);
    var (i, j) := (|a| + 1, |a| + |b| + 2);
    TextStarts(s, 0, a, Digit);
    NoBlanks(s, 0);
    EndedStops(s, |a|);
    NumberParses(s, 0, c.tag);
    SuiteStarts(s, i, c.suite);
    BlankRun(s, |a|);
    SuiteParses(s, i, c.suite);
    KeysStart(s, j, c.keys);
    BlankRun(s, i + |b|);
    ParamsFollow(s, j + |k|, c.params);
    KeysParse(s, j, c.keys, 0);
    assert c.keys[0..] == c.keys;
  }

  lemma ParamsFollow(s: string, i: nat, ps: seq<Param>)
    requires AreParams(ps) && At(s, i, ParamsText(ps, 0)) && i + |ParamsText(ps, 0)| == |s|
    ensures Ended(s, i) && EndOf(s, i, AsciiSpace) <= |s| && ParseParams(s, EndOf(s, i, AsciiSpace)) == (ps, |s|)
  {
    hide At, In, EndOf, ParamText, ParseParam, IsParam;
    if ps == [] {
      NoBlanks(s, i);
      NothingParses(s);
    } else {
      ParamsTextAt(s, i, ps, 0);
      ParamStarts(s, i + 1, ps[0]);
      BlankRun(s, i);
      ParamsParse(s, i, ps, 0);
      assert ps[0..] == ps;
    }
  }

  lemma NothingParses(s: string)
    ensures ParseParam(s, |s|).None?
  {
  }

  // ---------- what the parser gives ----------

  lemma SuiteImage(s: string, i: nat)
    requires i <= |s| && ParseSuite(s, i).Some?
    ensures IsSuite(ParseSuite(s, i).value.0)
  {
    hide At;
    var u := ParseSuite(s, i).value.0;
    if u.OtherSuite? {
      forall k | 0 <= k < |SUITES|
        ensures At(u.name, 0, SUITES[k]) ==> At(s, i, SUITES[k])
      {
        PrefixOfSlice(s, i, EndOf(s, i, Word), SUITES[k]);
      }
    }
  }

  lemma PrefixOfSlice(s: string, i: nat, j: nat, tag: string)
    requires i <= j <= |s|
    ensures At(s[i..j], 0, tag) ==> At(s, i, tag)
  {
    if |tag| <= j - i {
      assert s[i..j][0..|tag|] == s[i..i + |tag|];
    }
  }

  lemma ParamImage(s: string, i: nat)
    requires i <= |s| && ParseParam(s, i).Some?
    ensures IsParam(ParseParam(s, i).value.0)
  {
    hide At;
    if ParseNamed(s, i).None? {
      var j := EndOf(s, i, Visible);
      RunStands(s, i, s[i..j]);
      NamedLocal(s, i, s[i..j]);
    }
  }

  lemma RunStands(s: string, i: nat, t: string)
    requires i <= |s| && t == s[i..EndOf(s, i, Visible)]
    ensures Stands(s, i, t)
  {
  }

  lemma {:induction false} ParamsImage(s: string, i: nat)
    requires i <= |s|
    ensures AreParams(ParseParams(s, i).0)
    decreases |s| - i
  {
    hide IsParam, ParseParam, EndOf;
    if ParseParam(s, i).Some? {
      ParamImage(s, i);
      var (p, j) := ParseParam(s, i).value;
      if EndOf(s, j, Space) != j {
        ParamsImage(s, EndOf(s, j, Space));
      }
    }
  }

  /** Whatever the parser gives, from any text, survives printing and parsing. */
  lemma ParsedSurvives(s: string)
    requires ParseCrypto(s).Some?
    ensures var c := ParseCrypto(s).value.0;
            IsCrypto(c) && ParseCrypto(CryptoText(c)) == Some((c, |CryptoText(c)|))
  {
    hide IsSuite, AreParams, ParseSuite, ParseParams, ParseNumber, ParseKeys, AreKeys, CryptoText;
    ParsedParts(s);
    RoundTrip(ParseCrypto(s).value.0);
  }

  lemma ParsedParts(s: string)
    requires ParseCrypto(s).Some?
    ensures IsCrypto(ParseCrypto(s).value.0)
  {
    hide IsSuite, AreParams, ParseSuite, ParseParams, AreKeys, EndOf;
    var tag := ParseNumber(s, EndOf(s, 0, AsciiSpace)).value;
    var suite := ParseSuite(s, EndOf(s, tag.1, AsciiSpace)).value;
    SuiteImage(s, EndOf(s, tag.1, AsciiSpace));
    var keys := ParseKeys(s, EndOf(s, suite.1, AsciiSpace)).value;
    ParamsImage(s, EndOf(s, keys.1, AsciiSpace));
  }

  /** A value survives printing and parsing exactly if it is one that the parser can give. */
  lemma RoundTripsExactly(c: Crypto)
    requires c.suite.Known? ==> c.suite.index < |SUITES|
    ensures ParseCrypto(CryptoText(c)) == Some((c, |CryptoText(c)|)) <==> IsCrypto(c)
  {
    hide IsCrypto, CryptoText;
    if IsCrypto(c) {
      RoundTrip(c);
    }
    if ParseCrypto(CryptoText(c)).Some? {
      ParsedSurvives(CryptoText(c));
    }
  }

  // ---------- printing ----------

  method DisplayParams(ps: seq<Param>) returns (text: string)
    ensures text == ParamsText(ps, 0)
  {
    hide ParamText;
    text := "";
    for i := 0 to |ps|
      invariant text + ParamsText(ps, i) == ParamsText(ps, 0)
    {
      text := text + " " + ParamText(ps[i]);
    }
  }

  /** The printer, whose text parses to the same value if that is one of the parser's. */
  method Display(c: Crypto) returns (text: string)
    requires c.suite.Known? ==> c.suite.index < |SUITES|
    ensures text == CryptoText(c)
    ensures ParseCrypto(text) == Some((c, |text|)) <==> IsCrypto(c)
  {
    hide KeysText, ParamsText, SuiteText, Decimal, IsCrypto, ParseCrypto;
    text := Decimal(c.tag) + " " + SuiteText(c.suite);
    if c.keys != [] {
      var keys := DisplayKeys(c.keys);
      text := text + " " + keys;
    }
    var params := DisplayParams(c.params);
    text := text + params;
    RoundTripsExactly(c);
  }
}
