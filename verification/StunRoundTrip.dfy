/**
 Building and parsing fit together: whatever list of attributes is built, the parser finds each of them,
 and every integrity check and fingerprint verifies.
 */
module StunRoundTrip {
  import opened Bytes
  import opened StunMessage
  import opened Wrappers
  import opened StunParser
  import Crc32

  /** Where item i starts. */
  function Start(items: seq<Item>, i: nat): (r: nat)
    requires i <= |items|
    ensures r >= HEADER_LENGTH
  {
    HEADER_LENGTH + WireLengths(items, i)
  }

  /** The length an item announces. */
  function Announced(padded: bool, item: Item): (r: nat) {
    if padded then item.Length() + Padding(item.Length()) else item.Length()
  }

  lemma PaddedNeedsNone(n: nat)
    ensures Padding(n + Padding(n)) == 0
  {
  }

  // ---------- one item ----------

  /** What an item appends to the buffer. */
  function Segment(padded: bool, b: Bytes, item: Item): (r: Bytes)
    requires |b| >= HEADER_LENGTH
    ensures |r| == item.WireLength()
  {
    ItemHeader(padded, item) + ItemValue(Covered(b, item), item) + Zeros(Padding(item.Length()))
  }

  lemma AddItemAppends(padded: bool, b: Bytes, item: Item)
    requires |b| >= HEADER_LENGTH
    ensures AddItem(padded, b, item)[|b|..] == Segment(padded, b, item)
    ensures Extends(b, AddItem(padded, b, item))
  {
    AddItemKeeps(padded, b, item);
  }

  lemma SegmentIsAttribute(padded: bool, b: Bytes, item: Item)
    requires |b| >= HEADER_LENGTH && item.WireLength() <= MAX_LENGTH
    ensures IsAttribute(Segment(padded, b, item), item.typ, Announced(padded, item))
    ensures Segment(padded, b, item)[4..4 + item.Length()] == ItemValue(Covered(b, item), item)
    ensures Segment(padded, b, item)[4..] == ItemValue(Covered(b, item), item) + Zeros(Padding(item.Length()))
  {
    var r, h := Segment(padded, b, item), ItemHeader(padded, item);
    assert r[..4] == h;
    assert forall k :: 0 <= k < 4 ==> r[k] == h[k];
    assert h[0] == U16Bytes(item.typ)[0] && h[1] == U16Bytes(item.typ)[1];
    assert h[2] == U16Bytes(Announced(padded, item))[0] && h[3] == U16Bytes(Announced(padded, item))[1];
    PaddedNeedsNone(item.Length());
  }

  // ---------- all items ----------

  lemma BufferExtends(padded: bool, header: Bytes, items: seq<Item>, i: nat, n: nat)
    requires |header| == HEADER_LENGTH && i <= n <= |items|
    ensures Extends(Buffer(padded, header, items, i), Buffer(padded, header, items, n))
  {
    hide AddItem, Extends;
    var bs := seq(n + 1, k requires 0 <= k <= n => Buffer(padded, header, items, k));
    forall k | 0 < k < |bs|
      ensures Extends(bs[k - 1], bs[k])
    {
      AddItemAppends(padded, bs[k - 1], items[k - 1]);
    }
    GrowsFar(bs, i, n);
  }

  /** The finished message extends the buffer of every earlier time. */
  lemma FinishedExtends(padded: bool, header: Bytes, items: seq<Item>, i: nat, f: Bytes)
    requires |header| == HEADER_LENGTH && i <= |items| && f == Finished(padded, header, items)
    ensures Extends(Buffer(padded, header, items, i), f)
  {
    var b := Buffer(padded, header, items, |items|);
    BufferExtends(padded, header, items, i, |items|);
    assert Extends(b, f) by {
      assert f[4..|b|] == f[4..];
    }
    ExtendsTwice(Buffer(padded, header, items, i), b, f);
  }

  /** What an item appended is still there in every extension of the buffer. */
  lemma SegmentStays(padded: bool, b: Bytes, item: Item, f: Bytes)
    requires |b| >= HEADER_LENGTH && Extends(AddItem(padded, b, item), f)
    ensures |b| + item.WireLength() <= |f|
    ensures f[|b|..|b| + item.WireLength()] == Segment(padded, b, item)
    ensures Extends(b, f)
  {
    var c := AddItem(padded, b, item);
    AddItemAppends(padded, b, item);
    ExtendsTwice(b, c, f);
    AppendedStays(b, c, f);
  }

  lemma AppendedStays(b: Bytes, c: Bytes, f: Bytes)
    requires 4 <= |b| <= |c| && HEADER_LENGTH <= |c| && Extends(c, f)
    ensures f[|b|..|c|] == c[|b|..]
  {
    assert f[|b|..|c|] == f[4..|c|][|b| - 4..] == c[4..][|b| - 4..] == c[|b|..];
  }

  /** A verifier that patches the length of the finished message sees the bytes the seal was made from. */
  lemma PatchedAlike(b: Bytes, f: Bytes, len: nat)
    requires HEADER_LENGTH <= |b| <= |f| && Extends(b, f)
    ensures PatchLen(f, len)[..|b|] == PatchLen(b, len)
  {
    assert PatchLen(f, len)[..|b|] == f[..2] + U16Bytes(len) + f[4..|b|];
    assert PatchLen(b, len) == b[..2] + U16Bytes(len) + b[4..];
  }

  ghost function Starts(items: seq<Item>): (r: seq<nat>)
    ensures |r| == |items| + 1 && forall k :: 0 <= k <= |items| ==> r[k] == Start(items, k)
  {
    seq(|items| + 1, k requires 0 <= k <= |items| => Start(items, k))
  }

  ghost function Types(items: seq<Item>): (r: seq<U16>)
    ensures |r| == |items| && forall k :: 0 <= k < |items| ==> r[k] == items[k].typ
  {
    seq(|items|, k requires 0 <= k < |items| => items[k].typ)
  }

  ghost function Lengths(padded: bool, items: seq<Item>): (r: seq<nat>)
    ensures |r| == |items| && forall k :: 0 <= k < |items| ==> r[k] == Announced(padded, items[k])
  {
    seq(|items|, k requires 0 <= k < |items| => Announced(padded, items[k]))
  }

  /** The value found for an item: the one given, or a seal that verifies. */
  ghost predicate Recovered(f: Bytes, padded: bool, item: Item, span: AttrSpan)
    requires |f| >= HEADER_LENGTH && HEADER_LENGTH + 4 <= span.begin <= span.end <= span.paddingEnd <= |f|
  {
    && span.typ == item.typ
    && match item
       case Plain(_, value) =>
         f[span.begin..span.end] == if padded then value + Zeros(Padding(|value|)) else value
       case Seal(_, size, seal) =>
         item.Valid() ==> Sealed(f, span, size, seal)
  }

  /** An item in its place: a whole attribute, whose value is found. */
  ghost predicate InPlace(f: Bytes, padded: bool, item: Item, from: nat) {
    && from >= HEADER_LENGTH
    && LaidOut(f, from, from + item.WireLength(), item.typ, Announced(padded, item))
    && Recovered(f, padded, item, SpanFor(from, item.typ, Announced(padded, item)))
  }

  lemma ItemInPlace(padded: bool, b: Bytes, item: Item, f: Bytes)
    requires |b| >= HEADER_LENGTH && Extends(AddItem(padded, b, item), f)
    requires |b| + item.WireLength() - HEADER_LENGTH <= MAX_LENGTH
    ensures InPlace(f, padded, item, |b|)
  {
    hide Segment, AddItem, Extends, Sealed, U16Bytes, Covered, Fit;
    var from, to, n := |b|, |b| + item.WireLength(), item.Length();
    var value := ItemValue(Covered(b, item), item);
    SegmentStays(padded, b, item, f);
    SegmentIsAttribute(padded, b, item);
    PaddedNeedsNone(n);
    ValueInPlace(f, Segment(padded, b, item), from, value, Padding(n));
    if item.Seal? && item.Valid() {
      PatchedAlike(b, f, to - HEADER_LENGTH);
      SealRecovered(f, b, item, SpanFor(from, item.typ, Announced(padded, item)));
    }
  }

  /** The value of an attribute, with and without its padding. */
  lemma ValueInPlace(f: Bytes, segment: Bytes, from: nat, value: Bytes, padding: nat)
    requires |segment| == 4 + |value| + padding && from + |segment| <= |f| && f[from..from + |segment|] == segment
    requires segment[4..] == value + Zeros(padding)
    ensures f[from + 4..from + 4 + |value|] == value && f[from + 4..from + |segment|] == value + Zeros(padding)
  {
    ValueInside(f, from, from + |segment|, 4, |segment|);
    ValueInside(f, from, from + |segment|, 4, 4 + |value|);
    assert segment[4..4 + |value|] == segment[4..][..|value|] == value;
  }

  lemma SealRecovered(f: Bytes, b: Bytes, item: Item, span: AttrSpan)
    requires item.Seal? && HEADER_LENGTH <= |b| == span.begin - 4
    requires span.begin + item.size == span.end == span.paddingEnd <= |f| && span.end - HEADER_LENGTH <= MAX_LENGTH
    requires PatchLen(f, span.end - HEADER_LENGTH)[..|b|] == PatchLen(b, span.end - HEADER_LENGTH)
    requires f[span.begin..span.end] == ItemValue(Covered(b, item), item)
    ensures Sealed(f, span, item.size, item.seal)
  {
  }

  lemma ValueInside(f: Bytes, from: nat, to: nat, i: nat, j: nat)
    requires from <= to <= |f| && i <= j <= to - from
    ensures f[from..to][i..j] == f[from + i..from + j]
  {
    var l, r := f[from..to][i..j], f[from + i..from + j];
    assert |l| == |r| && forall k :: 0 <= k < |l| ==> l[k] == r[k];
  }

  lemma HeadType(typ: nat)
    requires typ < 0x4000
    ensures Head(typ / 256, typ % 256, 0).Type() == typ && Head(typ / 256, typ % 256, 0).ZeroBits() == 0
  {
  }

  lemma TypeRoundTrip(c: Class, m: Method)
    ensures FirstHead(c, m).ZeroBits() == 0
    ensures ClassOf(FirstHead(c, m).Type()) == c && MethodOf(FirstHead(c, m).Type()) == Some(m)
  {
    MethodRoundTrip(m);
    HeadType(MethodBits(m) + ClassBits(c));
    BitsApart(MethodBits(m), c);
  }

  lemma MethodRoundTrip(m: Method)
    ensures MethodBits(m) < 16 && MethodOf(MethodBits(m)) == Some(m)
  {
  }

  lemma BitsAbove(bits: nat, k: nat)
    requires bits < 16 && k < 32
    ensures (bits + 16 * k) / 16 % 2 == k % 2 && (bits + 16 * k) / 256 == k / 16
  {
    assert (bits + 16 * k) / 16 == k;
  }

  lemma BitsApart(bits: nat, c: Class)
    requires bits < 16
    ensures ClassOf(bits + ClassBits(c)) == c
    ensures MethodOf(bits + ClassBits(c)) == MethodOf(bits)
  {
    BitsAbove(bits, 0);
    match c {
      case Request =>
      case Indication => BitsAbove(bits, 1);
      case Success => BitsAbove(bits, 16);
      case Error => BitsAbove(bits, 17);
    }
  }

  lemma HeaderParsed(head: Head, tid: Bytes, padded: bool, items: seq<Item>, f: Bytes, m: Method)
    requires |tid| == 12 && f == Finished(padded, HeaderBytes(head, tid), items)
    requires head.ZeroBits() == 0 && MethodOf(head.Type()) == Some(m)
    ensures ParseHeader(f) == Ok(Header(ClassOf(head.Type()), m, tid))
  {
    var header := HeaderBytes(head, tid);
    FinishedExtends(padded, header, items, 0, f);
    assert Buffer(padded, header, items, 0) == header;
    assert f[0] == f[..2][0] && f[1] == f[..2][1];
    assert header[0] == header[..4][0] == head.high && header[1] == header[..4][1] == head.low;
    assert f[4..8] == f[4..20][..4] == header[4..][..4] == header[4..8];
    assert f[8..20] == f[4..20][4..] == header[4..][4..] == header[8..];
  }

  ghost predicate RecoveredAt(f: Bytes, padded: bool, items: seq<Item>, spans: seq<AttrSpan>, i: nat)
    requires i < |items| && i < |spans| && |f| >= HEADER_LENGTH
  {
    var span := spans[i];
    HEADER_LENGTH + 4 <= span.begin <= span.end <= span.paddingEnd <= |f| && Recovered(f, padded, items[i], span)
  }

  /** Items in their places, one behind the other up to the end, are what the parser finds. */
  lemma AttributesParsed(padded: bool, items: seq<Item>, f: Bytes)
    requires |f| == Start(items, |items|)
    requires forall i :: 0 <= i < |items| ==> InPlace(f, padded, items[i], Start(items, i))
    ensures ParseSpans(f, HEADER_LENGTH).Ok?
    ensures var spans := ParseSpans(f, HEADER_LENGTH).value;
            && Tiles(spans, HEADER_LENGTH, |f|) && |spans| == |items|
            && forall i :: 0 <= i < |items| ==> RecoveredAt(f, padded, items, spans, i)
  {
    hide InPlace, RecoveredAt, Layout;
    ItemsLaidOut(padded, items, f);
    LayoutParsed(f, Starts(items), Types(items), Lengths(padded, items), 0);
    ParsedTiles(f, HEADER_LENGTH);
    var spans := SpansFrom(Starts(items), Types(items), Lengths(padded, items), 0);
    forall i | 0 <= i < |items|
      ensures RecoveredAt(f, padded, items, spans, i)
    {
      assert InPlace(f, padded, items[i], Start(items, i));
      SpanRecovered(padded, items, f, i);
    }
  }

  lemma StartStep(items: seq<Item>, i: nat)
    requires i < |items|
    ensures Start(items, i + 1) == Start(items, i) + items[i].WireLength()
  {
  }

  lemma {:induction false} ItemsLaidOut(padded: bool, items: seq<Item>, f: Bytes)
    requires |f| == Start(items, |items|)
    requires forall i :: 0 <= i < |items| ==> InPlace(f, padded, items[i], Start(items, i))
    ensures Layout(f, Starts(items), Types(items), Lengths(padded, items))
  {
    hide LaidOut, Recovered, Announced, Starts, Types, Lengths, SpanFor, Start;
    var starts, types, lengths := Starts(items), Types(items), Lengths(padded, items);
    forall i | 0 <= i < |items|
      ensures LaidOut(f, starts[i], starts[i + 1], types[i], lengths[i])
    {
      var item, from := items[i], Start(items, i);
      StartStep(items, i);
      assert InPlace(f, padded, item, from);
      assert starts[i] == from && starts[i + 1] == from + item.WireLength();
      assert types[i] == item.typ && lengths[i] == Announced(padded, item);
    }
  }

  lemma SpanRecovered(padded: bool, items: seq<Item>, f: Bytes, i: nat)
    requires i < |items| && InPlace(f, padded, items[i], Start(items, i))
    ensures RecoveredAt(f, padded, items, SpansFrom(Starts(items), Types(items), Lengths(padded, items), 0), i)
  {
    SpansFromAt(Starts(items), Types(items), Lengths(padded, items), 0, i);
  }

  lemma {:induction false} ItemOfFinished(padded: bool, header: Bytes, items: seq<Item>, i: nat)
    requires |header| == HEADER_LENGTH && i < |items|
    requires WireLengths(items, |items|) <= MAX_LENGTH
    ensures InPlace(Finished(padded, header, items), padded, items[i], Start(items, i))
  {
    hide Finished, AddItem, InPlace;
    var b, f := Buffer(padded, header, items, i), Finished(padded, header, items);
    assert Buffer(padded, header, items, i + 1) == AddItem(padded, b, items[i]);
    LengthsMonotone(items, i + 1, |items|);
    FinishedExtends(padded, header, items, i + 1, f);
    StartStep(items, i);
    hide Start, WireLengths, Extends;
    ItemInPlace(padded, b, items[i], f);
  }

  /**
   Building any list of attributes, finishing and parsing: the header comes back, there is one span an
   item, the spans lie end to end from byte 20 to the end of the message, every plain value is found,
   and every seal verifies.
   */
  lemma {:induction false} BuiltMessageParses(c: Class, m: Method, tid: Bytes, padded: bool, items: seq<Item>, f: Bytes)
    requires |tid| == 12 && WireLengths(items, |items|) <= MAX_LENGTH
    requires f == Finished(padded, HeaderBytes(FirstHead(c, m), tid), items)
    ensures ParseHeader(f) == Ok(Header(c, m, tid))
    ensures ParseSpans(f, HEADER_LENGTH).Ok?
    ensures var spans := ParseSpans(f, HEADER_LENGTH).value;
            && Tiles(spans, HEADER_LENGTH, |f|) && |spans| == |items|
            && forall i :: 0 <= i < |items| ==> RecoveredAt(f, padded, items, spans, i)
  {
    var header := HeaderBytes(FirstHead(c, m), tid);
    TypeRoundTrip(c, m);
    HeaderParsed(FirstHead(c, m), tid, padded, items, f, m);
    forall i | 0 <= i < |items|
      ensures InPlace(f, padded, items[i], Start(items, i))
    {
      ItemOfFinished(padded, header, items, i);
    }
    AttributesParsed(padded, items, f);
  }

  // ---------- a built message in a stream ----------

  /** Two streams with the same first 20 bytes announce the same message. */
  lemma SameStart(a: Bytes, b: Bytes)
    requires |a| >= HEADER_LENGTH && |b| >= HEADER_LENGTH && a[..20] == b[..20]
    ensures HeadAt(a) == HeadAt(b) && a[4..8] == b[4..8]
  {
    assert forall k :: 0 <= k < 20 ==> a[k] == a[..20][k] && b[k] == b[..20][k];
    assert a[4..8] == a[..20][4..8];
    assert b[4..8] == b[..20][4..8];
  }

  lemma {:induction false} FinishedLength(padded: bool, header: Bytes, items: seq<Item>, f: Bytes)
    requires |header| == HEADER_LENGTH && f == Finished(padded, header, items)
    requires WireLengths(items, |items|) <= MAX_LENGTH
    ensures HeadAt(f).len == |f| - HEADER_LENGTH
  {
    var n := WireLengths(items, |items|);
    assert f[2] == U16Bytes(n)[0] && f[3] == U16Bytes(n)[1];
  }

  /**
   However much of a built message has arrived, and whatever follows it, its start is recognised and
   its end is known: the missing bytes are counted exactly, and complete messages have their own length.
   */
  lemma {:induction false} BuiltIsFramed(c: Class, m: Method, tid: Bytes, padded: bool, items: seq<Item>, f: Bytes, stream: Bytes)
    requires |tid| == 12 && WireLengths(items, |items|) <= MAX_LENGTH
    requires f == Finished(padded, HeaderBytes(FirstHead(c, m), tid), items)
    requires stream <= f || f <= stream
    ensures IsStunMessage(stream)
         == if |stream| < HEADER_LENGTH then TooShort
            else if |stream| < |f| then YesIncomplete(|f| - |stream|)
            else Yes(|f|)
  {
    hide Finished, HeaderBytes, FirstHead, HeadAt;
    if |stream| >= HEADER_LENGTH {
      FramedByHeader(c, m, tid, padded, items, f);
      assert stream[..20] == f[..20];
      SameStart(stream, f);
    }
  }

  lemma {:induction false} FramedByHeader(c: Class, m: Method, tid: Bytes, padded: bool, items: seq<Item>, f: Bytes)
    requires |tid| == 12 && WireLengths(items, |items|) <= MAX_LENGTH
    requires f == Finished(padded, HeaderBytes(FirstHead(c, m), tid), items)
    ensures HeadAt(f).ZeroBits() == 0 && f[4..8] == COOKIE && HeadAt(f).len == |f| - HEADER_LENGTH
  {
    TypeRoundTrip(c, m);
    HeaderParsed(FirstHead(c, m), tid, padded, items, f, m);
    FinishedLength(padded, HeaderBytes(FirstHead(c, m), tid), items, f);
  }

  // ---------- a signed message, from the sender to the receiver ----------

  /** Attributes a sender may put before its integrity attribute and fingerprint. */
  ghost predicate Ordinary(item: Item) {
    item.Plain? && !IsIntegrity(item.typ) && item.typ != FINGERPRINT_TYPE
  }

  function Signed(attributes: seq<Item>, mac: Bytes -> Bytes): (r: seq<Item>)
    ensures |r| == |attributes| + 2 && r[..|attributes|] == attributes
    ensures r[|attributes|] == MessageIntegrity(mac) && r[|attributes| + 1] == Fingerprint()
  {
    attributes + [MessageIntegrity(mac), Fingerprint()]
  }

  /** The attributes of a signed message are all visible. */
  lemma SignedVisible(attributes: seq<Item>, mac: Bytes -> Bytes, spans: seq<AttrSpan>, i: nat)
    requires forall k :: 0 <= k < |attributes| ==> Ordinary(attributes[k])
    requires |spans| == |attributes| + 2 && i < |spans|
    requires forall k :: 0 <= k < |spans| ==> spans[k].typ == Signed(attributes, mac)[k].typ
    ensures Visible(spans, i)
  {
    forall j | 0 <= j < |attributes|
      ensures !IsIntegrity(spans[j].typ)
    {
      assert Signed(attributes, mac)[j] == attributes[j];
    }
  }

  /** What a parsed message shows of the items it was built from. */
  ghost predicate Shows(f: Bytes, spans: seq<AttrSpan>, items: seq<Item>) {
    && |f| >= HEADER_LENGTH && |spans| == |items|
    && forall i :: 0 <= i < |items| ==> RecoveredAt(f, false, items, spans, i)
  }

  /** Both checks of a signed message pass, whatever came before them. */
  lemma SignedChecks(attributes: seq<Item>, mac: Bytes -> Bytes, f: Bytes, spans: seq<AttrSpan>)
    requires forall k :: 0 <= k < |attributes| ==> Ordinary(attributes[k])
    requires Shows(f, spans, Signed(attributes, mac))
    ensures Answers(spans, INTEGRITY_TYPE, |attributes|)
    ensures Holds(f, spans[|attributes|], 20, mac)
    ensures Answers(spans, FINGERPRINT_TYPE, |attributes| + 1)
    ensures Holds(f, spans[|attributes| + 1], 4, Crc32.FingerprintValue)
  {
    hide Sealed;
    var items, n := Signed(attributes, mac), |attributes|;
    forall k | 0 <= k < n + 2
      ensures spans[k].typ == items[k].typ
    {
      assert RecoveredAt(f, false, items, spans, k);
    }
    SignedVisible(attributes, mac, spans, n);
    SignedVisible(attributes, mac, spans, n + 1);
    forall k | 0 <= k < n
      ensures !IsIntegrity(spans[k].typ) && spans[k].typ != FINGERPRINT_TYPE
    {
      assert items[k] == attributes[k];
    }
    assert items[n].Valid() && items[n + 1].Valid();
    assert RecoveredAt(f, false, items, spans, n) && RecoveredAt(f, false, items, spans, n + 1);
  }

  /** Every attribute that is the first of its type is the one found, with its value. */
  lemma SignedLookup(attributes: seq<Item>, mac: Bytes -> Bytes, f: Bytes, spans: seq<AttrSpan>, i: nat)
    requires i < |attributes| && attributes[i].Plain?
    requires forall k :: 0 <= k < |attributes| ==> Ordinary(attributes[k])
    requires forall k :: 0 <= k < i ==> attributes[k].typ != attributes[i].typ
    requires Shows(f, spans, Signed(attributes, mac))
    ensures Answers(spans, attributes[i].typ, i)
    ensures spans[i].begin <= spans[i].end <= |f| && f[spans[i].begin..spans[i].end] == attributes[i].value
  {
    var items := Signed(attributes, mac);
    forall k | 0 <= k < |items|
      ensures spans[k].typ == items[k].typ && (k < |attributes| ==> items[k] == attributes[k])
    {
      assert RecoveredAt(f, false, items, spans, k);
    }
    SignedVisible(attributes, mac, spans, i);
    assert RecoveredAt(f, false, items, spans, i);
  }

  /** A sender signs with a key, a receiver parses and checks with the same key: both checks pass. */
  method SignAndCheck(c: Class, m: Method, tid: Bytes, attributes: seq<Item>, mac: Bytes -> Bytes)
    returns (integrity: bool, fingerprint: bool, message: Message)
    requires |tid| == 12 && WireLengths(Signed(attributes, mac), |attributes| + 2) <= MAX_LENGTH
    requires forall k :: 0 <= k < |attributes| ==> Ordinary(attributes[k])
    ensures integrity && fingerprint
    ensures message.Valid() && message.header == Header(c, m, tid)
    ensures message.buffer == Finished(false, HeaderBytes(FirstHead(c, m), tid), Signed(attributes, mac))
    ensures Shows(message.buffer, message.attributes, Signed(attributes, mac))
  {
    hide Finished, Sealed, HeaderBytes, Tiles, Holds, Answers, RecoveredAt, Signed;
    var items := Signed(attributes, mac);
    var f := Build(c, m, tid, false, items);
    BuiltMessageParses(c, m, tid, false, items, f);
    var outcome := Parse(f);
    message := outcome.message;
    SignedChecks(attributes, mac, f, message.attributes);
    integrity := Check(message, INTEGRITY_TYPE, 20, mac);
    fingerprint := Check(message, FINGERPRINT_TYPE, 4, Crc32.FingerprintValue);
  }
}
