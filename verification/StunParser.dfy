/**
 The STUN parser, and what it says about messages made by the builder: every attribute is found where
 it was put, and every seal verifies although the length field was patched while signing, when
 finishing, and again while verifying.
 */
module StunParser {
  import opened Bytes
  import opened StunMessage
  import opened Wrappers

  datatype ParseError = Incomplete | NotStun | UnknownMethod | BadLength

  datatype Result<+T> = Ok(value: T) | Err(error: ParseError)

  /** Where an attribute's value lies: its begin, its end, and its end with padding. */
  datatype AttrSpan = AttrSpan(begin: nat, end: nat, paddingEnd: nat, typ: U16)

  // ---------- the parser as a function ----------

  /** The attribute starting at `pos`. */
  function SpanAt(b: Bytes, pos: nat): (r: Result<AttrSpan>)
    requires pos <= |b|
    ensures r.Ok? ==> pos + 4 == r.value.begin <= r.value.end <= r.value.paddingEnd <= |b|
  {
    if pos + 4 > |b| then Err(Incomplete)
    else
      var begin, len := pos + 4, U16At(b, pos + 2);
      var end := begin + len + Padding(len);
      if end > |b| then Err(BadLength) else Ok(AttrSpan(begin, begin + len, end, U16At(b, pos)))
  }

  function ParseSpans(b: Bytes, pos: nat): (r: Result<seq<AttrSpan>>)
    requires pos <= |b|
    decreases |b| - pos
  {
    if pos == |b| then Ok([])
    else match SpanAt(b, pos)
      case Err(e) => Err(e)
      case Ok(span) =>
        match ParseSpans(b, span.paddingEnd)
        case Err(e) => Err(e)
        case Ok(rest) => Ok([span] + rest)
  }

  datatype Header = Header(c: Class, m: Method, tid: Bytes)

  function ParseHeader(b: Bytes): (r: Result<Header>)
    ensures r.Ok? ==> |b| >= HEADER_LENGTH
  {
    if |b| < 4 then Err(Incomplete)
    else if HeadAt(b).ZeroBits() != 0 then Err(NotStun)
    else if |b| < HEADER_LENGTH then Err(Incomplete)
    else if b[4..8] != COOKIE then Err(NotStun)
    else match MethodOf(HeadAt(b).Type())
      case None => Err(UnknownMethod)
      case Some(m) => Ok(Header(ClassOf(HeadAt(b).Type()), m, b[8..20]))
  }

  // ---------- messages in a stream ----------

  datatype StunInfo = TooShort | No | Yes(len: nat) | YesIncomplete(needed: nat)

  /** Inspects the start of a stream. */
  function IsStunMessage(b: Bytes): (r: StunInfo) {
    if |b| < HEADER_LENGTH then TooShort
    else if HeadAt(b).ZeroBits() != 0 then No
    else if b[4..8] != COOKIE then No
    else
      var expected := HeadAt(b).len + HEADER_LENGTH;
      if |b| < expected then YesIncomplete(expected - |b|) else Yes(expected)
  }

  // ---------- tiling ----------

  /** The spans lie end to end from `from` to `to`, each behind its four header bytes. */
  ghost predicate Tiles(spans: seq<AttrSpan>, from: nat, to: nat) {
    if spans == [] then from == to
    else
      && from + 4 == spans[0].begin <= spans[0].end
      && spans[0].paddingEnd == spans[0].end + Padding(spans[0].end - spans[0].begin)
      && Tiles(spans[1..], spans[0].paddingEnd, to)
  }

  lemma {:induction false} ParsedTiles(b: Bytes, pos: nat)
    requires pos <= |b| && ParseSpans(b, pos).Ok?
    ensures Tiles(ParseSpans(b, pos).value, pos, |b|)
    decreases |b| - pos
  {
    if pos != |b| {
      ParsedTiles(b, SpanAt(b, pos).value.paddingEnd);
    }
  }

  lemma {:induction false} TilesEnd(spans: seq<AttrSpan>, from: nat, to: nat)
    requires Tiles(spans, from, to)
    ensures from <= to
    decreases |spans|
  {
    if spans != [] {
      TilesEnd(spans[1..], spans[0].paddingEnd, to);
    }
  }

  lemma {:induction false} TilesInside(spans: seq<AttrSpan>, from: nat, to: nat, i: nat)
    requires Tiles(spans, from, to) && i < |spans|
    ensures from + 4 <= spans[i].begin <= spans[i].end <= spans[i].paddingEnd <= to
    decreases |spans|
  {
    TilesEnd(spans[1..], spans[0].paddingEnd, to);
    if i > 0 {
      TilesInside(spans[1..], spans[0].paddingEnd, to, i - 1);
    }
  }

  // ---------- the message object ----------

  /** After an integrity attribute only these two types are read. */
  predicate ReadAfterIntegrity(typ: U16) {
    typ == INTEGRITY_SHA256_TYPE || typ == FINGERPRINT_TYPE
  }

  predicate IsIntegrity(typ: U16) {
    typ == INTEGRITY_TYPE || typ == INTEGRITY_SHA256_TYPE
  }

  /** No attribute up to i is hidden behind an integrity attribute. */
  ghost predicate Visible(spans: seq<AttrSpan>, i: nat)
    requires i < |spans|
  {
    forall j, k :: 0 <= j < k <= i && IsIntegrity(spans[j].typ) ==> ReadAfterIntegrity(spans[k].typ)
  }

  /** The value at `span` is the seal over the message up to its header, with the length set to its end. */
  predicate Sealed(b: Bytes, span: AttrSpan, size: nat, seal: Bytes -> Bytes)
    requires |b| >= HEADER_LENGTH && HEADER_LENGTH + 4 <= span.begin <= span.end <= span.paddingEnd <= |b|
  {
    && span.paddingEnd - HEADER_LENGTH <= MAX_LENGTH
    && b[span.begin..span.end] == Fit(seal(PatchLen(b, span.paddingEnd - HEADER_LENGTH)[..span.begin - 4]), size)
  }

  class Message {
    var buffer: Bytes
    var head: Head
    const header: Header
    const attributes: seq<AttrSpan>

    ghost predicate Valid()
      reads this
    {
      && |buffer| >= HEADER_LENGTH && head.len <= MAX_LENGTH && buffer[..4] == head.ToBytes()
      && Tiles(attributes, HEADER_LENGTH, |buffer|)
    }

    constructor (b: Bytes, header: Header, spans: seq<AttrSpan>)
      requires |b| >= HEADER_LENGTH && Tiles(spans, HEADER_LENGTH, |b|)
      ensures Valid() && buffer == b && this.header == header && attributes == spans && fresh(this)
    {
      buffer := b;
      head := HeadAt(b);
      this.header := header;
      attributes := spans;
    }

    method SetMsgLen(len: nat)
      requires Valid() && len <= MAX_LENGTH
      modifies this`buffer, this`head
      ensures Valid() && head == old(head).(len := len) && buffer == PatchLen(old(buffer), len)
    {
      head := head.(len := len);
      var bytes := head.ToBytes();
      buffer := buffer[0 := bytes[0]][1 := bytes[1]][2 := bytes[2]][3 := bytes[3]];
      assert buffer[..4] == bytes;
      assert old(buffer)[..2] == old(buffer)[..4][..2] == bytes[..2];
      assert buffer == PatchLen(old(buffer), len);
    }

    /** The first attribute of a type that is not hidden behind an integrity attribute. */
    method Attribute(typ: U16) returns (r: Option<nat>)
      ensures r.Some? ==> r.value < |attributes| && attributes[r.value].typ == typ && Visible(attributes, r.value)
      ensures r.Some? ==> forall i :: 0 <= i < r.value ==> attributes[i].typ != typ
      ensures r.None? ==> forall i: nat :: i < |attributes| && attributes[i].typ == typ ==> !Visible(attributes, i)
    {
      var afterIntegrity := false;
      var n := 0;
      while n < |attributes|
        invariant 0 <= n <= |attributes| && (n > 0 ==> Visible(attributes, n - 1))
        invariant afterIntegrity == exists i :: 0 <= i < n && IsIntegrity(attributes[i].typ)
        invariant forall i :: 0 <= i < n ==> attributes[i].typ != typ
      {
        if afterIntegrity && !ReadAfterIntegrity(attributes[n].typ) {
          return None;
        }
        if attributes[n].typ == typ {
          return Some(n);
        }
        if IsIntegrity(attributes[n].typ) {
          afterIntegrity := true;
        }
        n := n + 1;
      }
      r := None;
    }

    /** Sets the length to the end of the attribute, compares, and puts the old length back. */
    method VerifySeal(i: nat, size: nat, seal: Bytes -> Bytes) returns (ok: bool)
      requires Valid() && i < |attributes|
      modifies this`buffer, this`head
      ensures Valid() && buffer == old(buffer) && head == old(head)
      ensures HEADER_LENGTH + 4 <= attributes[i].begin <= attributes[i].end <= attributes[i].paddingEnd <= |buffer|
      ensures ok == Sealed(buffer, attributes[i], size, seal)
    {
      var span := attributes[i];
      TilesInside(attributes, HEADER_LENGTH, |buffer|, i);
      if span.paddingEnd - HEADER_LENGTH > MAX_LENGTH {
        return false;
      }
      var oldLen := head.len;
      ghost var before := buffer;
      SetMsgLen(span.paddingEnd - HEADER_LENGTH);
      var received := buffer[span.begin..span.end];
      var message := buffer[..span.begin - ATTRIBUTE_HEADER_LENGTH];
      assert received == before[4..][span.begin - 4..span.end - 4] == before[span.begin..span.end];
      ok := received == Fit(seal(message), size);
      SetMsgLen(oldLen);
      PatchBack(before, span.paddingEnd - HEADER_LENGTH, head);
    }
  }

  /** Attribute i is the one a look-up of its type returns. */
  ghost predicate Answers(spans: seq<AttrSpan>, typ: U16, i: nat) {
    i < |spans| && spans[i].typ == typ && Visible(spans, i) && forall k :: 0 <= k < i ==> spans[k].typ != typ
  }

  /** Looks an integrity attribute or fingerprint up and verifies it; a missing one does not pass. */
  method Check(message: Message, typ: U16, size: nat, seal: Bytes -> Bytes) returns (ok: bool)
    requires message.Valid()
    modifies message`buffer, message`head
    ensures message.Valid() && message.buffer == old(message.buffer) && message.head == old(message.head)
    ensures ok <==> exists i: nat :: Answers(message.attributes, typ, i) && Holds(message.buffer, message.attributes[i], size, seal)
  {
    var i := message.Attribute(typ);
    if i.None? {
      return false;
    }
    assert Answers(message.attributes, typ, i.value);
    ok := message.VerifySeal(i.value, size, seal);
    assert forall k: nat :: Answers(message.attributes, typ, k) ==> k == i.value;
  }

  ghost predicate Holds(b: Bytes, span: AttrSpan, size: nat, seal: Bytes -> Bytes) {
    && HEADER_LENGTH + 4 <= span.begin <= span.end <= span.paddingEnd <= |b|
    && Sealed(b, span, size, seal)
  }

  /** Patching the length and patching the old one back changes nothing. */
  lemma PatchBack(b: Bytes, len: nat, head: Head)
    requires |b| >= HEADER_LENGTH && b[..4] == head.ToBytes()
    ensures PatchLen(PatchLen(b, len), head.len) == b
  {
    var r := PatchLen(PatchLen(b, len), head.len);
    assert b[2..4] == b[..4][2..4] == U16Bytes(head.len);
    assert r == b[..2] + b[2..4] + b[4..];
  }

  datatype ParseOutcome = Parsed(message: Message) | Failed(error: ParseError)

  /** Reads the header, then attribute after attribute until nothing remains. */
  method Parse(b: Bytes) returns (r: ParseOutcome)
    ensures r.Parsed? <==> ParseHeader(b).Ok? && ParseSpans(b, HEADER_LENGTH).Ok?
    ensures r.Parsed? ==> fresh(r.message) && r.message.Valid() && r.message.buffer == b
    ensures r.Parsed? ==> r.message.header == ParseHeader(b).value
    ensures r.Parsed? ==> r.message.attributes == ParseSpans(b, HEADER_LENGTH).value
    ensures r.Failed? ==> r.error == if ParseHeader(b).Err? then ParseHeader(b).error else ParseSpans(b, HEADER_LENGTH).error
  {
    var header := ParseHeader(b);
    if header.Err? {
      return Failed(header.error);
    }
    var attributes: seq<AttrSpan> := [];
    var pos := HEADER_LENGTH;
    assert ParseSpans(b, pos).Ok? ==> attributes + ParseSpans(b, pos).value == ParseSpans(b, pos).value;
    while pos < |b|
      invariant HEADER_LENGTH <= pos <= |b|
      invariant ParseSpans(b, HEADER_LENGTH) == Prepend(attributes, ParseSpans(b, pos))
    {
      var span := SpanAt(b, pos);
      if span.Err? {
        return Failed(span.error);
      }
      PrependOne(attributes, span.value, ParseSpans(b, span.value.paddingEnd));
      attributes := attributes + [span.value];
      pos := span.value.paddingEnd;
    }
    ParsedTiles(b, HEADER_LENGTH);
    assert attributes + [] == attributes;
    var message := new Message(b, header.value, attributes);
    r := Parsed(message);
  }

  ghost function Prepend(spans: seq<AttrSpan>, rest: Result<seq<AttrSpan>>): (r: Result<seq<AttrSpan>>) {
    match rest
    case Err(e) => Err(e)
    case Ok(value) => Ok(spans + value)
  }

  lemma PrependOne(spans: seq<AttrSpan>, span: AttrSpan, rest: Result<seq<AttrSpan>>)
    ensures Prepend(spans + [span], rest) == Prepend(spans, Prepend([span], rest))
  {
    if rest.Ok? {
      assert spans + [span] + rest.value == spans + ([span] + rest.value);
    }
  }

  // ---------- attributes laid end to end ----------

  /** A whole attribute: type, length, that many bytes, and padding. */
  ghost predicate IsAttribute(segment: Bytes, typ: U16, len: nat) {
    && |segment| == ATTRIBUTE_HEADER_LENGTH + len + Padding(len)
    && U16At(segment, 0) == typ && U16At(segment, 2) == len
  }

  /** The span of an attribute that starts at `pos`. */
  function SpanFor(pos: nat, typ: U16, len: nat): (r: AttrSpan) {
    AttrSpan(pos + 4, pos + 4 + len, pos + 4 + len + Padding(len), typ)
  }

  lemma AttributeParsed(b: Bytes, pos: nat, to: nat, typ: U16, len: nat)
    requires LaidOut(b, pos, to, typ, len)
    ensures SpanAt(b, pos) == Ok(SpanFor(pos, typ, len)) && SpanFor(pos, typ, len).paddingEnd == to
  {
    var segment := b[pos..to];
    assert forall k :: 0 <= k < 4 ==> b[pos + k] == segment[k];
    assert b[pos] == segment[0] && b[pos + 1] == segment[1] && b[pos + 2] == segment[2] && b[pos + 3] == segment[3];
  }

  /** Where attribute i starts, its type and its length, for a run of attributes that fills `b` up to its end. */
  ghost predicate Layout(b: Bytes, starts: seq<nat>, types: seq<U16>, lengths: seq<nat>) {
    && |types| == |lengths| && |starts| == |types| + 1 && starts[|types|] == |b|
    && forall i :: 0 <= i < |types| ==> LaidOut(b, starts[i], starts[i + 1], types[i], lengths[i])
  }

  ghost predicate LaidOut(b: Bytes, from: nat, to: nat, typ: U16, len: nat) {
    from <= to <= |b| && IsAttribute(b[from..to], typ, len)
  }

  function SpansFrom(starts: seq<nat>, types: seq<U16>, lengths: seq<nat>, i: nat): (r: seq<AttrSpan>)
    requires i <= |types| == |lengths| <= |starts|
    ensures |r| == |types| - i
    decreases |types| - i
  {
    if i == |types| then []
    else [SpanFor(starts[i], types[i], lengths[i])] + SpansFrom(starts, types, lengths, i + 1)
  }

  lemma {:induction false} SpansFromAt(starts: seq<nat>, types: seq<U16>, lengths: seq<nat>, i: nat, k: nat)
    requires i <= k < |types| == |lengths| <= |starts|
    ensures SpansFrom(starts, types, lengths, i)[k - i] == SpanFor(starts[k], types[k], lengths[k])
    decreases k - i
  {
    if i < k {
      SpansFromAt(starts, types, lengths, i + 1, k);
    }
  }

  lemma {:induction false} LayoutParsed(b: Bytes, starts: seq<nat>, types: seq<U16>, lengths: seq<nat>, i: nat)
    requires Layout(b, starts, types, lengths) && i <= |types|
    ensures starts[i] <= |b| && ParseSpans(b, starts[i]) == Ok(SpansFrom(starts, types, lengths, i))
    decreases |types| - i
  {
    if i < |types| {
      AttributeParsed(b, starts[i], starts[i + 1], types[i], lengths[i]);
      LayoutParsed(b, starts, types, lengths, i + 1);
    }
  }

  // ---------- a growing buffer ----------

  /** Each buffer extends the one before, but for the length field. */
  ghost predicate Grows(bs: seq<Bytes>) {
    && (forall k :: 0 <= k < |bs| ==> |bs[k]| >= HEADER_LENGTH)
    && forall k :: 0 < k < |bs| ==> Extends(bs[k - 1], bs[k])
  }

  ghost predicate Extends(b: Bytes, r: Bytes)
    requires |b| >= HEADER_LENGTH
  {
    |b| <= |r| && r[4..|b|] == b[4..] && r[..2] == b[..2]
  }

  lemma {:induction false} GrowsFar(bs: seq<Bytes>, i: nat, n: nat)
    requires Grows(bs) && i <= n < |bs|
    ensures Extends(bs[i], bs[n])
    decreases n
  {
    if i == n {
      assert bs[i][4..|bs[i]|] == bs[i][4..];
    } else {
      GrowsFar(bs, i, n - 1);
      ExtendsTwice(bs[i], bs[n - 1], bs[n]);
    }
  }

  lemma ExtendsTwice(a: Bytes, b: Bytes, c: Bytes)
    requires |a| >= HEADER_LENGTH && |b| >= HEADER_LENGTH && Extends(a, b) && Extends(b, c)
    ensures Extends(a, c)
  {
    assert c[4..|a|] == c[4..|b|][..|a| - 4] == b[4..|a|];
  }
}
