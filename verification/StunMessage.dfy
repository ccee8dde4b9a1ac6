/**
 STUN messages (RFC 8489, section 5): the builder that patches the header length in place while it
 signs, and the parser that patches it again to verify.

 The keyed hash is an arbitrary function of the message bytes, cut or filled to its output size.
 */
module StunMessage {
  import opened Bytes
  import Crc32
  import opened Wrappers

  const HEADER_LENGTH: nat := 20

  const ATTRIBUTE_HEADER_LENGTH: nat := 4

  const COOKIE: Bytes := [0x21, 0x12, 0xA4, 0x42]

  const MAX_LENGTH: nat := 0xFFFF

  type U16 = x: nat | x <= 0xFFFF

  const INTEGRITY_TYPE: U16 := 0x0008

  const INTEGRITY_SHA256_TYPE: U16 := 0x001C

  const FINGERPRINT_TYPE: U16 := 0x8028

  // ---------- header ----------

  datatype Class = Request | Indication | Success | Error

  datatype Method = Binding | Allocate | Refresh | Send | Data | CreatePermission | ChannelBind

  function MethodBits(m: Method): (r: nat) {
    match m
    case Binding => 0x1
    case Allocate => 0x3
    case Refresh => 0x4
    case Send => 0x6
    case Data => 0x7
    case CreatePermission => 0x8
    case ChannelBind => 0x9
  }

  /** Class bits are bit 4 and bit 8 of the 14-bit message type. */
  function ClassBits(c: Class): (r: nat) {
    match c
    case Request => 0x000
    case Indication => 0x010
    case Success => 0x100
    case Error => 0x110
  }

  function ClassOf(typ: nat): (r: Class) {
    match (typ / 256 % 2, typ / 16 % 2)
    case (0, 0) => Request
    case (0, _) => Indication
    case (_, 0) => Success
    case (_, _) => Error
  }

  /** The method named by the bits of the type that are not class bits, if there is one. */
  function MethodOf(typ: nat): (r: Option<Method>) {
    var bits := typ - 256 * (typ / 256 % 2) - 16 * (typ / 16 % 2);
    if bits == 0x1 then Some(Binding)
    else if bits == 0x3 then Some(Allocate)
    else if bits == 0x4 then Some(Refresh)
    else if bits == 0x6 then Some(Send)
    else if bits == 0x7 then Some(Data)
    else if bits == 0x8 then Some(CreatePermission)
    else if bits == 0x9 then Some(ChannelBind)
    else None
  }

  /** The 32-bit head: two bytes of message type, whose two upper bits are zero, and a 16-bit length. */
  datatype Head = Head(high: Byte, low: Byte, len: nat) {
    function ToBytes(): (r: Bytes)
      ensures |r| == 4
    {
      [high, low] + U16Bytes(len)
    }

    function ZeroBits(): (r: nat) {
      (high as int) / 64
    }

    function Type(): (r: nat) {
      256 * ((high as int) % 64) + (low as int)
    }
  }

  function HeadAt(b: Bytes): (h: Head)
    requires |b| >= 4
    ensures h.len <= MAX_LENGTH && h.ToBytes() == b[..4]
  {
    Head(b[0], b[1], U16At(b, 2))
  }

  /** The buffer with the length field overwritten. */
  function PatchLen(b: Bytes, len: nat): (r: Bytes)
    requires |b| >= HEADER_LENGTH
    ensures |r| == |b| && r[4..] == b[4..] && r[..2] == b[..2]
  {
    b[..2] + U16Bytes(len) + b[4..]
  }

  // ---------- attributes ----------

  /** Bytes missing to the next multiple of four. */
  function Padding(n: nat): (r: nat)
    ensures r < 4 && (n + r) % 4 == 0
  {
    match n % 4
    case 0 => 0
    case 1 => 3
    case 2 => 2
    case _ => 1
  }

  /** Exactly `size` bytes: cut or filled with zeros. */
  function Fit(d: Bytes, size: nat): (r: Bytes)
    ensures |r| == size
    decreases size, d
  {
    if size == 0 then [] else Fit(d, size - 1) + [if size <= |d| then d[size - 1] else 0]
  }

  /**
   What a caller adds to a builder: a plain attribute, or one whose value is computed from all bytes
   before it (MESSAGE-INTEGRITY, MESSAGE-INTEGRITY-SHA256 and FINGERPRINT).
   */
  datatype Item = Plain(typ: U16, value: Bytes) | Seal(typ: U16, size: nat, seal: Bytes -> Bytes) {
    function Length(): (r: nat) {
      if Plain? then |value| else size
    }

    function WireLength(): (r: nat) {
      ATTRIBUTE_HEADER_LENGTH + Length() + Padding(Length())
    }

    /** A seal has no padding, so its end is the end of its value. */
    ghost predicate Valid() {
      Seal? ==> Padding(size) == 0
    }
  }

  function MessageIntegrity(mac: Bytes -> Bytes): (r: Item) {
    Seal(INTEGRITY_TYPE, 20, mac)
  }

  function Fingerprint(): (r: Item) {
    Seal(FINGERPRINT_TYPE, 4, Crc32.FingerprintValue)
  }

  // ---------- the bytes of a message ----------

  /** Type and length; the length counts the padding if the builder was told so. */
  function ItemHeader(padded: bool, item: Item): (r: Bytes)
    ensures |r| == ATTRIBUTE_HEADER_LENGTH
  {
    U16Bytes(item.typ) + U16Bytes(if padded then item.Length() + Padding(item.Length()) else item.Length())
  }

  /** The bytes an item covers: a seal sees the length field set to its own end. */
  function Covered(b: Bytes, item: Item): (r: Bytes)
    requires |b| >= HEADER_LENGTH
    ensures |r| == |b| && r[4..] == b[4..] && r[..2] == b[..2]
  {
    if item.Plain? then b else PatchLen(b, |b| + ATTRIBUTE_HEADER_LENGTH + item.size - HEADER_LENGTH)
  }

  /** The value an item writes behind the bytes it covers. */
  function ItemValue(covered: Bytes, item: Item): (r: Bytes)
    ensures |r| == item.Length()
  {
    if item.Plain? then item.value else Fit(item.seal(covered), item.size)
  }

  /** The buffer after adding one item: what it covers, type and length, value and padding. */
  function AddItem(padded: bool, b: Bytes, item: Item): (r: Bytes)
    requires |b| >= HEADER_LENGTH
    ensures |r| == |b| + item.WireLength()
  {
    var covered := Covered(b, item);
    covered + ItemHeader(padded, item) + ItemValue(covered, item) + Zeros(Padding(item.Length()))
  }

  /** Adding an item leaves every byte but the length field alone. */
  lemma AddItemKeeps(padded: bool, b: Bytes, item: Item)
    requires |b| >= HEADER_LENGTH
    ensures var r := AddItem(padded, b, item);
            r[4..|b|] == b[4..] && r[..2] == b[..2] && r[4..HEADER_LENGTH] == b[4..HEADER_LENGTH]
  {
    var c := Covered(b, item);
    var r := AddItem(padded, b, item);
    assert r[..|b|] == c;
    assert r[4..|b|] == c[4..];
    assert r[4..HEADER_LENGTH] == c[4..][..16] == b[4..][..16];
    assert r[..2] == c[..2];
  }

  function FirstHead(c: Class, m: Method): (r: Head) {
    var typ := MethodBits(m) + ClassBits(c);
    Head(typ / 256, typ % 256, 0)
  }

  /** The header of a fresh builder: head, cookie and transaction id. */
  function HeaderBytes(head: Head, tid: Bytes): (r: Bytes)
    requires |tid| == 12
    ensures |r| == HEADER_LENGTH && r[..4] == head.ToBytes() && r[4..8] == COOKIE && r[8..] == tid
  {
    head.ToBytes() + COOKIE + tid
  }

  /** The bytes the first n items take. */
  function WireLengths(items: seq<Item>, n: nat): (r: nat)
    requires n <= |items|
  {
    if n == 0 then 0 else WireLengths(items, n - 1) + items[n - 1].WireLength()
  }

  /** The buffer after adding the first n items. */
  function Buffer(padded: bool, header: Bytes, items: seq<Item>, n: nat): (r: Bytes)
    requires |header| == HEADER_LENGTH && n <= |items|
    ensures |r| == HEADER_LENGTH + WireLengths(items, n)
  {
    if n == 0 then header else AddItem(padded, Buffer(padded, header, items, n - 1), items[n - 1])
  }

  /** The finished message. */
  function Finished(padded: bool, header: Bytes, items: seq<Item>): (r: Bytes)
    requires |header| == HEADER_LENGTH
    ensures |r| == HEADER_LENGTH + WireLengths(items, |items|)
  {
    PatchLen(Buffer(padded, header, items, |items|), WireLengths(items, |items|))
  }

  lemma {:induction false} LengthsMonotone(items: seq<Item>, i: nat, n: nat)
    requires i <= n <= |items|
    ensures WireLengths(items, i) <= WireLengths(items, n)
    decreases n
  {
    if i < n {
      LengthsMonotone(items, i, n - 1);
    }
  }

  lemma KeepsPrefix(b: Bytes, tail: Bytes)
    requires |b| >= 4
    ensures (b + tail)[..4] == b[..4]
  {
  }

  /** Patching the length does not care what follows. */
  lemma PatchPrefix(b: Bytes, tail: Bytes, len: nat)
    requires |b| >= HEADER_LENGTH
    ensures PatchLen(b + tail, len) == PatchLen(b, len) + tail
    ensures PatchLen(b + tail, len)[..|b|] == PatchLen(b, len)
  {
  }

  // ---------- the builder ----------

  class MessageBuilder {
    var head: Head
    const transactionId: Bytes
    var paddingInValueLen: bool
    var buffer: Bytes

    ghost predicate Valid()
      reads this
    {
      && |transactionId| == 12
      && |buffer| >= HEADER_LENGTH
      && buffer[..4] == head.ToBytes()
    }

    constructor (c: Class, m: Method, tid: Bytes)
      requires |tid| == 12
      ensures Valid() && !paddingInValueLen && transactionId == tid
      ensures buffer == HeaderBytes(FirstHead(c, m), tid)
    {
      head := FirstHead(c, m);
      transactionId := tid;
      paddingInValueLen := false;
      buffer := HeaderBytes(FirstHead(c, m), tid);
    }

    method PaddingInValueLen(b: bool)
      requires Valid()
      modifies this`paddingInValueLen
      ensures Valid() && paddingInValueLen == b
    {
      paddingInValueLen := b;
    }

    /** Rewrites the first four bytes from the head. */
    method SetLen(len: nat)
      requires Valid() && len <= MAX_LENGTH
      modifies this`head, this`buffer
      ensures Valid() && buffer == PatchLen(old(buffer), len)
    {
      head := head.(len := len);
      var bytes := head.ToBytes();
      buffer := buffer[0 := bytes[0]][1 := bytes[1]][2 := bytes[2]][3 := bytes[3]];
      assert buffer[..4] == bytes;
      assert old(buffer)[..2] == old(buffer)[..4][..2] == bytes[..2];
      assert buffer == PatchLen(old(buffer), len);
    }

    /** Writes type and length, lets the attribute write its value, and pads. */
    method AddAttribute(item: Item)
      requires Valid() && item.Valid() && |buffer| + item.WireLength() <= HEADER_LENGTH + MAX_LENGTH
      modifies this`head, this`buffer
      ensures Valid() && buffer == AddItem(paddingInValueLen, old(buffer), item)
    {
      ghost var before := buffer;
      var header := ItemHeader(paddingInValueLen, item);
      KeepsPrefix(buffer, header);
      buffer := buffer + header;
      if item.Plain? {
        KeepsPrefix(buffer, item.value);
        buffer := buffer + item.value;
      } else {
        EncodeSeal(item, before, header);
      }
      var padding := Zeros(Padding(item.Length()));
      KeepsPrefix(buffer, padding);
      buffer := buffer + padding;
    }

    /** The type and length of the attribute are in the buffer already and are not covered. */
    method EncodeSeal(item: Item, ghost before: Bytes, ghost header: Bytes)
      requires Valid() && |before| >= HEADER_LENGTH && |header| == 4 && buffer == before + header
      requires item.Seal? && |buffer| + item.size <= HEADER_LENGTH + MAX_LENGTH
      modifies this`head, this`buffer
      ensures Valid()
      ensures var covered := Covered(before, item); buffer == covered + header + ItemValue(covered, item)
    {
      SetLen(|buffer| + item.size - HEADER_LENGTH);
      var data := buffer[..|buffer| - ATTRIBUTE_HEADER_LENGTH];
      PatchPrefix(before, header, |before| + 4 + item.size - HEADER_LENGTH);
      var value := Fit(item.seal(data), item.size);
      KeepsPrefix(buffer, value);
      buffer := buffer + value;
    }

    method Finish() returns (r: Bytes)
      requires Valid() && |buffer| <= HEADER_LENGTH + MAX_LENGTH
      modifies this`head, this`buffer
      ensures Valid() && r == buffer == PatchLen(old(buffer), |old(buffer)| - HEADER_LENGTH)
    {
      SetLen(|buffer| - HEADER_LENGTH);
      r := buffer;
    }
  }

  /** One call after the other: the first n attributes. */
  method AddFirst(builder: MessageBuilder, items: seq<Item>, n: nat)
    requires n <= |items| && builder.Valid() && |builder.buffer| == HEADER_LENGTH
    requires WireLengths(items, n) <= MAX_LENGTH && forall item :: item in items ==> item.Valid()
    modifies builder`head, builder`buffer
    ensures builder.Valid()
    ensures builder.buffer == Buffer(builder.paddingInValueLen, old(builder.buffer), items, n)
  {
    if n > 0 {
      AddFirst(builder, items, n - 1);
      builder.AddAttribute(items[n - 1]);
    }
  }

  /** The way messages are made: a fresh builder, all attributes, the finished bytes. */
  method Build(c: Class, m: Method, tid: Bytes, padded: bool, items: seq<Item>) returns (r: Bytes)
    requires |tid| == 12 && WireLengths(items, |items|) <= MAX_LENGTH && forall item :: item in items ==> item.Valid()
    ensures r == Finished(padded, HeaderBytes(FirstHead(c, m), tid), items)
  {
    hide Buffer, PatchLen, HeaderBytes;
    var builder := new MessageBuilder(c, m, tid);
    builder.PaddingInValueLen(padded);
    AddFirst(builder, items, |items|);
    r := builder.Finish();
  }
}
