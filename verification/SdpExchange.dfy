/**
 What an SDP session does with an offer (RFC 3264, section 6): match, add, reject and remove media, count
 the use of local media, and keep the transports that are needed.

 Whether a transport for an m-line can be created is a part of the m-line.
 */
module SdpExchange {

  import opened Wrappers

  datatype Flow = Flow(send: bool, recv: bool) {
    function Flipped(): (r: Flow) {
      Flow(recv, send)
    }
  }

  datatype RtpMap = RtpMap(payload: nat, encoding: string, clockRate: nat)

  datatype Codec = Codec(name: string, clockRate: nat, pt: nat, isStatic: bool)

  datatype LocalMedia = LocalMedia(mediaType: string, codecs: seq<Codec>, limit: nat, flow: Flow, useCount: nat)

  /** What becomes of a transport for an m-line that is not bundled. */
  datatype Creation = Creates(kind: nat, remotePort: nat) | Unsupported | Fails

  datatype MediaLine = MediaLine(mediaType: string, mid: Option<string>, port: nat, flow: Flow, fmts: seq<nat>,
                                 rtpmaps: seq<RtpMap>, creation: Creation)

  datatype Group = Group(isBundle: bool, mids: seq<string>)

  datatype Offer = Offer(lines: seq<MediaLine>, groups: seq<Group>)

  datatype Transport = Built(kind: nat, remotePort: nat) | Builder(kind: nat)

  datatype Active = Active(id: nat, local: nat, mediaType: string, mid: Option<string>, flow: Flow, transport: nat, pt: nat)

  datatype Pending =
    | AddMedia(id: nat, local: nat, standalone: Option<nat>, bundle: nat)
    | RemoveMedia(id: nat)
    | ChangeFlow(id: nat, flow: Flow)

  datatype Event =
    | MediaAdded(id: nat, transport: nat, local: nat, flow: Flow, pt: nat)
    | MediaChanged(id: nat, from: Flow, to: Flow)
    | MediaRemoved(id: nat)

  /** Ids of transports and local media are indices; a removed transport leaves None. removals are all that were reported. */
  datatype Session = Session(nextId: nat, nextPt: nat, locals: seq<LocalMedia>, media: seq<Active>, transports: seq<Option<Transport>>,
                             pending: seq<Pending>, removals: seq<nat>, events: seq<Event>)

  datatype Entry = Accepted(id: nat) | Rejected(mediaType: string, mid: Option<string>)

  /** An offer half processed: the media of the new state so far, those still in the old one, and the answer so far. */
  datatype Work = Work(s: Session, made: seq<Active>, response: seq<Entry>)

  datatype Outcome = Next(work: Work) | Broken(work: Work)

  // ---------- choosing local media ----------

  function FindRtpMap(maps: seq<RtpMap>, c: Codec, i: nat): (r: Option<nat>)
    requires i <= |maps|
    decreases |maps| - i
  {
    if i == |maps| then None
    else if maps[i].encoding == c.name && maps[i].clockRate == c.clockRate then Some(maps[i].payload)
    else FindRtpMap(maps, c, i + 1)
  }

  /** The payload type the offer has for a codec. */
  function PayloadFor(c: Codec, line: MediaLine): (r: Option<nat>) {
    if c.isStatic then (if c.pt in line.fmts then Some(c.pt) else None) else FindRtpMap(line.rtpmaps, c, 0)
  }

  function FlowFor(local: LocalMedia, line: MediaLine): (r: Flow) {
    Flow(line.flow.Flipped().send && local.flow.send, line.flow.Flipped().recv && local.flow.recv)
  }

  /** The first codec that the offer has decides; without any direction left there is no choice. */
  function ChooseCodec(local: LocalMedia, line: MediaLine, i: nat): (r: Option<nat>)
    requires i <= |local.codecs|
    decreases |local.codecs| - i
  {
    if i == |local.codecs| then None
    else
      var pt := PayloadFor(local.codecs[i], line);
      if pt.None? then ChooseCodec(local, line, i + 1)
      else if FlowFor(local, line) == Flow(false, false) then None
      else pt
  }

  /** What is chosen is the first codec that both sides have, with the payload type of the offer. */
  lemma {:induction false} CodecIsShared(local: LocalMedia, line: MediaLine, i: nat, pt: nat)
    requires i <= |local.codecs| && ChooseCodec(local, line, i) == Some(pt)
    ensures FlowFor(local, line) != Flow(false, false)
    ensures exists k :: i <= k < |local.codecs| && IsFirstShared(local.codecs, line, i, k) && PayloadFor(local.codecs[k], line) == Some(pt)
    decreases |local.codecs| - i
  {
    if PayloadFor(local.codecs[i], line).None? {
      CodecIsShared(local, line, i + 1, pt);
      var k :| i + 1 <= k < |local.codecs| && IsFirstShared(local.codecs, line, i + 1, k) && PayloadFor(local.codecs[k], line) == Some(pt);
      assert IsFirstShared(local.codecs, line, i, k);
    } else {
      assert IsFirstShared(local.codecs, line, i, i);
    }
  }

  ghost predicate IsFirstShared(codecs: seq<Codec>, line: MediaLine, i: nat, k: nat)
    requires i <= k <= |codecs|
  {
    forall j :: i <= j < k ==> PayloadFor(codecs[j], line).None?
  }

  /** The payload type is one that the offer gives this very codec. */
  lemma {:induction false} PayloadIsOffered(c: Codec, line: MediaLine, pt: nat)
    requires PayloadFor(c, line) == Some(pt)
    ensures if c.isStatic then pt == c.pt && pt in line.fmts else RtpMap(pt, c.name, c.clockRate) in line.rtpmaps
  {
    if !c.isStatic {
      FoundRtpMap(line.rtpmaps, c, 0, pt);
    }
  }

  lemma {:induction false} FoundRtpMap(maps: seq<RtpMap>, c: Codec, i: nat, pt: nat)
    requires i <= |maps| && FindRtpMap(maps, c, i) == Some(pt)
    ensures RtpMap(pt, c.name, c.clockRate) in maps
    decreases |maps| - i
  {
    if !(maps[i].encoding == c.name && maps[i].clockRate == c.clockRate) {
      FoundRtpMap(maps, c, i + 1, pt);
    } else {
      assert maps[i] == RtpMap(pt, c.name, c.clockRate);
    }
  }

  function MaybeUse(local: LocalMedia, line: MediaLine): (r: Option<nat>) {
    if local.limit == local.useCount || local.mediaType != line.mediaType then None else ChooseCodec(local, line, 0)
  }

  /** The first local media that can serve the m-line. */
  function ChooseLocal(locals: seq<LocalMedia>, line: MediaLine, i: nat): (k: nat)
    requires i <= |locals|
    ensures i <= k <= |locals| && (k < |locals| ==> MaybeUse(locals[k], line).Some?)
    ensures forall j :: i <= j < k ==> MaybeUse(locals[j], line).None?
    decreases |locals| - i
  {
    if i == |locals| || MaybeUse(locals[i], line).Some? then i else ChooseLocal(locals, line, i + 1)
  }

  // ---------- matching and transports ----------

  predicate IsBuilt(ts: seq<Option<Transport>>, id: nat) {
    id < |ts| && ts[id].Some? && ts[id].value.Built?
  }

  predicate Matches(m: Active, ts: seq<Option<Transport>>, line: MediaLine) {
    && m.mediaType == line.mediaType
    && if m.mid.Some? && line.mid.Some? then m.mid == line.mid
       else IsBuilt(ts, m.transport) && ts[m.transport].value.remotePort == line.port
  }

  function FindMatch(ms: seq<Active>, ts: seq<Option<Transport>>, line: MediaLine, i: nat): (k: nat)
    requires i <= |ms|
    ensures i <= k <= |ms| && (k < |ms| ==> Matches(ms[k], ts, line)) && forall j :: i <= j < k ==> !Matches(ms[j], ts, line)
    decreases |ms| - i
  {
    if i == |ms| || Matches(ms[i], ts, line) then i else FindMatch(ms, ts, line, i + 1)
  }

  function FindGroup(groups: seq<Group>, mid: string, i: nat): (k: nat)
    requires i <= |groups|
    ensures i <= k <= |groups| && (k < |groups| ==> groups[k].isBundle && mid in groups[k].mids)
    decreases |groups| - i
  {
    if i == |groups| || (groups[i].isBundle && mid in groups[i].mids) then i else FindGroup(groups, mid, i + 1)
  }

  function FindMember(ms: seq<Active>, mids: seq<string>, i: nat): (k: nat)
    requires i <= |ms|
    ensures i <= k <= |ms| && (k < |ms| ==> ms[k].mid.Some? && ms[k].mid.value in mids)
    decreases |ms| - i
  {
    if i == |ms| || (ms[i].mid.Some? && ms[i].mid.value in mids) then i else FindMember(ms, mids, i + 1)
  }

  /** The transport of the first media, new before old, that the offer bundles with this m-line. */
  function FindBundled(w: Work, groups: seq<Group>, mid: Option<string>): (t: Option<nat>)
    ensures t.Some? ==> exists m :: m in w.made + w.s.media && m.transport == t.value
  {
    if mid.None? then None
    else
      var g := FindGroup(groups, mid.value, 0);
      if g == |groups| then None
      else
        var all := w.made + w.s.media;
        var k := FindMember(all, groups[g].mids, 0);
        if k < |all| then assert all[k] in all; Some(all[k].transport) else None
  }

  // ---------- one m-line ----------

  function Without(ms: seq<Active>, k: nat): (r: seq<Active>)
    requires k < |ms|
  {
    ms[..k] + ms[k + 1..]
  }

  /** A matched media moves to the new state, with its direction updated. */
  function Keep(w: Work, line: MediaLine, k: nat): (r: Work)
    requires k < |w.s.media|
  {
    var m, flow := w.s.media[k], line.flow.Flipped();
    var events := if m.flow != flow then w.s.events + [MediaChanged(m.id, m.flow, flow)] else w.s.events;
    Work(w.s.(media := Without(w.s.media, k), events := events), w.made + [m.(flow := flow)], w.response + [Accepted(m.id)])
  }

  function Reject(w: Work, line: MediaLine): (r: Work) {
    w.(response := w.response + [Rejected(line.mediaType, line.mid)])
  }

  function Add(w: Work, line: MediaLine, l: nat, pt: nat, transport: nat): (r: Work)
    requires l < |w.s.locals| && w.s.nextId > 0
  {
    var flow := FlowFor(w.s.locals[l], line);
    var m := Active(w.s.nextId - 1, l, line.mediaType, line.mid, flow, transport, pt);
    Work(w.s.(events := w.s.events + [MediaAdded(m.id, transport, l, flow, pt)]), w.made + [m], w.response + [Accepted(m.id)])
  }

  /** The local media is used once more, and a media id is spent, before the transport is known. */
  function Reserve(w: Work, l: nat): (r: Work)
    requires l < |w.s.locals|
  {
    var local := w.s.locals[l];
    w.(s := w.s.(nextId := w.s.nextId + 1, locals := w.s.locals[l := local.(useCount := local.useCount + 1)]))
  }

  function WithTransport(w: Work, t: Transport): (r: Work) {
    w.(s := w.s.(transports := w.s.transports + [Some(t)]))
  }

  function AddOrReject(w: Work, groups: seq<Group>, line: MediaLine, l: nat, pt: nat): (r: Outcome)
    requires l < |w.s.locals| && w.s.nextId > 0
  {
    var bundled := FindBundled(w, groups, line.mid);
    if bundled.Some? then Next(Add(w, line, l, pt, bundled.value))
    else match line.creation
      case Creates(kind, port) => Next(Add(WithTransport(w, Built(kind, port)), line, l, pt, |w.s.transports|))
      case Unsupported => Next(Reject(w, line))
      case Fails => Broken(w)
  }

  function ProcessLine(w: Work, groups: seq<Group>, line: MediaLine): (r: Outcome) {
    var k := FindMatch(w.s.media, w.s.transports, line, 0);
    if k < |w.s.media| then Next(Keep(w, line, k))
    else
      var l := ChooseLocal(w.s.locals, line, 0);
      if l == |w.s.locals| then Next(Reject(w, line))
      else AddOrReject(Reserve(w, l), groups, line, l, MaybeUse(w.s.locals[l], line).value)
  }

  function ProcessLines(s: Session, offer: Offer, n: nat): (r: Outcome)
    requires n <= |offer.lines|
  {
    if n == 0 then Next(Work(s, [], []))
    else
      var o := ProcessLines(s, offer, n - 1);
      if o.Broken? then o else ProcessLine(o.work, offer.groups, offer.lines[n - 1])
  }

  // ---------- the end of an offer ----------

  /** How many of the first n media use a local media. */
  function Uses(ms: seq<Active>, l: nat, n: nat): (r: nat)
    requires n <= |ms|
  {
    if n == 0 then 0 else Uses(ms, l, n - 1) + if ms[n - 1].local == l then 1 else 0
  }

  predicate Covers(locals: seq<LocalMedia>, ms: seq<Active>, n: nat)
    requires n <= |ms|
  {
    && (forall i :: 0 <= i < n ==> ms[i].local < |locals|)
    && (forall l :: 0 <= l < |locals| ==> Uses(ms, l, n) <= locals[l].useCount)
  }

  /** Each removed media gives back its use; the count cannot underflow while it covers them. */
  function Released(locals: seq<LocalMedia>, ms: seq<Active>, n: nat): (r: seq<LocalMedia>)
    requires n <= |ms| && Covers(locals, ms, n)
    ensures |r| == |locals|
    ensures forall l :: 0 <= l < |r| ==> r[l] == locals[l].(useCount := locals[l].useCount - Uses(ms, l, n))
  {
    if n == 0 then locals
    else
      assert forall l :: 0 <= l < |locals| ==> Uses(ms, l, n - 1) <= Uses(ms, l, n);
      var r := Released(locals, ms, n - 1);
      var l := ms[n - 1].local;
      assert Uses(ms, l, n) == Uses(ms, l, n - 1) + 1;
      r[l := r[l].(useCount := r[l].useCount - 1)]
  }

  function RemovedEvents(ms: seq<Active>): (es: seq<Event>)
    ensures |es| == |ms| && forall i :: 0 <= i < |ms| ==> es[i] == MediaRemoved(ms[i].id)
  {
    seq(|ms|, i requires 0 <= i < |ms| => MediaRemoved(ms[i].id))
  }

  /** Some media, or some media that is to be offered, uses the transport. */
  predicate Needed(all: seq<Active>, pending: seq<Pending>, t: nat) {
    || (exists i :: 0 <= i < |all| && all[i].transport == t)
    || (exists i :: 0 <= i < |pending| && pending[i].AddMedia? && (pending[i].bundle == t || pending[i].standalone == Some(t)))
  }

  predicate InUse(s: Session, t: nat) {
    Needed(s.media, s.pending, t)
  }

  /** The session after the first n transports have been looked at. */
  function Cleaned(s: Session, n: nat): (r: Session)
    requires n <= |s.transports|
    ensures r == s.(transports := r.transports, removals := r.removals) && |r.transports| == |s.transports|
    ensures forall t :: 0 <= t < |s.transports| ==> r.transports[t] == if t < n && !InUse(s, t) then None else s.transports[t]
  {
    if n == 0 then s
    else
      var r := Cleaned(s, n - 1);
      if s.transports[n - 1].None? || InUse(s, n - 1) then r
      else r.(transports := r.transports[n - 1 := None], removals := r.removals + [n - 1])
  }

  function RemoveUnused(s: Session): (r: Session) {
    Cleaned(s, |s.transports|)
  }

  function Finish(w: Work): (r: Session)
    requires Covers(w.s.locals, w.s.media, |w.s.media|)
  {
    var s := w.s.(locals := Released(w.s.locals, w.s.media, |w.s.media|), events := w.s.events + RemovedEvents(w.s.media), media := w.made);
    RemoveUnused(s)
  }

  // ---------- the invariant ----------

  predicate HasId(ms: seq<Active>, id: nat) {
    exists i :: 0 <= i < |ms| && ms[i].id == id
  }

  ghost predicate Distinct(ms: seq<Active>) {
    forall i, j :: 0 <= i < j < |ms| ==> ms[i].id != ms[j].id
  }

  predicate Added(es: seq<Event>, id: nat) {
    exists i :: 0 <= i < |es| && es[i].MediaAdded? && es[i].id == id
  }

  predicate Removed(es: seq<Event>, id: nat) {
    exists i :: 0 <= i < |es| && es[i].MediaRemoved? && es[i].id == id
  }

  /** Ids are distinct and were handed out, and are those that were announced and not yet removed. */
  ghost predicate IdsInv(nextId: nat, all: seq<Active>, es: seq<Event>) {
    && Distinct(all) && forall id: nat :: IdInv(nextId, all, es, id)
  }

  predicate IdInv(nextId: nat, all: seq<Active>, es: seq<Event>, id: nat) {
    && (HasId(all, id) <==> Added(es, id) && !Removed(es, id))
    && (Removed(es, id) ==> Added(es, id)) && (Added(es, id) ==> id < nextId)
  }

  ghost predicate Grounded(all: seq<Active>, ts: seq<Option<Transport>>) {
    forall i :: 0 <= i < |all| ==> IsBuilt(ts, all[i].transport)
  }

  /** The count of a local media covers its uses, and stays within its limit. */
  ghost predicate Counted(locals: seq<LocalMedia>, all: seq<Active>) {
    Covers(locals, all, |all|) && forall l :: 0 <= l < |locals| ==> locals[l].useCount <= locals[l].limit
  }

  /** A transport is there exactly as long as its removal has not been reported, which happens once. */
  ghost predicate Reported(ts: seq<Option<Transport>>, removals: seq<nat>) {
    && (forall t :: 0 <= t < |ts| ==> (ts[t].None? <==> t in removals))
    && (forall i :: 0 <= i < |removals| ==> removals[i] < |ts|)
    && (forall i, j :: 0 <= i < j < |removals| ==> removals[i] != removals[j])
  }

  ghost predicate AllNeeded(all: seq<Active>, pending: seq<Pending>, ts: seq<Option<Transport>>) {
    forall t :: 0 <= t < |ts| && ts[t].Some? ==> Needed(all, pending, t)
  }

  ghost predicate Inv(s: Session, all: seq<Active>) {
    && IdsInv(s.nextId, all, s.events) && Grounded(all, s.transports) && Counted(s.locals, all)
    && Reported(s.transports, s.removals) && AllNeeded(all, s.pending, s.transports)
  }

  ghost predicate Valid(s: Session) {
    Inv(s, s.media)
  }

  /** The response says, for each m-line, that a media of its type has it, or that it is rejected. */
  ghost predicate Answers(w: Work, lines: seq<MediaLine>, n: nat)
    requires n <= |lines|
  {
    && |w.response| == n
    && forall i :: 0 <= i < n ==> EntryFits(w.made, w.response[i], lines[i])
  }

  /** The media has the type of the m-line, and sends only what the peer receives, and the other way round. */
  predicate Serves(m: Active, line: MediaLine) {
    m.mediaType == line.mediaType && (m.flow.send ==> line.flow.recv) && (m.flow.recv ==> line.flow.send)
  }

  ghost predicate EntryFits(made: seq<Active>, e: Entry, line: MediaLine) {
    match e
    case Accepted(id) => exists k :: 0 <= k < |made| && made[k].id == id && Serves(made[k], line)
    case Rejected(mediaType, mid) => mediaType == line.mediaType && mid == line.mid
  }

  // ---------- ids ----------

  lemma OneMoreEvent(es: seq<Event>, e: Event, id: nat)
    ensures Added(es + [e], id) <==> Added(es, id) || (e.MediaAdded? && e.id == id)
    ensures Removed(es + [e], id) <==> Removed(es, id) || (e.MediaRemoved? && e.id == id)
  {
    var fs := es + [e];
    assert fs[|es|] == e;
    assert forall i :: 0 <= i < |es| ==> fs[i] == es[i];
  }

  lemma AllRemovedEvents(es: seq<Event>, ms: seq<Active>, id: nat)
    ensures Added(es + RemovedEvents(ms), id) <==> Added(es, id)
    ensures Removed(es + RemovedEvents(ms), id) <==> Removed(es, id) || HasId(ms, id)
  {
    var (rs, fs) := (RemovedEvents(ms), es + RemovedEvents(ms));
    assert forall i :: 0 <= i < |es| ==> fs[i] == es[i];
    assert forall i :: |es| <= i < |fs| ==> fs[i] == rs[i - |es|] == MediaRemoved(ms[i - |es|].id);
    if i :| 0 <= i < |ms| && ms[i].id == id {
      assert fs[|es| + i] == rs[i];
    }
  }

  lemma HasIdInBoth(a: seq<Active>, b: seq<Active>, id: nat)
    ensures HasId(a + b, id) <==> HasId(a, id) || HasId(b, id)
  {
    var c := a + b;
    assert forall i :: 0 <= i < |a| ==> c[i] == a[i];
    assert forall i :: |a| <= i < |c| ==> c[i] == b[i - |a|];
    if i :| 0 <= i < |b| && b[i].id == id {
      assert c[|a| + i] == b[i];
    }
  }

  // ---------- uses ----------

  lemma {:induction false} UsesOfBoth(a: seq<Active>, b: seq<Active>, l: nat)
    ensures Uses(a + b, l, |a| + |b|) == Uses(a, l, |a|) + Uses(b, l, |b|)
  {
    UsesOfPrefix(a, a + b, l, |a|);
    UsesOfSuffix(a, b, l, |b|);
  }

  lemma {:induction false} UsesOfPrefix(a: seq<Active>, c: seq<Active>, l: nat, n: nat)
    requires n <= |a| && a <= c
    ensures Uses(c, l, n) == Uses(a, l, n)
  {
    if n > 0 {
      UsesOfPrefix(a, c, l, n - 1);
    }
  }

  lemma {:induction false} UsesOfSuffix(a: seq<Active>, b: seq<Active>, l: nat, n: nat)
    requires n <= |b|
    ensures Uses(a + b, l, |a| + n) == Uses(a + b, l, |a|) + Uses(b, l, n)
  {
    if n > 0 {
      UsesOfSuffix(a, b, l, n - 1);
    }
  }

  lemma UsesOfOne(m: Active, l: nat)
    ensures Uses([m], l, 1) == if m.local == l then 1 else 0
  {
    assert Uses([m], l, 0) == 0;
  }

  // ---------- a media that is matched ----------

  predicate SameMedia(m: Active, n: Active) {
    n == m.(flow := n.flow)
  }

  /** Where an element comes from when the one at q is moved forward to p. */
  function Origin(i: int, p: int, q: int): (r: int) {
    if i == p then q else if p < i <= q then i - 1 else i
  }

  function Target(j: int, p: int, q: int): (r: int) {
    if j == q then p else if p <= j < q then j + 1 else j
  }

  /** The same media, up to directions, with the one at q moved forward to p. */
  ghost predicate Moved(all: seq<Active>, more: seq<Active>, p: nat, q: nat) {
    && p <= q < |all| == |more|
    && (forall i :: 0 <= i < |more| ==> SameMedia(all[Origin(i, p, q)], more[i]))
    && (forall j :: 0 <= j < |all| ==> SameMedia(all[j], more[Target(j, p, q)]))
  }

  lemma MovedFrom(a: seq<Active>, b: seq<Active>, k: nat, m: Active, i: nat)
    requires k < |b| && i < |a| + |b|
    ensures (a + [m] + Without(b, k))[i] == if i == |a| then m else (a + b)[Origin(i, |a|, |a| + k)]
  {
    var j := i - |a| - 1;
    assert i > |a| ==> (a + [m] + Without(b, k))[i] == Without(b, k)[j] == b[if j < k then j else j + 1];
  }

  /** Taking one media out of the old state and putting it, with another direction, at the end of the new one. */
  lemma MovedMedia(a: seq<Active>, b: seq<Active>, k: nat, flow: Flow)
    requires k < |b|
    ensures Moved(a + b, a + [b[k].(flow := flow)] + Without(b, k), |a|, |a| + k)
  {
    var (c, p, q) := (Without(b, k), |a|, |a| + k);
    var (all, more) := (a + b, a + [b[k].(flow := flow)] + c);
    forall i | 0 <= i < |more|
      ensures SameMedia(all[Origin(i, p, q)], more[i])
    {
      MovedFrom(a, b, k, b[k].(flow := flow), i);
    }
    forall j | 0 <= j < |all|
      ensures SameMedia(all[j], more[Target(j, p, q)])
    {
      assert Origin(Target(j, p, q), p, q) == j;
    }
  }

  lemma MovedUses(a: seq<Active>, b: seq<Active>, k: nat, flow: Flow, l: nat)
    requires k < |b|
    ensures var (all, more) := (a + b, a + [b[k].(flow := flow)] + Without(b, k));
            Uses(more, l, |more|) == Uses(all, l, |all|)
  {
    hide Uses;
    var m := b[k].(flow := flow);
    var (x, y) := (b[..k], b[k + 1..]);
    assert b == x + ([b[k]] + y);
    assert a + [m] + Without(b, k) == a + ([m] + (x + y));
    UsesOfBoth(a, b, l);
    UsesOfBoth(x, [b[k]] + y, l);
    UsesOfBoth([b[k]], y, l);
    UsesOfBoth(a, [m] + (x + y), l);
    UsesOfBoth([m], x + y, l);
    UsesOfBoth(x, y, l);
    UsesOfOne(m, l);
    UsesOfOne(b[k], l);
  }

  lemma MovedIds(all: seq<Active>, more: seq<Active>, p: nat, q: nat, nextId: nat, es: seq<Event>, fs: seq<Event>)
    requires Moved(all, more, p, q) && IdsInv(nextId, all, es)
    requires forall id: nat :: Added(fs, id) == Added(es, id) && Removed(fs, id) == Removed(es, id)
    ensures IdsInv(nextId, more, fs)
  {
    hide Added, Removed;
    forall i, j | 0 <= i < j < |more|
      ensures more[i].id != more[j].id
    {
      var (x, y) := (Origin(i, p, q), Origin(j, p, q));
      assert x != y && SameMedia(all[x], more[i]) && SameMedia(all[y], more[j]);
    }
    forall id: nat
      ensures IdInv(nextId, more, fs, id)
    {
      assert IdInv(nextId, all, es, id);
      MovedHasId(all, more, p, q, id);
    }
  }

  lemma MovedHasId(all: seq<Active>, more: seq<Active>, p: nat, q: nat, id: nat)
    requires Moved(all, more, p, q)
    ensures HasId(more, id) <==> HasId(all, id)
  {
    if i :| 0 <= i < |more| && more[i].id == id {
      assert SameMedia(all[Origin(i, p, q)], more[i]);
    }
    if j :| 0 <= j < |all| && all[j].id == id {
      assert SameMedia(all[j], more[Target(j, p, q)]);
    }
  }

  lemma MovedTransports(all: seq<Active>, more: seq<Active>, p: nat, q: nat, pending: seq<Pending>, ts: seq<Option<Transport>>)
    requires Moved(all, more, p, q) && Grounded(all, ts) && AllNeeded(all, pending, ts)
    ensures Grounded(more, ts) && AllNeeded(more, pending, ts)
  {
    forall i | 0 <= i < |more|
      ensures IsBuilt(ts, more[i].transport)
    {
      assert SameMedia(all[Origin(i, p, q)], more[i]);
    }
    forall t | 0 <= t < |ts| && ts[t].Some?
      ensures Needed(more, pending, t)
    {
      assert Needed(all, pending, t);
      if j :| 0 <= j < |all| && all[j].transport == t {
        assert SameMedia(all[j], more[Target(j, p, q)]);
      }
    }
  }

  lemma MovedLocals(all: seq<Active>, more: seq<Active>, p: nat, q: nat, locals: seq<LocalMedia>)
    requires Moved(all, more, p, q) && Counted(locals, all)
    requires forall l: nat :: Uses(more, l, |more|) == Uses(all, l, |all|)
    ensures Counted(locals, more)
  {
    hide Uses;
    forall i | 0 <= i < |more|
      ensures more[i].local < |locals|
    {
      assert SameMedia(all[Origin(i, p, q)], more[i]);
    }
  }

  lemma KeepInv(w: Work, line: MediaLine, k: nat)
    requires Inv(w.s, w.made + w.s.media) && k < |w.s.media|
    ensures Inv(Keep(w, line, k).s, Keep(w, line, k).made + Keep(w, line, k).s.media)
  {
    hide IdsInv, Grounded, AllNeeded, Counted, Reported, Uses, Added, Removed, Moved;
    var m, flow := w.s.media[k], line.flow.Flipped();
    var v := Keep(w, line, k);
    var (all, more) := (w.made + w.s.media, v.made + v.s.media);
    var (p, q) := (|w.made|, |w.made| + k);
    forall id: nat
      ensures Added(v.s.events, id) == Added(w.s.events, id) && Removed(v.s.events, id) == Removed(w.s.events, id)
    {
      OneMoreEvent(w.s.events, MediaChanged(m.id, m.flow, flow), id);
    }
    MovedMedia(w.made, w.s.media, k, flow);
    MovedIds(all, more, p, q, w.s.nextId, w.s.events, v.s.events);
    MovedTransports(all, more, p, q, w.s.pending, w.s.transports);
    forall l: nat
      ensures Uses(more, l, |more|) == Uses(all, l, |all|)
    {
      MovedUses(w.made, w.s.media, k, flow, l);
    }
    MovedLocals(all, more, p, q, w.s.locals);
  }

  // ---------- a media that is added ----------

  /** An id that was handed out but not used yet. */
  ghost predicate Spare(s: Session, all: seq<Active>, l: nat) {
    && s.nextId > 0 && !Added(s.events, s.nextId - 1) && l < |s.locals|
    && Uses(all, l, |all|) < s.locals[l].useCount
  }

  lemma ReserveInv(w: Work, l: nat)
    requires Inv(w.s, w.made + w.s.media) && l < |w.s.locals| && w.s.locals[l].useCount < w.s.locals[l].limit
    ensures var v := Reserve(w, l); Inv(v.s, w.made + v.s.media) && Spare(v.s, w.made + v.s.media, l)
  {
    hide Uses, Added, Removed, HasId, Distinct, Grounded, AllNeeded, Reported;
    var v, all := Reserve(w, l), w.made + w.s.media;
    forall id: nat
      ensures IdInv(v.s.nextId, all, v.s.events, id)
    {
      assert IdInv(w.s.nextId, all, w.s.events, id);
    }
    assert IdInv(w.s.nextId, all, w.s.events, w.s.nextId);
  }

  /** A media with a spare id, at the end of the new state. */
  lemma AddedMedia(a: seq<Active>, b: seq<Active>, m: Active, s: Session, t: Session)
    requires Inv(s, a + b) && Spare(s, a + b, m.local) && m.id == s.nextId - 1
    requires t.transports == s.transports || exists x :: t.transports == s.transports + [Some(x)]
    requires t.transports != s.transports ==> m.transport == |s.transports|
    requires IsBuilt(t.transports, m.transport)
    requires t == s.(transports := t.transports, events := t.events)
    requires forall id: nat :: Added(t.events, id) == (Added(s.events, id) || id == m.id) && Removed(t.events, id) == Removed(s.events, id)
    ensures Inv(t, a + [m] + b)
  {
    hide Uses, IdsInv, Added, Removed;
    var more := a + [m] + b;
    assert IdsInv(t.nextId, more, t.events) by {
      AddedMediaIds(a, b, m, s.nextId, s.events, t.events);
    }
    assert Counted(t.locals, more) by {
      AddedMediaUses(a, b, m, s.locals);
    }
    assert Grounded(more, t.transports) && AllNeeded(more, t.pending, t.transports) by {
      AddedMediaTransport(a, b, m, s, t);
    }
  }

  lemma AddedMediaIds(a: seq<Active>, b: seq<Active>, m: Active, nextId: nat, es: seq<Event>, fs: seq<Event>)
    requires IdsInv(nextId, a + b, es) && nextId > 0 && m.id == nextId - 1 && !Added(es, m.id)
    requires forall id: nat :: Added(fs, id) == (Added(es, id) || id == m.id) && Removed(fs, id) == Removed(es, id)
    ensures IdsInv(nextId, a + [m] + b, fs)
  {
    hide Added, Removed;
    assert IdInv(nextId, a + b, es, m.id);
    forall id: nat
      ensures IdInv(nextId, a + [m] + b, fs, id)
    {
      assert IdInv(nextId, a + b, es, id);
      HasIdInBoth(a, b, id);
      HasIdInBoth(a, [m], id);
      HasIdInBoth(a + [m], b, id);
      assert HasId([m], id) <==> [m][0].id == id;
    }
    InsertedDistinct(a, b, m);
  }

  lemma InsertedDistinct(a: seq<Active>, b: seq<Active>, m: Active)
    requires Distinct(a + b) && !HasId(a + b, m.id)
    ensures Distinct(a + [m] + b)
  {
    var (all, more) := (a + b, a + [m] + b);
    forall i, j | 0 <= i < j < |more|
      ensures more[i].id != more[j].id
    {
      var (x, y) := (if i < |a| then i else i - 1, if j < |a| then j else j - 1);
      assert i != |a| ==> more[i] == all[x];
      assert j != |a| ==> more[j] == all[y];
    }
  }

  lemma AddedMediaUses(a: seq<Active>, b: seq<Active>, m: Active, locals: seq<LocalMedia>)
    requires Counted(locals, a + b) && m.local < |locals| && Uses(a + b, m.local, |a + b|) < locals[m.local].useCount
    ensures Counted(locals, a + [m] + b)
  {
    hide Uses;
    assert a + [m] + b == a + ([m] + b);
    forall l | 0 <= l < |locals|
      ensures Uses(a + [m] + b, l, |a + [m] + b|) <= locals[l].useCount
    {
      UsesOfBoth(a, b, l);
      UsesOfBoth(a, [m] + b, l);
      UsesOfBoth([m], b, l);
      UsesOfOne(m, l);
    }
    forall i | 0 <= i < |a + [m] + b|
      ensures (a + [m] + b)[i].local < |locals|
    {
      assert i < |a| ==> (a + [m] + b)[i] == (a + b)[i];
      assert i > |a| ==> (a + [m] + b)[i] == (a + b)[i - 1];
    }
  }

  lemma AddedMediaTransport(a: seq<Active>, b: seq<Active>, m: Active, s: Session, t: Session)
    requires Grounded(a + b, s.transports) && AllNeeded(a + b, s.pending, s.transports) && t.pending == s.pending
    requires t.transports == s.transports || exists x :: t.transports == s.transports + [Some(x)]
    requires t.transports != s.transports ==> m.transport == |s.transports|
    requires IsBuilt(t.transports, m.transport)
    ensures Grounded(a + [m] + b, t.transports) && AllNeeded(a + [m] + b, t.pending, t.transports)
  {
    var (all, more) := (a + b, a + [m] + b);
    forall i | 0 <= i < |more|
      ensures IsBuilt(t.transports, more[i].transport)
    {
      if i != |a| {
        var j := if i < |a| then i else i - 1;
        assert more[i] == all[j] && IsBuilt(s.transports, all[j].transport);
      }
    }
    forall id | 0 <= id < |t.transports| && t.transports[id].Some?
      ensures Needed(more, t.pending, id)
    {
      assert more[|a|] == m;
      if id < |s.transports| {
        assert Needed(all, s.pending, id);
        if j :| 0 <= j < |all| && all[j].transport == id {
          assert more[if j < |a| then j else j + 1] == all[j];
        }
      }
    }
  }

  lemma AddInv(w: Work, line: MediaLine, l: nat, pt: nat, transport: nat)
    requires Inv(w.s, w.made + w.s.media) && Spare(w.s, w.made + w.s.media, l) && IsBuilt(w.s.transports, transport)
    ensures var v := Add(w, line, l, pt, transport); Inv(v.s, v.made + v.s.media)
  {
    hide Inv, Uses, Added, Removed;
    var v := Add(w, line, l, pt, transport);
    forall id: nat
      ensures Added(v.s.events, id) == (Added(w.s.events, id) || id == w.s.nextId - 1) && Removed(v.s.events, id) == Removed(w.s.events, id)
    {
      OneMoreEvent(w.s.events, v.s.events[|w.s.events|], id);
    }
    AddedMedia(w.made, w.s.media, v.made[|w.made|], w.s, v.s);
  }

  lemma AddWithInv(w: Work, line: MediaLine, l: nat, pt: nat, t: Transport)
    requires Inv(w.s, w.made + w.s.media) && Spare(w.s, w.made + w.s.media, l) && t.Built?
    ensures var v := Add(WithTransport(w, t), line, l, pt, |w.s.transports|);
            Inv(v.s, v.made + v.s.media)
  {
    hide Inv, Uses, Added, Removed;
    var v := Add(WithTransport(w, t), line, l, pt, |w.s.transports|);
    forall id: nat
      ensures Added(v.s.events, id) == (Added(w.s.events, id) || id == w.s.nextId - 1) && Removed(v.s.events, id) == Removed(w.s.events, id)
    {
      OneMoreEvent(w.s.events, v.s.events[|w.s.events|], id);
    }
    AddedMedia(w.made, w.s.media, v.made[|w.made|], w.s, v.s);
  }

  lemma CoversMore(locals: seq<LocalMedia>, ms: seq<Active>, i: nat)
    requires i < |ms| && Covers(locals, ms, |ms|)
    ensures Covers(locals, ms, i) && Covers(locals, ms, i + 1)
  {
    forall l | 0 <= l < |locals|
      ensures Uses(ms, l, i) <= Uses(ms, l, i + 1) <= locals[l].useCount
    {
      UsesGrow(ms, l, i + 1, |ms|);
    }
  }

  lemma ReleaseNone(locals: seq<LocalMedia>, ms: seq<Active>)
    ensures Covers(locals, ms, 0) && Released(locals, ms, 0) == locals
  {
  }

  /** One more media gives its use back. */
  lemma ReleaseOne(locals: seq<LocalMedia>, ms: seq<Active>, i: nat)
    requires i < |ms| && Covers(locals, ms, |ms|)
    ensures Covers(locals, ms, i) && Covers(locals, ms, i + 1)
    ensures var (r, l) := (Released(locals, ms, i), ms[i].local);
            && l < |r| && r[l].useCount > 0
            && Released(locals, ms, i + 1) == r[l := r[l].(useCount := r[l].useCount - 1)]
  {
    CoversMore(locals, ms, i);
  }

  lemma {:induction false} UsesGrow(ms: seq<Active>, l: nat, m: nat, n: nat)
    requires m <= n <= |ms|
    ensures Uses(ms, l, m) <= Uses(ms, l, n)
  {
    if m < n {
      UsesGrow(ms, l, m, n - 1);
    }
  }

  // ---------- one m-line ----------

  lemma BundledIsBuilt(w: Work, groups: seq<Group>, mid: Option<string>)
    requires Inv(w.s, w.made + w.s.media)
    ensures var t := FindBundled(w, groups, mid); t.Some? ==> IsBuilt(w.s.transports, t.value)
  {
    var t := FindBundled(w, groups, mid);
    if t.Some? {
      var all := w.made + w.s.media;
      var m :| m in all && m.transport == t.value;
      var i :| 0 <= i < |all| && all[i] == m;
      assert IsBuilt(w.s.transports, all[i].transport);
    }
  }

  /** One m-line keeps the invariant, whatever becomes of it. */
  lemma LineInv(w: Work, groups: seq<Group>, line: MediaLine)
    requires Inv(w.s, w.made + w.s.media)
    ensures var v := ProcessLine(w, groups, line).work; Inv(v.s, v.made + v.s.media)
  {
    hide Inv, Spare, Keep, Reserve, Add, WithTransport, FindBundled, IsBuilt;
    var k := FindMatch(w.s.media, w.s.transports, line, 0);
    if k < |w.s.media| {
      KeepInv(w, line, k);
    } else {
      var l := ChooseLocal(w.s.locals, line, 0);
      if l < |w.s.locals| {
        WithinLimit(w.s, w.made + w.s.media, l, line);
        ReserveInv(w, l);
        var r := Reserve(w, l);
        ReserveKeepsMedia(w, l);
        AddOrRejectInv(r, groups, line, l, MaybeUse(w.s.locals[l], line).value);
      }
    }
  }

  lemma ReserveKeepsMedia(w: Work, l: nat)
    requires l < |w.s.locals|
    ensures var r := Reserve(w, l); r.s.media == w.s.media && r.made == w.made && |r.s.locals| == |w.s.locals| && r.s.nextId > 0
  {
  }

  lemma WithinLimit(s: Session, all: seq<Active>, l: nat, line: MediaLine)
    requires Inv(s, all) && l < |s.locals| && MaybeUse(s.locals[l], line).Some?
    ensures s.locals[l].useCount < s.locals[l].limit
  {
  }

  lemma AddOrRejectInv(w: Work, groups: seq<Group>, line: MediaLine, l: nat, pt: nat)
    requires Inv(w.s, w.made + w.s.media) && Spare(w.s, w.made + w.s.media, l) && l < |w.s.locals| && w.s.nextId > 0
    ensures var v := AddOrReject(w, groups, line, l, pt).work; Inv(v.s, v.made + v.s.media)
  {
    hide Inv, Spare, Add, WithTransport, FindBundled, IsBuilt;
    var bundled := FindBundled(w, groups, line.mid);
    BundledIsBuilt(w, groups, line.mid);
    if bundled.Some? {
      AddInv(w, line, l, pt, bundled.value);
    } else if line.creation.Creates? {
      AddWithInv(w, line, l, pt, Built(line.creation.kind, line.creation.remotePort));
    }
  }

  /** Entries that fit still do when the new state grows, and the new one fits its m-line. */
  lemma AnswersGrow(w: Work, v: Work, line: MediaLine, lines: seq<MediaLine>, n: nat, e: Entry)
    requires n < |lines| && lines[n] == line && Answers(w, lines, n)
    requires w.made <= v.made && v.response == w.response + [e] && EntryFits(v.made, e, line)
    ensures Answers(v, lines, n + 1)
  {
    forall i | 0 <= i < n
      ensures EntryFits(v.made, v.response[i], lines[i])
    {
      assert EntryFits(w.made, w.response[i], lines[i]);
      assert forall k :: 0 <= k < |w.made| ==> v.made[k] == w.made[k];
    }
  }

  lemma LineAnswers(w: Work, groups: seq<Group>, lines: seq<MediaLine>, n: nat)
    requires n < |lines| && Answers(w, lines, n) && ProcessLine(w, groups, lines[n]).Next?
    ensures Answers(ProcessLine(w, groups, lines[n]).work, lines, n + 1)
  {
    hide Answers, FindBundled, MaybeUse;
    var line := lines[n];
    var v := ProcessLine(w, groups, line).work;
    assert v.response == w.response + [v.response[|w.response|]];
    if |v.made| > |w.made| {
      assert Serves(v.made[|w.made|], line);
    }
    AnswersGrow(w, v, line, lines, n, v.response[|w.response|]);
  }

  /** After each m-line the invariant holds, also if a transport could not be created. */
  lemma {:induction false} LinesInv(s: Session, offer: Offer, n: nat)
    requires Valid(s) && n <= |offer.lines|
    ensures var o := ProcessLines(s, offer, n);
            Inv(o.work.s, o.work.made + o.work.s.media) && (o.Next? ==> Answers(o.work, offer.lines, n))
  {
    hide Inv, Answers, ProcessLine;
    if n == 0 {
      assert [] + s.media == s.media;
      NothingAnswered(Work(s, [], []), offer.lines);
    } else {
      LinesInv(s, offer, n - 1);
      var o := ProcessLines(s, offer, n - 1);
      if o.Next? {
        LineInv(o.work, offer.groups, offer.lines[n - 1]);
        if ProcessLine(o.work, offer.groups, offer.lines[n - 1]).Next? {
          LineAnswers(o.work, offer.groups, offer.lines, n - 1);
        }
      }
    }
  }

  /** A failure ends the offer. */
  lemma {:induction false} StaysBroken(s: Session, offer: Offer, m: nat, n: nat)
    requires m <= n <= |offer.lines| && ProcessLines(s, offer, m).Broken?
    ensures ProcessLines(s, offer, n) == ProcessLines(s, offer, m)
    decreases n
  {
    hide ProcessLine;
    if m < n {
      StaysBroken(s, offer, m, n - 1);
    }
  }

  lemma NothingAnswered(w: Work, lines: seq<MediaLine>)
    requires w.response == []
    ensures Answers(w, lines, 0)
  {
  }

  // ---------- the end of an offer ----------

  /** Counts that cover two parts of the media cover each part. */
  lemma CoversParts(locals: seq<LocalMedia>, a: seq<Active>, b: seq<Active>)
    requires Covers(locals, a + b, |a + b|)
    ensures Covers(locals, b, |b|)
    ensures forall l :: 0 <= l < |locals| ==> Uses(a, l, |a|) + Uses(b, l, |b|) <= locals[l].useCount
    ensures forall i :: 0 <= i < |a| ==> a[i].local < |locals|
  {
    hide Uses;
    var c := a + b;
    assert forall i :: 0 <= i < |a| ==> c[i] == a[i];
    assert forall i :: 0 <= i < |b| ==> b[i] == c[|a| + i];
    forall l | 0 <= l < |locals|
      ensures Uses(a, l, |a|) + Uses(b, l, |b|) <= locals[l].useCount
    {
      UsesOfBoth(a, b, l);
    }
  }

  lemma FinishCounts(locals: seq<LocalMedia>, a: seq<Active>, b: seq<Active>)
    requires Counted(locals, a + b)
    ensures Covers(locals, b, |b|) && Counted(Released(locals, b, |b|), a)
  {
    hide Uses;
    CoversParts(locals, a, b);
  }

  lemma FinishIds(nextId: nat, a: seq<Active>, b: seq<Active>, es: seq<Event>)
    requires IdsInv(nextId, a + b, es)
    ensures IdsInv(nextId, a, es + RemovedEvents(b))
  {
    hide Added, Removed, HasId;
    var c := a + b;
    assert forall i :: 0 <= i < |a| ==> c[i] == a[i];
    forall id: nat
      ensures IdInv(nextId, a, es + RemovedEvents(b), id)
    {
      assert IdInv(nextId, c, es, id);
      HasIdInBoth(a, b, id);
      AllRemovedEvents(es, b, id);
      PartsAreDisjoint(a, b, id);
    }
  }

  lemma PartsAreDisjoint(a: seq<Active>, b: seq<Active>, id: nat)
    requires Distinct(a + b)
    ensures !(HasId(a, id) && HasId(b, id))
  {
    var c := a + b;
    assert forall i :: 0 <= i < |a| ==> c[i] == a[i];
    assert forall i :: 0 <= i < |b| ==> b[i] == c[|a| + i];
  }

  lemma ReportOne(ts: seq<Option<Transport>>, removals: seq<nat>, t: nat)
    requires Reported(ts, removals) && t < |ts| && ts[t].Some?
    ensures Reported(ts[t := None], removals + [t])
  {
    assert t !in removals;
  }

  /** Cleaning reports each transport that it removes, once. */
  lemma {:induction false} CleanedReports(s: Session, n: nat)
    requires n <= |s.transports| && Reported(s.transports, s.removals)
    ensures var r := Cleaned(s, n); Reported(r.transports, r.removals)
  {
    hide Reported, Needed;
    if n > 0 {
      CleanedReports(s, n - 1);
      var r := Cleaned(s, n - 1);
      if s.transports[n - 1].Some? && !InUse(s, n - 1) {
        ReportOne(r.transports, r.removals, n - 1);
      }
    }
  }

  lemma GroundedPart(a: seq<Active>, b: seq<Active>, ts: seq<Option<Transport>>)
    requires Grounded(a + b, ts)
    ensures Grounded(a, ts)
  {
    forall i | 0 <= i < |a|
      ensures IsBuilt(ts, a[i].transport)
    {
      assert (a + b)[i] == a[i];
    }
  }

  lemma CleanedInv(s: Session)
    requires IdsInv(s.nextId, s.media, s.events) && Grounded(s.media, s.transports) && Counted(s.locals, s.media)
    requires Reported(s.transports, s.removals)
    ensures Valid(RemoveUnused(s))
  {
    hide IdsInv, Counted, Reported, IsBuilt;
    var r := RemoveUnused(s);
    CleanedReports(s, |s.transports|);
    forall i | 0 <= i < |s.media|
      ensures IsBuilt(r.transports, s.media[i].transport)
    {
      assert IsBuilt(s.transports, s.media[i].transport);
      StaysBuilt(s, s.media[i].transport, i);
    }
  }

  lemma StaysBuilt(s: Session, t: nat, i: nat)
    requires IsBuilt(s.transports, t) && i < |s.media| && s.media[i].transport == t
    ensures IsBuilt(RemoveUnused(s).transports, t)
  {
    assert InUse(s, t);
  }

  lemma FinishInv(w: Work)
    requires Inv(w.s, w.made + w.s.media)
    ensures Covers(w.s.locals, w.s.media, |w.s.media|) && Valid(Finish(w))
  {
    hide IdsInv, Grounded, Counted, Covers, Reported, AllNeeded, RemoveUnused;
    FinishIds(w.s.nextId, w.made, w.s.media, w.s.events);
    FinishCounts(w.s.locals, w.made, w.s.media);
    GroundedPart(w.made, w.s.media, w.s.transports);
    var locals := Released(w.s.locals, w.s.media, |w.s.media|);
    CleanedInv(w.s.(locals := locals, events := w.s.events + RemovedEvents(w.s.media), media := w.made));
  }

  // ---------- offers ----------

  /** An offer that fails drops the media that it had put into a new state. */
  datatype Received = Answerable(s: Session, response: seq<Entry>) | Failed(s: Session)

  function ReceiveOffer(s: Session, offer: Offer): (r: Received)
    requires Valid(s)
    ensures r.Answerable? ==> Valid(r.s)
  {
    LinesInv(s, offer, |offer.lines|);
    match ProcessLines(s, offer, |offer.lines|)
    case Broken(w) => Failed(w.s)
    case Next(w) =>
      FinishInv(w);
      Answerable(Finish(w), w.response)
  }

  datatype AnswerLine = AnswerLine(mediaType: string, mid: Option<string>, flow: Flow, rejected: bool)

  function FindId(ms: seq<Active>, id: nat, i: nat): (k: nat)
    requires i <= |ms|
    ensures i <= k <= |ms| && (k < |ms| ==> ms[k].id == id) && forall j :: i <= j < k ==> ms[j].id != id
    decreases |ms| - i
  {
    if i == |ms| || ms[i].id == id then i else FindId(ms, id, i + 1)
  }

  /** None where the source panics: the media is not there, or its transport is not built. */
  function AnswerFor(s: Session, e: Entry): (r: Option<AnswerLine>) {
    match e
    case Rejected(mediaType, mid) => Some(AnswerLine(mediaType, mid, Flow(false, false), true))
    case Accepted(id) =>
      var k := FindId(s.media, id, 0);
      if k == |s.media| || !IsBuilt(s.transports, s.media[k].transport) then None
      else Some(AnswerLine(s.media[k].mediaType, s.media[k].mid, s.media[k].flow, false))
  }

  /**
   The answer to an offer can always be made: one m-line for each offered one, in order and of the same type,
   which sends only where the offer receives and receives only where it sends.
   */
  lemma EveryLineIsAnswered(s: Session, offer: Offer, i: nat)
    requires Valid(s) && ReceiveOffer(s, offer).Answerable? && i < |offer.lines|
    ensures var r := ReceiveOffer(s, offer);
            && |r.response| == |offer.lines|
            && AnswerFor(r.s, r.response[i]).Some?
            && var line := AnswerFor(r.s, r.response[i]).value;
            && line.mediaType == offer.lines[i].mediaType && line.rejected == r.response[i].Rejected?
            && (line.flow.send ==> offer.lines[i].flow.recv) && (line.flow.recv ==> offer.lines[i].flow.send)
  {
    hide ProcessLines, Cleaned;
    var r := ReceiveOffer(s, offer);
    LinesInv(s, offer, |offer.lines|);
    var w := ProcessLines(s, offer, |offer.lines|).work;
    FinishInv(w);
    assert r.s.media == w.made;
    assert EntryFits(w.made, w.response[i], offer.lines[i]);
    if w.response[i].Accepted? {
      OnlyOneHasId(r.s, w.response[i].id, FindId(r.s.media, w.response[i].id, 0), offer.lines[i]);
    }
  }

  lemma OnlyOneHasId(s: Session, id: nat, k: nat, line: MediaLine)
    requires Valid(s) && k <= |s.media| && (k < |s.media| ==> s.media[k].id == id) && forall j :: 0 <= j < k ==> s.media[j].id != id
    requires exists j :: 0 <= j < |s.media| && s.media[j].id == id && Serves(s.media[j], line)
    ensures k < |s.media| && Serves(s.media[k], line) && IsBuilt(s.transports, s.media[k].transport)
  {
  }

  // ---------- leaked uses ----------

  /** How many uses of a local media are counted that no media has. */
  function Leaked(locals: seq<LocalMedia>, all: seq<Active>, l: nat): (r: int)
    requires l < |locals|
  {
    locals[l].useCount - Uses(all, l, |all|)
  }

  /** Local media is chosen for the m-line, but there is no transport: the m-line is rejected after all. */
  predicate Leaks(w: Work, groups: seq<Group>, line: MediaLine) {
    var l := ChooseLocal(w.s.locals, line, 0);
    && FindMatch(w.s.media, w.s.transports, line, 0) == |w.s.media| && l < |w.s.locals|
    && FindBundled(Reserve(w, l), groups, line.mid).None? && !line.creation.Creates?
  }

  /** An m-line leaks a use exactly if it is rejected for its transport, and then of the media that was chosen. */
  lemma LineLeaksExactly(w: Work, groups: seq<Group>, line: MediaLine, l: nat)
    requires Inv(w.s, w.made + w.s.media) && l < |w.s.locals|
    ensures var v := ProcessLine(w, groups, line).work;
            && |v.s.locals| == |w.s.locals|
            && Leaked(v.s.locals, v.made + v.s.media, l) == Leaked(w.s.locals, w.made + w.s.media, l)
                 + if Leaks(w, groups, line) && l == ChooseLocal(w.s.locals, line, 0) then 1 else 0
  {
    hide Inv, Uses, Matches, MaybeUse, FindBundled, FlowFor;
    var v := ProcessLine(w, groups, line).work;
    var k := FindMatch(w.s.media, w.s.transports, line, 0);
    if k < |w.s.media| {
      MovedUses(w.made, w.s.media, k, line.flow.Flipped(), l);
    } else if |v.made| > |w.made| {
      AddedUses(w.made, w.s.media, v.made[|w.made|], l);
      assert v.made == w.made + [v.made[|w.made|]];
    }
  }

  lemma AddedUses(a: seq<Active>, b: seq<Active>, m: Active, l: nat)
    ensures Uses(a + [m] + b, l, |a + [m] + b|) == Uses(a + b, l, |a + b|) + if m.local == l then 1 else 0
  {
    hide Uses;
    assert a + [m] + b == a + ([m] + b);
    UsesOfBoth(a, b, l);
    UsesOfBoth(a, [m] + b, l);
    UsesOfBoth([m], b, l);
    UsesOfOne(m, l);
  }

  /** The end of an offer gives back the uses of all removed media, and no more. */
  lemma FinishLeaksNothing(w: Work, l: nat)
    requires Inv(w.s, w.made + w.s.media) && l < |w.s.locals| && Covers(w.s.locals, w.s.media, |w.s.media|)
    ensures var s := Finish(w);
            |s.locals| == |w.s.locals| && Leaked(s.locals, s.media, l) == Leaked(w.s.locals, w.made + w.s.media, l)
  {
    hide Uses, Inv, Covers;
    UsesOfBoth(w.made, w.s.media, l);
  }

  // ---------- offers that fail ----------

  /** The m-line gets media: one that matches, or a new one for local media that is chosen and has a transport. */
  predicate Takes(w: Work, groups: seq<Group>, line: MediaLine) {
    var l := ChooseLocal(w.s.locals, line, 0);
    || FindMatch(w.s.media, w.s.transports, line, 0) < |w.s.media|
    || (l < |w.s.locals| && (FindBundled(Reserve(w, l), groups, line.mid).Some? || line.creation.Creates?))
  }

  /** The offer comes to the m-line, and it gets media. */
  predicate TakesAt(s: Session, offer: Offer, i: nat)
    requires i < |offer.lines|
  {
    var o := ProcessLines(s, offer, i);
    o.Next? && Takes(o.work, offer.groups, offer.lines[i])
  }

  /** Local media is chosen for the m-line, and the transport for it cannot be created. */
  predicate Breaks(w: Work, groups: seq<Group>, line: MediaLine) {
    Leaks(w, groups, line) && line.creation.Fails?
  }

  predicate BreaksAt(s: Session, offer: Offer, i: nat)
    requires i < |offer.lines|
  {
    var o := ProcessLines(s, offer, i);
    o.Next? && Breaks(o.work, offer.groups, offer.lines[i])
  }

  /** How many of the first n m-lines of an offer leak a use of a local media. */
  function LineLeaks(s: Session, offer: Offer, n: nat, l: nat): (r: nat)
    requires n <= |offer.lines|
  {
    if n == 0 then 0
    else
      var o := ProcessLines(s, offer, n - 1);
      var w := o.work;
      LineLeaks(s, offer, n - 1, l)
      + if o.Next? && Leaks(w, offer.groups, offer.lines[n - 1]) && l == ChooseLocal(w.s.locals, offer.lines[n - 1], 0) then 1 else 0
  }

  lemma LineTakes(w: Work, groups: seq<Group>, line: MediaLine)
    ensures var o := ProcessLine(w, groups, line);
            && |o.work.made| == |w.made| + (if Takes(w, groups, line) then 1 else 0)
            && (o.Broken? <==> Breaks(w, groups, line))
  {
    hide FindBundled, Matches, MaybeUse, FlowFor;
  }

  /** The new state has media exactly if some m-line got it, and the offer fails exactly at an m-line that breaks it. */
  lemma {:induction false} TakenExactly(s: Session, offer: Offer, n: nat)
    requires n <= |offer.lines|
    ensures ProcessLines(s, offer, n).work.made != [] <==> exists i :: 0 <= i < n && TakesAt(s, offer, i)
    ensures ProcessLines(s, offer, n).Broken? <==> exists i :: 0 <= i < n && BreaksAt(s, offer, i)
  {
    hide ProcessLine, Takes, Breaks;
    if n > 0 {
      TakenExactly(s, offer, n - 1);
      var o := ProcessLines(s, offer, n - 1);
      if o.Next? {
        LineTakes(o.work, offer.groups, offer.lines[n - 1]);
        assert TakesAt(s, offer, n - 1) <==> Takes(o.work, offer.groups, offer.lines[n - 1]);
        assert BreaksAt(s, offer, n - 1) <==> Breaks(o.work, offer.groups, offer.lines[n - 1]);
      }
    }
  }

  /** What was leaked before an offer, and one use for each m-line that leaks one: no more is leaked as long as no media is dropped. */
  lemma {:induction false} LinesLeak(s: Session, offer: Offer, n: nat, l: nat)
    requires Valid(s) && n <= |offer.lines| && l < |s.locals|
    ensures var w := ProcessLines(s, offer, n).work;
            && |w.s.locals| == |s.locals|
            && Leaked(w.s.locals, w.made + w.s.media, l) == Leaked(s.locals, s.media, l) + LineLeaks(s, offer, n, l)
  {
    hide ProcessLine, Leaks, Leaked, Inv;
    if n == 0 {
      assert [] + s.media == s.media;
    } else {
      LinesLeak(s, offer, n - 1, l);
      LinesInv(s, offer, n - 1);
      var o := ProcessLines(s, offer, n - 1);
      if o.Next? {
        LineLeaksExactly(o.work, offer.groups, offer.lines[n - 1], l);
      }
    }
  }

  /** An offer that can be answered leaks one use for each m-line that leaks one, and no more. */
  lemma OfferLeaksExactly(s: Session, offer: Offer, l: nat)
    requires Valid(s) && ReceiveOffer(s, offer).Answerable? && l < |s.locals|
    ensures var r := ReceiveOffer(s, offer).s;
            && |r.locals| == |s.locals|
            && Leaked(r.locals, r.media, l) == Leaked(s.locals, s.media, l) + LineLeaks(s, offer, |offer.lines|, l)
  {
    hide ProcessLines, Leaked, Inv, Cleaned;
    LinesInv(s, offer, |offer.lines|);
    LinesLeak(s, offer, |offer.lines|, l);
    var w := ProcessLines(s, offer, |offer.lines|).work;
    FinishInv(w);
    FinishLeaksNothing(w, l);
  }

  /** An offer fails exactly at an m-line with local media whose transport can be neither shared nor created. */
  lemma OfferFailsExactly(s: Session, offer: Offer)
    requires Valid(s)
    ensures ReceiveOffer(s, offer).Failed? <==> exists i :: 0 <= i < |offer.lines| && BreaksAt(s, offer, i)
  {
    hide ProcessLines, Breaks, Inv;
    TakenExactly(s, offer, |offer.lines|);
  }

  /** An offer that fails keeps the ids of the media those that were added and not removed exactly if no m-line got media. */
  lemma FailureLosesMediaExactly(s: Session, offer: Offer)
    requires Valid(s) && ReceiveOffer(s, offer).Failed?
    ensures var r := ReceiveOffer(s, offer);
            (forall id: nat :: HasId(r.s.media, id) <==> Added(r.s.events, id) && !Removed(r.s.events, id))
              <==> !exists i :: 0 <= i < |offer.lines| && TakesAt(s, offer, i)
  {
    hide Added, Removed, ProcessLines, TakesAt, BreaksAt;
    LinesInv(s, offer, |offer.lines|);
    TakenExactly(s, offer, |offer.lines|);
    var w := ProcessLines(s, offer, |offer.lines|).work;
    var all := w.made + w.s.media;
    forall id: nat
      ensures IdInv(w.s.nextId, all, w.s.events, id)
      ensures HasId(all, id) <==> HasId(w.made, id) || HasId(w.s.media, id)
    {
      assert IdInv(w.s.nextId, all, w.s.events, id);
      HasIdInBoth(w.made, w.s.media, id);
    }
    if w.made == [] {
      assert all == w.s.media;
    } else {
      PartsAreDisjoint(w.made, w.s.media, w.made[0].id);
      assert HasId(w.made, w.made[0].id);
    }
  }

  /** And exactly then it leaks no use but those that its m-lines leak; the uses of media that is dropped are not given back. */
  lemma FailureLosesUsesExactly(s: Session, offer: Offer)
    requires Valid(s) && ReceiveOffer(s, offer).Failed?
    ensures var r := ReceiveOffer(s, offer).s;
            && |r.locals| == |s.locals|
            && ((forall l: nat :: l < |s.locals| ==>
                   Leaked(r.locals, r.media, l) == Leaked(s.locals, s.media, l) + LineLeaks(s, offer, |offer.lines|, l))
                <==> !exists i :: 0 <= i < |offer.lines| && TakesAt(s, offer, i))
  {
    hide ProcessLines, TakesAt, BreaksAt, Uses, LineLeaks, IdsInv, Grounded, Reported, AllNeeded;
    LinesInv(s, offer, |offer.lines|);
    TakenExactly(s, offer, |offer.lines|);
    var w := ProcessLines(s, offer, |offer.lines|).work;
    SameLocals(s, offer, |offer.lines|);
    forall l: nat | l < |s.locals|
      ensures Leaked(w.s.locals, w.s.media, l)
              == Leaked(s.locals, s.media, l) + LineLeaks(s, offer, |offer.lines|, l) + Uses(w.made, l, |w.made|)
    {
      LinesLeak(s, offer, |offer.lines|, l);
      UsesOfBoth(w.made, w.s.media, l);
    }
    if w.made == [] {
      NoneUsed();
    } else {
      FirstIsUsed(w.made);
      CoversParts(w.s.locals, w.made, w.s.media);
    }
  }

  lemma LineLocals(w: Work, groups: seq<Group>, line: MediaLine)
    ensures |ProcessLine(w, groups, line).work.s.locals| == |w.s.locals|
  {
    hide FindBundled, Matches, MaybeUse, FlowFor;
  }

  lemma {:induction false} SameLocals(s: Session, offer: Offer, n: nat)
    requires n <= |offer.lines|
    ensures |ProcessLines(s, offer, n).work.s.locals| == |s.locals|
  {
    hide ProcessLine;
    if n > 0 {
      SameLocals(s, offer, n - 1);
      LineLocals(ProcessLines(s, offer, n - 1).work, offer.groups, offer.lines[n - 1]);
    }
  }

  lemma NoneUsed()
    ensures forall l :: Uses([], l, 0) == 0
  {
  }

  lemma FirstIsUsed(ms: seq<Active>)
    requires ms != []
    ensures Uses(ms, ms[0].local, |ms|) > 0
  {
    UsesGrow(ms, ms[0].local, 1, |ms|);
    assert Uses(ms, ms[0].local, 0) == 0;
  }

  const OPUS := NewCodec("OPUS", 48000, None, false)
  const BOTH := Flow(true, true)

  function AudioLine(creation: Creation): (r: MediaLine) {
    MediaLine("audio", None, 9, BOTH, [96], [RtpMap(96, "OPUS", 48000)], creation)
  }

  /** The room for audio, n of whose two uses are taken. */
  function Audio(n: nat): (r: LocalMedia) {
    LocalMedia("audio", [Codec("OPUS", 48000, 96, false)], 2, BOTH, n)
  }

  /** A new session with room for two audio media. */
  function TwoAudio(): (s: Session)
    ensures Valid(s) && s == AddLocalMedia(NEW_SESSION, "audio", [OPUS], 2, BOTH)
  {
    NewIsValid();
    AddLocalInv(NEW_SESSION, "audio", [OPUS], 2, BOTH);
    OpusIsNumbered();
    Session(0, 97, [Audio(0)], [], [], [], [], [])
  }

  lemma OpusIsNumbered()
    ensures AssignPts([OPUS], FIRST_DYNAMIC_PT, 1) == Some(([Codec("OPUS", 48000, 96, false)], 97))
  {
    assert AssignPts([OPUS], FIRST_DYNAMIC_PT, 0) == Some(([], 96));
    assert [Codec("OPUS", 48000, 96, false)] == [] + [Codec("OPUS", 48000, 96, false)];
  }

  /** The offered codec is the one of the local media, so that it is chosen while it has room. */
  lemma AudioIsChosen(n: nat, creation: Creation)
    ensures MaybeUse(Audio(n), AudioLine(creation)) == if n == 2 then None else Some(96)
  {
    assert FindRtpMap(AudioLine(creation).rtpmaps, Audio(n).codecs[0], 0) == Some(96);
  }

  lemma AudioLineIs(w: Work, creation: Creation, n: nat)
    requires w.s.media == [] && w.s.locals == [Audio(n)]
    ensures n == 2 ==> ProcessLine(w, [], AudioLine(creation)) == Next(Reject(w, AudioLine(creation)))
    ensures n != 2 ==>
              && ProcessLine(w, [], AudioLine(creation)) == AddOrReject(Reserve(w, 0), [], AudioLine(creation), 0, 96)
              && Reserve(w, 0) == w.(s := w.s.(nextId := w.s.nextId + 1, locals := [Audio(n + 1)]))
              && ChooseLocal(w.s.locals, AudioLine(creation), 0) == 0 && FindMatch(w.s.media, w.s.transports, AudioLine(creation), 0) == 0
  {
    hide MaybeUse, AddOrReject;
    AudioIsChosen(n, creation);
    assert w.s.locals[0] == Audio(n);
    assert n != 2 ==> ChooseLocal(w.s.locals, AudioLine(creation), 0) == 0;
  }

  /** An offer whose second transport fails: its first media is announced, never removed, and gone, with a use of its local media. */
  lemma IdIsLost()
    ensures var r := ReceiveOffer(TwoAudio(), Offer([AudioLine(Creates(0, 9)), AudioLine(Fails)], []));
            r.Failed? && r.s.media == [] && r.s.events == [MediaAdded(0, 0, 0, BOTH, 96)] && r.s.locals == [Audio(2)]
  {
    hide ProcessLine, Reserve;
    var offer := Offer([AudioLine(Creates(0, 9)), AudioLine(Fails)], []);
    var w := Work(TwoAudio(), [], []);
    AudioLineIs(w, offer.lines[0].creation, 0);
    var v := ProcessLine(w, [], offer.lines[0]).work;
    assert ProcessLines(TwoAudio(), offer, 0) == Next(w);
    assert ProcessLines(TwoAudio(), offer, 1) == Next(v);
    AudioLineIs(v, offer.lines[1].creation, 1);
    assert ProcessLines(TwoAudio(), offer, 2) == ProcessLine(v, [], offer.lines[1]);
  }

  /** An offer whose transports are not supported uses the local media up without any media: a good offer is then rejected. */
  lemma UsesAreLost()
    ensures var r := ReceiveOffer(TwoAudio(), Offer([AudioLine(Unsupported), AudioLine(Unsupported)], []));
            && r.Answerable? && r.s.media == [] && r.s.locals == [Audio(2)]
            && ReceiveOffer(r.s, Offer([AudioLine(Creates(0, 9))], [])) == Answerable(r.s, [Rejected("audio", None)])
  {
    hide ProcessLine, Reserve, Inv;
    var (line, good) := (AudioLine(Unsupported), AudioLine(Creates(0, 9)));
    var (offer, next) := (Offer([line, line], []), Offer([good], []));
    var w := Work(TwoAudio(), [], []);
    AudioLineIs(w, Unsupported, 0);
    var v := ProcessLine(w, [], line).work;
    assert ProcessLines(TwoAudio(), offer, 0) == Next(w);
    assert ProcessLines(TwoAudio(), offer, 1) == Next(v);
    AudioLineIs(v, Unsupported, 1);
    assert ProcessLines(TwoAudio(), offer, 2) == ProcessLine(v, [], line);
    var r := ReceiveOffer(TwoAudio(), offer).s;
    var u := Work(r, [], []);
    AudioLineIs(u, good.creation, 2);
    assert ProcessLines(r, next, 0) == Next(u);
    assert ProcessLines(r, next, 1) == ProcessLine(u, [], good);
  }

  // ---------- local media, and changes that are to be offered ----------

  datatype Policy = MaxCompat | MaxBundle

  /** A codec before it has a payload type. */
  datatype NewCodec = NewCodec(name: string, clockRate: nat, pt: Option<nat>, isStatic: bool)

  const FIRST_DYNAMIC_PT: nat := 96
  const LAST_PT: nat := 127

  /** Codecs get the next payload types in turn; None when there are not enough. */
  function AssignPts(codecs: seq<NewCodec>, next: nat, n: nat): (r: Option<(seq<Codec>, nat)>)
    requires n <= |codecs|
    ensures r.Some? ==> |r.value.0| == n
  {
    if n == 0 then Some(([], next))
    else
      var r := AssignPts(codecs, next, n - 1);
      if r.None? then None
      else
        var (c, (cs, pt)) := (codecs[n - 1], r.value);
        if c.pt.Some? then Some((cs + [Codec(c.name, c.clockRate, c.pt.value, c.isStatic)], pt))
        else if pt + 1 > LAST_PT then None
        else Some((cs + [Codec(c.name, c.clockRate, pt, c.isStatic)], pt + 1))
  }

  lemma {:induction false} NotEnoughPts(codecs: seq<NewCodec>, next: nat, m: nat, n: nat)
    requires m <= n <= |codecs| && AssignPts(codecs, next, m).None?
    ensures AssignPts(codecs, next, n).None?
    decreases n
  {
    if m < n {
      NotEnoughPts(codecs, next, m, n - 1);
    }
  }

  function Unnumbered(codecs: seq<NewCodec>, n: nat): (r: nat)
    requires n <= |codecs|
  {
    if n == 0 then 0 else Unnumbered(codecs, n - 1) + if codecs[n - 1].pt.None? then 1 else 0
  }

  /** Codecs without a payload type get consecutive ones below 127; it fails exactly if there are not so many. */
  lemma {:induction false} PtsAreConsecutive(codecs: seq<NewCodec>, next: nat, n: nat)
    requires n <= |codecs| && next <= LAST_PT
    ensures var r := AssignPts(codecs, next, n);
            && (r.Some? <==> next + Unnumbered(codecs, n) <= LAST_PT)
            && (r.Some? ==> r.value.1 == next + Unnumbered(codecs, n)
                            && forall i :: 0 <= i < n ==>
                                 r.value.0[i].pt == if codecs[i].pt.Some? then codecs[i].pt.value else next + Unnumbered(codecs, i))
  {
    if n > 0 {
      PtsAreConsecutive(codecs, next, n - 1);
    }
  }

  function AddLocalMedia(s: Session, mediaType: string, codecs: seq<NewCodec>, limit: nat, flow: Flow): (r: Session) {
    var r := AssignPts(codecs, s.nextPt, |codecs|);
    if r.None? then s
    else s.(nextPt := r.value.1, locals := s.locals + [LocalMedia(mediaType, r.value.0, limit, flow, 0)])
  }

  /** The best kind of transport there is, among the first n. */
  function BestKind(ts: seq<Option<Transport>>, n: nat): (r: Option<nat>)
    requires n <= |ts|
  {
    if n == 0 then None
    else
      var b := BestKind(ts, n - 1);
      if ts[n - 1].Some? && (b.None? || b.value <= ts[n - 1].value.kind) then Some(ts[n - 1].value.kind) else b
  }

  function FindKind(ts: seq<Option<Transport>>, kind: nat, i: nat): (k: nat)
    requires i <= |ts|
    ensures i <= k <= |ts| && (k < |ts| ==> ts[k].Some? && ts[k].value.kind == kind)
    decreases |ts| - i
  {
    if i == |ts| || (ts[i].Some? && ts[i].value.kind == kind) then i else FindKind(ts, kind, i + 1)
  }

  /** Media to be offered: over the first transport of the best kind, over one of its own, or both. */
  function AddMediaTo(s: Session, policy: Policy, offerKind: nat, local: nat): (r: Session) {
    var kind := BestKind(s.transports, |s.transports|).GetOr(offerKind);
    var (n, found) := (|s.transports|, FindKind(s.transports, kind, 0));
    var more := if policy.MaxCompat? || found == n then s.transports + [Some(Builder(kind))] else s.transports;
    var standalone := if policy.MaxCompat? then Some(n) else None;
    s.(nextId := s.nextId + 1, transports := more, pending := s.pending + [AddMedia(s.nextId, local, standalone, found)])
  }

  function RemoveMediaFrom(s: Session, id: nat): (r: Session) {
    if HasId(s.media, id) then s.(pending := s.pending + [RemoveMedia(id)]) else s
  }

  function UpdateMedia(s: Session, id: nat, flow: Flow): (r: Session) {
    if HasId(s.media, id) then s.(pending := s.pending + [ChangeFlow(id, flow)]) else s
  }

  lemma AddLocalInv(s: Session, mediaType: string, codecs: seq<NewCodec>, limit: nat, flow: Flow)
    requires Valid(s)
    ensures Valid(AddLocalMedia(s, mediaType, codecs, limit, flow))
  {
    var t := AddLocalMedia(s, mediaType, codecs, limit, flow);
    if t != s {
      NoUses(s.locals, s.media, |s.media|);
    }
  }

  lemma {:induction false} NoUses(locals: seq<LocalMedia>, ms: seq<Active>, n: nat)
    requires n <= |ms| && forall i :: 0 <= i < n ==> ms[i].local < |locals|
    ensures Uses(ms, |locals|, n) == 0
  {
    if n > 0 {
      NoUses(locals, ms, n - 1);
    }
  }

  lemma PendingInv(s: Session, p: Pending, more: seq<Option<Transport>>)
    requires Valid(s)
    requires more == s.transports || (exists x :: more == s.transports + [Some(x)])
    requires more != s.transports ==> p.AddMedia? && (p.bundle == |s.transports| || p.standalone == Some(|s.transports|))
    ensures Valid(s.(nextId := s.nextId + 1, pending := s.pending + [p], transports := more))
    ensures more == s.transports ==> Valid(s.(pending := s.pending + [p]))
  {
    hide Distinct, HasId, Added, Removed, Covers;
    var pending := s.pending + [p];
    assert pending[|s.pending|] == p;
    forall t | 0 <= t < |more| && more[t].Some?
      ensures Needed(s.media, pending, t)
    {
      if t < |s.transports| {
        assert Needed(s.media, s.pending, t);
        assert forall i :: 0 <= i < |s.pending| ==> pending[i] == s.pending[i];
      }
    }
    var next := s.nextId + 1;
    forall id: nat
      ensures IdInv(next, s.media, s.events, id)
    {
      assert IdInv(s.nextId, s.media, s.events, id);
    }
    assert forall i :: 0 <= i < |s.media| ==> IsBuilt(s.transports, s.media[i].transport);
  }

  // ---------- runs ----------

  datatype Op =
    | OfferOp(offer: Offer)
    | LocalMediaOp(mediaType: string, codecs: seq<NewCodec>, limit: nat, flow: Flow)
    | AddMediaOp(policy: Policy, offerKind: nat, local: nat)
    | RemoveMediaOp(id: nat)
    | UpdateMediaOp(id: nat, flow: Flow)

  /** None if an offer fails. */
  function Step(s: Session, op: Op): (r: Option<Session>)
    requires Valid(s)
  {
    match op
    case OfferOp(offer) => (match ReceiveOffer(s, offer) case Answerable(t, _) => Some(t) case Failed(_) => None)
    case LocalMediaOp(mediaType, codecs, limit, flow) => Some(AddLocalMedia(s, mediaType, codecs, limit, flow))
    case AddMediaOp(policy, kind, local) => Some(AddMediaTo(s, policy, kind, local))
    case RemoveMediaOp(id) => Some(RemoveMediaFrom(s, id))
    case UpdateMediaOp(id, flow) => Some(UpdateMedia(s, id, flow))
  }

  lemma StepInv(s: Session, op: Op)
    requires Valid(s)
    ensures Step(s, op).Some? ==> Valid(Step(s, op).value)
  {
    hide Valid, AddLocalMedia, ReceiveOffer, BestKind, FindKind;
    match op {
      case OfferOp(_) =>
      case LocalMediaOp(mediaType, codecs, limit, flow) => AddLocalInv(s, mediaType, codecs, limit, flow);
      case AddMediaOp(policy, kind, local) =>
        var t := AddMediaTo(s, policy, kind, local);
        PendingInv(s, t.pending[|s.pending|], t.transports);
      case RemoveMediaOp(id) => PendingInv(s, RemoveMedia(id), s.transports);
      case UpdateMediaOp(id, flow) => PendingInv(s, ChangeFlow(id, flow), s.transports);
    }
  }

  const NEW_SESSION := Session(0, FIRST_DYNAMIC_PT, [], [], [], [], [], [])

  lemma NewIsValid()
    ensures Valid(NEW_SESSION)
  {
  }

  /** The session after the first n operations; None once an offer has failed. */
  function Run(ops: seq<Op>, n: nat): (s: Option<Session>)
    requires n <= |ops|
    ensures s.Some? ==> Valid(s.value)
  {
    NewIsValid();
    if n == 0 then Some(NEW_SESSION)
    else
      var s := Run(ops, n - 1);
      if s.None? then None else StepInv(s.value, ops[n - 1]); Step(s.value, ops[n - 1])
  }

  /**
   Over every run in which no offer fails: the ids announced and not yet removed are those of the media, which
   are distinct; every media has a built transport; every transport that is left is needed, and each one that
   is gone was reported, once; and the count of a local media covers its uses and stays within its limit.
   */
  lemma {:induction false} OkRunsConserve(ops: seq<Op>, n: nat, s: Session)
    requires n <= |ops| && Run(ops, n) == Some(s)
    ensures forall id: nat :: HasId(s.media, id) <==> Added(s.events, id) && !Removed(s.events, id)
    ensures Distinct(s.media) && forall i :: 0 <= i < |s.media| ==> IsBuilt(s.transports, s.media[i].transport)
    ensures forall t :: 0 <= t < |s.transports| ==> s.transports[t].None? == (t in s.removals) && (s.transports[t].Some? ==> InUse(s, t))
    ensures forall i, j :: 0 <= i < j < |s.removals| ==> s.removals[i] != s.removals[j]
    ensures forall l :: 0 <= l < |s.locals| ==> Uses(s.media, l, |s.media|) <= s.locals[l].useCount <= s.locals[l].limit
  {
    hide Uses, Added, Removed, HasId, Needed;
    forall id: nat
      ensures HasId(s.media, id) <==> Added(s.events, id) && !Removed(s.events, id)
    {
      assert IdInv(s.nextId, s.media, s.events, id);
    }
  }
}
