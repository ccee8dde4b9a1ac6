/**
 The state of an ICE agent and what each operation does to it: checks, nomination, role switches, and the
 connection state, with the invariants that every run keeps.

 Whether a message passes its integrity check is a part of the message, transaction ids are parameters, and
 a broken expectation of the source is the outcome Panicked.
 */
module IceState {

  import opened IceChecklist
  import opened IcePriority
  import opened Wrappers
  import Roles = IceRoles
  import StunTimer

  /** Milliseconds between two new checks. */
  const CHECK_INTERVAL: nat := 50

  datatype Connection = New | Checking | Connected | Disconnected | Unreachable

  datatype Data = BindingRequest(request: Request) | SuccessResponse(tid: nat, mapped: Addr) | RoleError(tid: nat, role: Roles.Role)

  datatype Event =
    | ConnectionStateChanged(from: Connection, to: Connection)
    | UseAddr(component: Component, address: Addr)
    | SendData(component: Component, data: Data, source: Ip, target: Addr)

  datatype Message =
    | RequestMessage(tid: nat, priority: Option<nat>, useCandidate: bool, role: Option<Roles.Role>)
    | SuccessMessage(tid: nat, mapped: Option<Addr>)
    | ErrorMessage(tid: nat, code: Option<nat>, role: Option<Roles.Role>)

  datatype Packet = Packet(message: Message, authentic: bool, source: Addr, destination: Addr, component: Component)

  datatype Agent = Agent(table: Table, pairs: seq<Pair>, triggered: seq<(nat, nat)>, rtcpMux: bool, tie: nat,
                         maxPairs: nat, connection: Connection, remoteKnown: bool, lastTrigger: Option<int>,
                         backlog: seq<Packet>, events: seq<Event>)
  {
    function Emit(e: Event): (r: Agent) {
      this.(events := events + [e])
    }
  }

  /** Dangling: a pair is left whose local candidate was removed. */
  datatype Outcome = Done(agent: Agent) | Panicked | Dangling

  function Created(controlling: bool, tie: nat, rtcpMux: bool, remoteKnown: bool): (r: Agent) {
    Agent(Table([], [], controlling), [], [], rtcpMux, tie, 100, New, remoteKnown, None, [], [])
  }

  ghost predicate Valid(a: Agent) {
    Checklist(a.table, a.pairs)
  }

  /** No new check is due to this step, and the connection state is the same; events are only added that do not tell of it. */
  ghost predicate Quiet(a: Agent, b: Agent) {
    && b.connection == a.connection && b.lastTrigger == a.lastTrigger && |a.events| <= |b.events|
    && (forall i :: 0 <= i < |a.events| ==> b.events[i] == a.events[i])
    && (forall i :: |a.events| <= i < |b.events| ==> !b.events[i].ConnectionStateChanged?)
  }

  // ---------- candidates ----------

  function KindPreference(k: Kind): (r: nat) {
    match k
    case Host => 126
    case PeerReflexive => 110
    case ServerReflexive => 100
  }

  function PreferenceOffset(k: Kind): (r: nat) {
    match k
    case Host => 49149
    case PeerReflexive => 32766
    case ServerReflexive => 16383
  }

  function CountKind(locals: seq<Option<Candidate>>, kind: Kind, n: nat): (r: nat)
    requires n <= |locals|
    ensures r <= n
  {
    if n == 0 then 0
    else CountKind(locals, kind, n - 1) + if locals[n - 1].Some? && locals[n - 1].value.kind == kind then 1 else 0
  }

  function ComponentId(c: Component): (r: nat) {
    if c.Rtp? then 1 else 2
  }

  /** The kind in the top byte, then the offset and count of candidates of the kind, then the component. */
  function LocalPriority(kind: Kind, count: nat, component: Component): (r: nat) {
    0x100_0000 * KindPreference(kind) + 0x100 * (PreferenceOffset(kind) + count) + (256 - ComponentId(component))
  }

  /** While there are not more candidates of a kind than fit, priorities have 31 bits and no two kinds mix. */
  lemma KindDecidesPriority(kind: Kind, count: nat, component: Component, kind': Kind, count': nat, component': Component)
    requires count <= 0x4000 && count' <= 0x4000
    ensures LocalPriority(kind, count, component) < TWO_31
    ensures KindPreference(kind) < KindPreference(kind') ==>
              LocalPriority(kind, count, component) < LocalPriority(kind', count', component')
    ensures LocalPriority(kind, count, component) == LocalPriority(kind', count', component') <==>
            kind == kind' && count == count' && component == component'
  {
  }

  predicate IsLocal(locals: seq<Option<Candidate>>, kind: Kind, base: Addr, addr: Addr) {
    exists i :: 0 <= i < |locals| && locals[i].Some? && locals[i].value.kind == kind
             && locals[i].value.base == base && locals[i].value.addr == addr
  }

  function AddLocal(a: Agent, sort: Sort, component: Component, kind: Kind, base: Addr, addr: Addr): (b: Agent)
    requires SortsByPriority(sort) && Valid(a)
    ensures Valid(b) && Quiet(a, b)
  {
    if IsLocal(a.table.locals, kind, base, addr) then a
    else
      var priority := LocalPriority(kind, CountKind(a.table.locals, kind, |a.table.locals|), component);
      var t := a.table.(locals := a.table.locals + [Some(Candidate(addr, kind, priority, component, base))]);
      MoreCandidatesKeep(a.table, t, a.pairs);
      FormPairsKeeps(t, sort, a.pairs, a.maxPairs);
      a.(table := t, pairs := FormPairs(t, sort, a.pairs, a.maxPairs))
  }

  /** A candidate line of the peer: its type if it is host or srflx, and its address unless it is a domain name. */
  datatype Offered = Offered(kind: Option<Kind>, udp: bool, component: nat, address: Option<Addr>, priority: nat)

  function OfferedComponent(o: Offered, rtcpMux: bool): (r: Option<Component>) {
    if o.component == 1 then Some(Rtp) else if o.component == 2 && !rtcpMux then Some(Rtcp) else None
  }

  /** The candidate line describes a candidate that the agent can use. */
  predicate Usable(o: Offered, rtcpMux: bool) {
    o.kind.Some? && o.udp && OfferedComponent(o, rtcpMux).Some? && o.address.Some?
  }

  function AddRemote(a: Agent, sort: Sort, o: Offered): (r: Outcome)
    requires SortsByPriority(sort) && Valid(a)
    ensures r.Done? ==> Valid(r.agent) && Quiet(a, r.agent) && r.agent.backlog == a.backlog
    ensures r.Panicked? <==> Usable(o, a.rtcpMux) && o.priority >= TWO_32
    ensures !r.Dangling?
  {
    var component := OfferedComponent(o, a.rtcpMux);
    if !Usable(o, a.rtcpMux) then Done(a)
    else if o.priority >= TWO_32 then Panicked
    else
      var c := Candidate(o.address.value, o.kind.value, o.priority, component.value, o.address.value);
      var t := a.table.(remotes := a.table.remotes + [c]);
      MoreCandidatesKeep(a.table, t, a.pairs);
      FormPairsKeeps(t, sort, a.pairs, a.maxPairs);
      Done(a.(table := t, pairs := FormPairs(t, sort, a.pairs, a.maxPairs)))
  }

  lemma MoreCandidatesKeep(t: Table, u: Table, ps: seq<Pair>)
    requires Entries(t, ps) && t.locals <= u.locals && t.remotes <= u.remotes && t.controlling == u.controlling
    ensures Entries(u, ps)
  {
    forall i | 0 <= i < |ps|
      ensures Fits(u, ps[i])
    {
      assert Fits(t, ps[i]);
    }
  }

  // ---------- nomination ----------

  predicate Nominated(ps: seq<Pair>, component: Component) {
    exists i :: 0 <= i < |ps| && ps[i].nominated && ps[i].component == component
  }

  predicate AnyNominated(ps: seq<Pair>) {
    exists i :: 0 <= i < |ps| && ps[i].nominated
  }

  /** A controlled agent only considers pairs for which the peer has asked. */
  predicate Nominable(p: Pair, component: Component, controlling: bool) {
    p.component == component && p.state.Succeeded? && (controlling || p.receivedUse)
  }

  /** The last of the nominable pairs with the highest priority, among the first n. */
  function Best(ps: seq<Pair>, component: Component, controlling: bool, n: nat): (r: Option<nat>)
    requires n <= |ps|
    ensures r.Some? ==> r.value < n && Nominable(ps[r.value], component, controlling)
    ensures forall i :: 0 <= i < n && Nominable(ps[i], component, controlling) ==> r.Some? && ps[i].priority <= ps[r.value].priority
  {
    if n == 0 then None
    else
      var b := Best(ps, component, controlling, n - 1);
      if Nominable(ps[n - 1], component, controlling) && (b.None? || ps[b.value].priority <= ps[n - 1].priority) then Some(n - 1)
      else b
  }

  predicate AlreadyNominated(a: Agent, component: Component) {
    if a.table.controlling then Nominated(a.pairs, component) else AnyNominated(a.pairs)
  }

  function RemoteAddr(a: Agent, p: Pair): (r: Addr)
    requires p.remote < |a.table.remotes|
  {
    a.table.remotes[p.remote].addr
  }

  function Nominate(a: Agent, component: Component): (b: Agent)
    requires Valid(a)
    ensures Valid(b) && Quiet(a, b)
  {
    var best := Best(a.pairs, component, a.table.controlling, |a.pairs|);
    if AlreadyNominated(a, component) || best.None? then a
    else
      var p := a.pairs[best.value];
      UpdateKeeps(a.table, a.pairs, best.value, p.(nominated := true));
      assert Fits(a.table, p);
      var b := a.(pairs := a.pairs[best.value := p.(nominated := true)]);
      if a.table.controlling then b.(triggered := [(p.local, p.remote)] + b.triggered)
      else b.Emit(UseAddr(component, RemoteAddr(a, p)))
  }

  function PollNomination(a: Agent): (b: Agent)
    requires Valid(a)
    ensures Valid(b) && Quiet(a, b)
  {
    var b := Nominate(a, Rtp);
    if b.rtcpMux then b else Nominate(b, Rtcp)
  }

  // ---------- polling ----------

  function RetransmitPair(p: Pair, now: int): (r: Pair) {
    if !p.state.InProgress? then p
    else
      var timer := StunTimer.Poll(StunTimer.DEFAULTS, p.state.check.timer, now);
      p.(state := if timer.GivenUp? then PairState.Failed else InProgress(p.state.check.(timer := timer)))
  }

  predicate Resent(p: Pair, now: int) {
    p.state.InProgress? && StunTimer.Resends(StunTimer.DEFAULTS, p.state.check.timer, now)
  }

  function CheckEvent(p: Pair): (r: Event)
    requires p.state.InProgress?
  {
    SendData(p.component, BindingRequest(p.state.check.request), p.state.check.source, p.state.check.target)
  }

  function Retransmitted(ps: seq<Pair>, now: int): (r: seq<Pair>)
    ensures |r| == |ps| && forall i :: 0 <= i < |ps| ==> r[i] == RetransmitPair(ps[i], now)
  {
    seq(|ps|, i requires 0 <= i < |ps| => RetransmitPair(ps[i], now))
  }

  function ResendEvents(ps: seq<Pair>, now: int, n: nat): (es: seq<Event>)
    requires n <= |ps|
    ensures forall i :: 0 <= i < |es| ==> es[i].SendData?
  {
    if n == 0 then []
    else ResendEvents(ps, now, n - 1) + if Resent(ps[n - 1], now) then [CheckEvent(ps[n - 1])] else []
  }

  /** Only the states of pairs change. */
  lemma StatesKeep(t: Table, ps: seq<Pair>, qs: seq<Pair>)
    requires Checklist(t, ps) && |qs| == |ps| && forall i :: 0 <= i < |ps| ==> qs[i] == ps[i].(state := qs[i].state)
    ensures Checklist(t, qs)
  {
    forall i, j | 0 <= i < j < |qs|
      ensures Apart(qs[i], qs[j])
    {
      assert Apart(ps[i], ps[j]);
    }
    forall i | 0 <= i < |qs|
      ensures Fits(t, qs[i])
    {
      assert Fits(t, ps[i]);
    }
  }

  function PollRetransmit(a: Agent, now: int): (b: Agent)
    requires Valid(a)
    ensures Valid(b) && Quiet(a, b)
  {
    StatesKeep(a.table, a.pairs, Retransmitted(a.pairs, now));
    a.(pairs := Retransmitted(a.pairs, now), events := a.events + ResendEvents(a.pairs, now, |a.pairs|))
  }

  predicate HasNomination(ps: seq<Pair>, component: Component) {
    exists i :: 0 <= i < |ps| && ps[i].nominated && ps[i].state.Succeeded? && ps[i].component == component
  }

  predicate HasPending(ps: seq<Pair>, component: Component) {
    exists i :: 0 <= i < |ps| && (ps[i].state.Waiting? || ps[i].state.InProgress?) && ps[i].component == component
  }

  /** Every component that is needed has a nominated pair whose check succeeded. */
  predicate AllNominated(a: Agent) {
    HasNomination(a.pairs, Rtp) && (a.rtcpMux || HasNomination(a.pairs, Rtcp))
  }

  predicate StillPossible(a: Agent) {
    HasPending(a.pairs, Rtp) && (a.rtcpMux || HasPending(a.pairs, Rtcp))
  }

  function SetConnection(a: Agent, c: Connection): (r: Agent) {
    if a.connection == c then a else a.Emit(ConnectionStateChanged(a.connection, c)).(connection := c)
  }

  function PollState(a: Agent): (b: Agent)
    ensures Valid(a) ==> Valid(b)
  {
    if AllNominated(a) then SetConnection(a, Connected)
    else if !StillPossible(a) then SetConnection(a, Unreachable)
    else match a.connection
      case New => SetConnection(a, Checking)
      case Connected => SetConnection(a, Disconnected)
      case _ => a
  }

  function FindPair(ps: seq<Pair>, l: nat, r: nat, i: nat): (k: nat)
    requires i <= |ps|
    ensures i <= k <= |ps| && (k < |ps| ==> ps[k].local == l && ps[k].remote == r)
    ensures forall j :: i <= j < k ==> !(ps[j].local == l && ps[j].remote == r)
    decreases |ps| - i
  {
    if i == |ps| || (ps[i].local == l && ps[i].remote == r) then i else FindPair(ps, l, r, i + 1)
  }

  function FindWaiting(ps: seq<Pair>, i: nat): (k: nat)
    requires i <= |ps|
    ensures i <= k <= |ps| && (k < |ps| ==> ps[k].state.Waiting?) && forall j :: i <= j < k ==> !ps[j].state.Waiting?
    decreases |ps| - i
  {
    if i == |ps| || ps[i].state.Waiting? then i else FindWaiting(ps, i + 1)
  }

  /** The pair to check next: the front of the triggered queue if the pair still exists, or the first that waits. */
  function NextCheck(a: Agent): (k: nat)
    ensures k <= |a.pairs|
  {
    var found := if a.triggered == [] then |a.pairs| else FindPair(a.pairs, a.triggered[0].0, a.triggered[0].1, 0);
    if found < |a.pairs| then found else FindWaiting(a.pairs, 0)
  }

  function CheckFor(a: Agent, p: Pair, now: int, tid: nat): (r: Check)
    requires a.table.Live(p.local, p.remote)
  {
    var local := a.table.locals[p.local].value;
    var request := Request(tid, local.priority, a.table.controlling, a.tie, p.nominated);
    Check(request, StunTimer.Started(StunTimer.DEFAULTS, now), local.base.ip, RemoteAddr(a, p))
  }

  function StartCheck(a: Agent, now: int, tid: nat): (b: Agent)
    requires Valid(a)
    ensures Valid(b) && Quiet(a, b)
  {
    var k := NextCheck(a);
    var b := a.(triggered := if a.triggered == [] then [] else a.triggered[1..]);
    if k == |a.pairs| then b
    else
      assert Fits(a.table, a.pairs[k]);
      var p := a.pairs[k].(state := InProgress(CheckFor(a, a.pairs[k], now, tid)));
      UpdateKeeps(a.table, a.pairs, k, p);
      b.(pairs := a.pairs[k := p]).Emit(CheckEvent(p))
  }

  predicate MayStartCheck(a: Agent, now: int) {
    a.remoteKnown && (a.lastTrigger.None? || a.lastTrigger.value + CHECK_INTERVAL <= now)
  }

  function Poll(a: Agent, now: int, tid: nat): (b: Agent)
    requires Valid(a)
    ensures Valid(b)
  {
    var b := PollNomination(PollState(PollRetransmit(a, now)));
    if MayStartCheck(b, now) then StartCheck(b.(lastTrigger := Some(now)), now, tid) else b
  }

  // ---------- receiving ----------

  function FindCheck(ps: seq<Pair>, tid: nat, i: nat): (k: nat)
    requires i <= |ps|
    ensures i <= k <= |ps| && (k < |ps| ==> ps[k].state.InProgress? && ps[k].state.check.request.tid == tid)
    decreases |ps| - i
  {
    if i == |ps| || (ps[i].state.InProgress? && ps[i].state.check.request.tid == tid) then i else FindCheck(ps, tid, i + 1)
  }

  /** The response comes from where the request went. */
  predicate SourceFits(c: Check, pkt: Packet) {
    pkt.source == c.target
  }

  /** The response goes to where the request came from. */
  predicate DestinationFits(c: Check, pkt: Packet) {
    pkt.destination.ip == c.source
  }

  predicate IsSymmetric(c: Check, pkt: Packet) {
    SourceFits(c, pkt) || DestinationFits(c, pkt)
  }

  /** The answered pair succeeds, and its address is used if the check nominated it; or it fails. */
  function Answered(a: Agent, k: nat, symmetric: bool): (b: Agent)
    requires Valid(a) && k < |a.pairs|
    ensures Valid(b) && Quiet(a, b)
  {
    var p := a.pairs[k];
    assert Fits(a.table, p);
    var q := if symmetric then p.(state := Succeeded) else p.(state := PairState.Failed, nominated := false);
    UpdateKeeps(a.table, a.pairs, k, q);
    var b := a.(pairs := a.pairs[k := q]);
    if symmetric && p.nominated then b.Emit(UseAddr(a.table.locals[p.local].value.component, RemoteAddr(a, p))) else b
  }

  function ReceiveSuccess(a: Agent, sort: Sort, pkt: Packet): (b: Agent)
    requires SortsByPriority(sort) && Valid(a) && pkt.message.SuccessMessage?
    ensures Valid(b) && Quiet(a, b)
  {
    var k := FindCheck(a.pairs, pkt.message.tid, 0);
    if !a.remoteKnown then a.(backlog := a.backlog + [pkt])
    else if !pkt.authentic || k == |a.pairs| then a
    else
      var p := a.pairs[k];
      assert Fits(a.table, p);
      var b := Answered(a, k, IsSymmetric(p.state.check, pkt));
      var mapped := pkt.message.mapped;
      if mapped.Some? && mapped.value != a.table.locals[p.local].value.addr
      then AddLocal(b, sort, p.component, PeerReflexive, pkt.destination, mapped.value) else b
  }

  /** A change of role recomputes and sorts all priorities. */
  function TakeRole(a: Agent, sort: Sort, controlling: bool): (b: Agent)
    requires SortsByPriority(sort) && Valid(a)
    ensures Valid(b) && Quiet(a, b)
  {
    RecomputeKeeps(a.table, sort, a.pairs, controlling);
    var t := a.table.(controlling := controlling);
    a.(table := t, pairs := sort(Recomputed(t, a.pairs)))
  }

  function ToldRole(role: Option<Roles.Role>, controlling: bool): (r: bool) {
    if role.None? then controlling else role.value.Controlled?
  }

  function ReceiveError(a: Agent, sort: Sort, pkt: Packet): (b: Agent)
    requires SortsByPriority(sort) && Valid(a) && pkt.message.ErrorMessage?
    ensures Valid(b) && Quiet(a, b)
  {
    var k := FindCheck(a.pairs, pkt.message.tid, 0);
    if !a.remoteKnown then a.(backlog := a.backlog + [pkt])
    else if !pkt.authentic || k == |a.pairs| || pkt.message.code != Some(Roles.ROLE_CONFLICT) then a
    else
      var p := a.pairs[k];
      UpdateKeeps(a.table, a.pairs, k, p.(state := Waiting));
      var b := a.(pairs := a.pairs[k := p.(state := Waiting)], triggered := a.triggered + [(p.local, p.remote)]);
      TakeRole(b, sort, ToldRole(pkt.message.role, a.table.controlling))
  }

  /** The host candidate with this address. */
  function FindHost(locals: seq<Option<Candidate>>, addr: Addr, i: nat): (k: nat)
    requires i <= |locals|
    ensures i <= k <= |locals| && (k < |locals| ==> locals[k].Some? && locals[k].value.kind.Host? && locals[k].value.addr == addr)
    decreases |locals| - i
  {
    if i == |locals| || (locals[i].Some? && locals[i].value.kind.Host? && locals[i].value.addr == addr) then i
    else FindHost(locals, addr, i + 1)
  }

  function FindRemote(remotes: seq<Candidate>, addr: Addr, i: nat): (k: nat)
    requires i <= |remotes|
    ensures i <= k <= |remotes| && (k < |remotes| ==> remotes[k].addr == addr)
    ensures forall j :: i <= j < k ==> remotes[j].addr != addr
    decreases |remotes| - i
  {
    if i == |remotes| || remotes[i].addr == addr then i else FindRemote(remotes, addr, i + 1)
  }

  /** The remote candidate a request comes from; one that is not known yet becomes peer-reflexive, and is paired. */
  function LearnRemote(a: Agent, sort: Sort, l: nat, pkt: Packet): (b: Agent)
    requires SortsByPriority(sort) && Valid(a) && pkt.message.RequestMessage? && pkt.message.priority.Some?
    requires l < |a.table.locals| && a.table.locals[l].Some?
    ensures Valid(b) && Quiet(a, b)
  {
    var r := |a.table.remotes|;
    if FindRemote(a.table.remotes, pkt.source, 0) < r then a
    else
      var c := Candidate(pkt.source, PeerReflexive, pkt.message.priority.value, pkt.component, pkt.source);
      var t := a.table.(remotes := a.table.remotes + [c]);
      MoreCandidatesKeep(a.table, t, a.pairs);
      AddPairKeeps(t, sort, a.pairs, l, r);
      UnlessThere(t, sort, a.pairs, l, r);
      a.(table := t, pairs := AddPair(t, sort, a.pairs, l, r), triggered := a.triggered + [(l, r)])
  }

  lemma UnlessThere(t: Table, sort: Sort, ps: seq<Pair>, l: nat, r: nat)
    requires SortsByPriority(sort) && Entries(t, ps) && Ascending(ps) && t.Live(l, r)
    ensures Checklist(t, AddPair(t, sort, ps, l, r))
  {
    AddPairKeeps(t, sort, ps, l, r);
  }

  /** What the agent does about the role in a request; None if it only replies with a conflict. */
  function SettleRole(a: Agent, sort: Sort, pkt: Packet): (b: Option<Agent>)
    requires SortsByPriority(sort) && Valid(a) && pkt.message.RequestMessage?
    ensures b.Some? ==> Valid(b.value) && Quiet(a, b.value)
  {
    match Roles.Decide(a.table.controlling, a.tie, pkt.message.role)
    case Keep => Some(a)
    case Refuse => None
    case Switch => Some(TakeRole(a, sort, !a.table.controlling))
  }

  function RoleErrorEvent(a: Agent, pkt: Packet): (r: Event) {
    var role := if a.table.controlling then Roles.Controlling(a.tie) else Roles.Controlled(a.tie);
    SendData(pkt.component, RoleError(pkt.message.tid, role), pkt.destination.ip, pkt.source)
  }

  /** The checked pair notes whether the peer nominates it, and the request is answered. */
  function Acknowledge(a: Agent, k: nat, pkt: Packet): (b: Agent)
    requires Valid(a) && pkt.message.RequestMessage? && k < |a.pairs|
    ensures Valid(b) && Quiet(a, b)
  {
    var p := a.pairs[k].(receivedUse := pkt.message.useCandidate);
    assert Fits(a.table, a.pairs[k]);
    UpdateKeeps(a.table, a.pairs, k, p);
    var b := a.(pairs := a.pairs[k := p])
      .Emit(SendData(p.component, SuccessResponse(pkt.message.tid, pkt.source), a.table.locals[p.local].value.base.ip, pkt.source));
    if pkt.message.useCandidate then PollNomination(b) else b
  }

  function ReceiveRequest(a: Agent, sort: Sort, pkt: Packet): (o: Outcome)
    requires SortsByPriority(sort) && Valid(a) && pkt.message.RequestMessage?
    ensures o.Done? ==> Valid(o.agent) && Quiet(a, o.agent)
    ensures !o.Dangling?
  {
    if !a.remoteKnown then Done(a.(backlog := a.backlog + [pkt]))
    else if !pkt.authentic then Done(a)
    else if pkt.message.priority.None? then Panicked
    else
      var settled := SettleRole(a, sort, pkt);
      if settled.None? then Done(a.Emit(RoleErrorEvent(a, pkt)))
      else
        var b := settled.value;
        var l := FindHost(b.table.locals, pkt.destination, 0);
        if l == |b.table.locals| then Done(b)
        else
          var c := LearnRemote(b, sort, l, pkt);
          var k := FindPair(c.pairs, l, FindRemote(c.table.remotes, pkt.source, 0), 0);
          if k == |c.pairs| then Panicked else Done(Acknowledge(c, k, pkt))
  }

  function Receive(a: Agent, sort: Sort, pkt: Packet): (o: Outcome)
    requires SortsByPriority(sort) && Valid(a)
    ensures o.Done? ==> Valid(o.agent) && Quiet(a, o.agent)
    ensures !o.Dangling?
  {
    match pkt.message
    case RequestMessage(_, _, _, _) => ReceiveRequest(a, sort, pkt)
    case SuccessMessage(_, _) => Done(ReceiveSuccess(a, sort, pkt))
    case ErrorMessage(_, _, _) => Done(ReceiveError(a, sort, pkt))
  }

  // ---------- remote data ----------

  /** With RTCP on the RTP component, the other local candidates go; pairs that use one would dangle. */
  predicate SurvivesMux(a: Agent, rtcpMux: bool) {
    rtcpMux ==> forall i :: 0 <= i < |a.pairs| ==> a.pairs[i].component.Rtp?
  }

  /** Before there are remote candidates, there are no pairs to dangle. */
  lemma NothingToDangle(a: Agent, rtcpMux: bool)
    requires Valid(a) && a.table.remotes == []
    ensures SurvivesMux(a, rtcpMux)
  {
    assert forall i :: 0 <= i < |a.pairs| ==> Fits(a.table, a.pairs[i]);
  }

  function OnlyRtp(locals: seq<Option<Candidate>>): (r: seq<Option<Candidate>>)
    ensures |r| == |locals|
    ensures forall i :: 0 <= i < |r| ==> r[i] == if locals[i].Some? && locals[i].value.component.Rtcp? then None else locals[i]
  {
    seq(|locals|, i requires 0 <= i < |locals| => if locals[i].Some? && locals[i].value.component.Rtcp? then None else locals[i])
  }

  function AddRemotes(a: Agent, sort: Sort, offers: seq<Offered>, n: nat): (o: Outcome)
    requires SortsByPriority(sort) && Valid(a) && n <= |offers|
    ensures o.Done? ==> Valid(o.agent) && Quiet(a, o.agent) && o.agent.backlog == a.backlog
    ensures !o.Dangling?
  {
    if n == 0 then Done(a)
    else
      var o := AddRemotes(a, sort, offers, n - 1);
      if o.Done? then AddRemote(o.agent, sort, offers[n - 1]) else o
  }

  function Replay(a: Agent, sort: Sort, pkts: seq<Packet>, n: nat): (o: Outcome)
    requires SortsByPriority(sort) && Valid(a) && n <= |pkts|
    ensures o.Done? ==> Valid(o.agent) && Quiet(a, o.agent)
    ensures !o.Dangling?
  {
    if n == 0 then Done(a)
    else
      var o := Replay(a, sort, pkts, n - 1);
      if o.Done? then Receive(o.agent, sort, pkts[n - 1]) else o
  }

  function WithoutRtcp(a: Agent, rtcpMux: bool): (b: Agent)
    requires Valid(a) && SurvivesMux(a, rtcpMux)
    ensures Valid(b) && Quiet(a, b)
  {
    var t := if rtcpMux then a.table.(locals := OnlyRtp(a.table.locals)) else a.table;
    RemovalKeeps(a.table, t, a.pairs);
    a.(rtcpMux := rtcpMux, table := t)
  }

  lemma RemovalKeeps(t: Table, u: Table, ps: seq<Pair>)
    requires Checklist(t, ps) && (u == t || u == t.(locals := OnlyRtp(t.locals)))
    requires u != t ==> forall i :: 0 <= i < |ps| ==> ps[i].component.Rtp?
    ensures Checklist(u, ps)
  {
    forall i | 0 <= i < |ps|
      ensures Fits(u, ps[i])
    {
      assert Fits(t, ps[i]);
    }
  }

  /** The peer's credentials and candidates arrive: the agent before it handles the messages that had to wait for them. */
  function Prepared(a: Agent, sort: Sort, offers: seq<Offered>, rtcpMux: bool): (o: Outcome)
    requires SortsByPriority(sort) && Valid(a)
    ensures o.Done? ==> Valid(o.agent) && Quiet(a, o.agent)
    ensures o.Dangling? ==> !SurvivesMux(a, rtcpMux)
  {
    if !SurvivesMux(a, rtcpMux) then Dangling
    else
      var o := AddRemotes(WithoutRtcp(a, rtcpMux).(remoteKnown := true), sort, offers, |offers|);
      if o.Done? then Done(o.agent.(backlog := [])) else Panicked
  }

  function SetRemoteData(a: Agent, sort: Sort, offers: seq<Offered>, rtcpMux: bool): (o: Outcome)
    requires SortsByPriority(sort) && Valid(a)
    ensures o.Done? ==> Valid(o.agent) && Quiet(a, o.agent)
  {
    var o := Prepared(a, sort, offers, rtcpMux);
    if o.Done? then Replay(o.agent, sort, a.backlog, |a.backlog|) else o
  }
}
