/** What holds in every run of an ICE agent, and what single operations mean for their caller. */
module IceRuns {

  import opened IceChecklist
  import opened IceState
  import opened Wrappers
  import Roles = IceRoles
  import StunTimer

  // ---------- single operations ----------

  /** At most one pair of a component is nominated. */
  lemma OneNomination(a: Agent, i: nat, j: nat)
    requires Valid(a) && i < |a.pairs| && j < |a.pairs| && a.pairs[i].nominated && a.pairs[j].nominated
    requires a.pairs[i].component == a.pairs[j].component
    ensures i == j
  {
    assert i < j ==> Apart(a.pairs[i], a.pairs[j]);
    assert j < i ==> Apart(a.pairs[j], a.pairs[i]);
  }

  /** After a poll the agent is connected exactly if every component had a nominated pair whose check succeeded. */
  lemma PollConnectsExactly(a: Agent, now: int, tid: nat)
    requires Valid(a)
    ensures Poll(a, now, tid).connection == Connected <==> AllNominated(a)
  {
    hide Checklist, PollRetransmit, PollNomination, StartCheck, AllNominated;
    var b := PollRetransmit(a, now);
    RetransmitKeepsNomination(a, now);
    ConnectedExactly(b);
    var c := PollNomination(PollState(b));
    var d := c.(lastTrigger := Some(now));
    assert Quiet(d, StartCheck(d, now, tid));
  }

  lemma RetransmitKeepsNomination(a: Agent, now: int)
    requires Valid(a)
    ensures AllNominated(PollRetransmit(a, now)) <==> AllNominated(a)
  {
    hide Checklist, Quiet, ResendEvents;
    var b := PollRetransmit(a, now);
    assert forall i :: 0 <= i < |a.pairs| ==> b.pairs[i] == RetransmitPair(a.pairs[i], now);
    forall c: Component
      ensures HasNomination(b.pairs, c) <==> HasNomination(a.pairs, c)
    {
      if HasNomination(a.pairs, c) {
        var i :| 0 <= i < |a.pairs| && a.pairs[i].nominated && a.pairs[i].state.Succeeded? && a.pairs[i].component == c;
        assert b.pairs[i] == a.pairs[i];
      }
      if HasNomination(b.pairs, c) {
        var i :| 0 <= i < |b.pairs| && b.pairs[i].nominated && b.pairs[i].state.Succeeded? && b.pairs[i].component == c;
        assert b.pairs[i] == a.pairs[i];
      }
    }
  }

  lemma ConnectedExactly(a: Agent)
    ensures PollState(a).connection == Connected <==> AllNominated(a)
  {
    hide AllNominated, StillPossible;
  }

  /** No entry of the triggered queue names a pair: then the waiting pair of lowest priority is checked next. */
  lemma LowestWaitingIsChecked(a: Agent, i: nat)
    requires Valid(a) && a.triggered == [] && i < |a.pairs| && a.pairs[i].state.Waiting?
    ensures var k := NextCheck(a);
            k < |a.pairs| && a.pairs[k].state.Waiting? && a.pairs[k].priority <= a.pairs[i].priority
  {
  }

  ghost predicate Marks(a: Agent, b: Agent, component: Component, k: nat) {
    && k < |a.pairs| && Nominable(a.pairs[k], component, a.table.controlling)
    && b.pairs == a.pairs[k := a.pairs[k].(nominated := true)]
  }

  /** Nominating marks one pair, and no nominable pair has a higher priority. */
  lemma BestIsNominated(a: Agent, component: Component, i: nat)
    requires Valid(a) && !AlreadyNominated(a, component)
    requires i < |a.pairs| && Nominable(a.pairs[i], component, a.table.controlling)
    ensures exists k: nat :: Marks(a, Nominate(a, component), component, k) && a.pairs[k].priority >= a.pairs[i].priority
  {
    var best := Best(a.pairs, component, a.table.controlling, |a.pairs|);
    assert Marks(a, Nominate(a, component), component, best.value);
  }

  /**
   A request makes the agent panic exactly if it has no priority, or arrives at a host candidate from a known peer
   address without a pair.
   */
  lemma PanicsExactly(a: Agent, sort: Sort, pkt: Packet)
    requires SortsByPriority(sort) && Valid(a) && pkt.message.RequestMessage?
    ensures ReceiveRequest(a, sort, pkt).Panicked? <==>
              && a.remoteKnown && pkt.authentic
              && (|| pkt.message.priority.None?
                  || (&& SettleRole(a, sort, pkt).Some?
                      && var (l, r) := (FindHost(a.table.locals, pkt.destination, 0), FindRemote(a.table.remotes, pkt.source, 0));
                      && l < |a.table.locals| && r < |a.table.remotes| && !HasPair(a.pairs, l, r)))
  {
    var settled := SettleRole(a, sort, pkt);
    if pkt.message.priority.Some? && settled.Some? {
      var b := settled.value;
      var l := FindHost(b.table.locals, pkt.destination, 0);
      SettleKeepsPairs(a, sort, pkt, l, FindRemote(a.table.remotes, pkt.source, 0));
      if l < |b.table.locals| {
        LearnedHasPair(b, sort, l, pkt);
      }
    }
  }

  /** A change of role changes neither candidates nor which of them are paired. */
  lemma SettleKeepsPairs(a: Agent, sort: Sort, pkt: Packet, l: nat, r: nat)
    requires SortsByPriority(sort) && Valid(a) && pkt.message.RequestMessage? && SettleRole(a, sort, pkt).Some?
    ensures var b := SettleRole(a, sort, pkt).value;
            && b.table.locals == a.table.locals && b.table.remotes == a.table.remotes
            && (HasPair(b.pairs, l, r) <==> HasPair(a.pairs, l, r))
  {
    var b := SettleRole(a, sort, pkt).value;
    if b != a {
      RecomputeKeeps(a.table, sort, a.pairs, b.table.controlling);
      var qs := Recomputed(b.table, a.pairs);
      if HasPair(a.pairs, l, r) {
        var i :| 0 <= i < |a.pairs| && a.pairs[i].local == l && a.pairs[i].remote == r;
        assert qs[i] in multiset(b.pairs);
      }
      if HasPair(b.pairs, l, r) {
        var i :| 0 <= i < |b.pairs| && b.pairs[i].local == l && b.pairs[i].remote == r;
        assert b.pairs[i] in multiset(qs);
      }
    }
  }

  lemma LearnedHasPair(a: Agent, sort: Sort, l: nat, pkt: Packet)
    requires SortsByPriority(sort) && Valid(a) && pkt.message.RequestMessage? && pkt.message.priority.Some?
    requires l < |a.table.locals| && a.table.locals[l].Some?
    ensures var b := LearnRemote(a, sort, l, pkt);
            var r := FindRemote(a.table.remotes, pkt.source, 0);
            && FindRemote(b.table.remotes, pkt.source, 0) == r
            && (r < |a.table.remotes| ==> b == a) && (r == |a.table.remotes| ==> HasPair(b.pairs, l, r))
  {
    var r := |a.table.remotes|;
    if FindRemote(a.table.remotes, pkt.source, 0) == r {
      var b := LearnRemote(a, sort, l, pkt);
      MoreCandidatesKeep(a.table, b.table, a.pairs);
      AddPairKeeps(b.table, sort, a.pairs, l, r);
      assert b.table.remotes[r].addr == pkt.source;
      assert forall j :: 0 <= j < r ==> b.table.remotes[j] == a.table.remotes[j];
    }
  }

  /** The pair has a check in progress with this transaction id. */
  predicate Checks(p: Pair, tid: nat) {
    p.state.InProgress? && p.state.check.request.tid == tid
  }

  ghost predicate Unused(ps: seq<Pair>, tid: nat) {
    forall i :: 0 <= i < |ps| ==> !Checks(ps[i], tid)
  }

  lemma NominateStaysUnused(a: Agent, component: Component, tid: nat)
    requires Valid(a) && Unused(a.pairs, tid)
    ensures Unused(Nominate(a, component).pairs, tid) && Nominate(a, component).table == a.table
  {
  }

  /**
   A poll starts at most one check, with a fresh transaction id, on a pair it can only have been triggered for or
   that was waiting: the request tells the role, and asks for nomination exactly if the pair is nominated; it goes
   to the remote candidate, and everything else is as without the check.
   */
  lemma AtMostOneNewCheck(a: Agent, now: int, tid: nat)
    requires Valid(a) && Unused(a.pairs, tid)
    ensures var b, c := Poll(a, now, tid), PollNomination(PollState(PollRetransmit(a, now)));
            && |b.pairs| == |c.pairs| && b.table == a.table == c.table
            && forall i :: 0 <= i < |b.pairs| ==>
                 if Checks(b.pairs[i], tid) then MayStartCheck(c, now) && i == NextCheck(c) && StartedFrom(c, b.pairs[i], c.pairs[i], now)
                 else b.pairs[i] == c.pairs[i]
  {
    hide Nominate, Checklist, Checks, CheckEvent;
    var r := PollRetransmit(a, now);
    RetransmitStaysUnused(a, now, tid);
    var s := PollState(r);
    NominateStaysUnused(s, Rtp, tid);
    NominateStaysUnused(Nominate(s, Rtp), Rtcp, tid);
    var c := PollNomination(s);
    if MayStartCheck(c, now) {
      NewCheck(c.(lastTrigger := Some(now)), now, tid);
    }
  }

  lemma RetransmitStaysUnused(a: Agent, now: int, tid: nat)
    requires Valid(a) && Unused(a.pairs, tid)
    ensures Unused(PollRetransmit(a, now).pairs, tid) && Unused(PollState(PollRetransmit(a, now)).pairs, tid)
  {
    hide Checklist, Quiet, ResendEvents, PollState;
    PollStateChanges(PollRetransmit(a, now));
  }

  /** The pair before and after its check was started. */
  ghost predicate StartedFrom(a: Agent, p: Pair, before: Pair, now: int) {
    && p == before.(state := p.state) && p.state.InProgress? && a.table.Live(p.local, p.remote)
    && p.state.check.request.controlling == a.table.controlling && p.state.check.request.tie == a.tie
    && p.state.check.request.useCandidate == before.nominated
    && p.state.check.target == a.table.remotes[p.remote].addr
    && p.state.check.timer == StunTimer.Started(StunTimer.DEFAULTS, now)
  }

  lemma NewCheck(a: Agent, now: int, tid: nat)
    requires Valid(a) && Unused(a.pairs, tid)
    ensures var b := StartCheck(a, now, tid);
            && |b.pairs| == |a.pairs| && b.table == a.table
            && forall i :: 0 <= i < |b.pairs| ==>
                 if Checks(b.pairs[i], tid) then i == NextCheck(a) && StartedFrom(a, b.pairs[i], a.pairs[i], now)
                 else b.pairs[i] == a.pairs[i]
  {
    hide NextCheck, Checklist;
    var k := NextCheck(a);
    if k < |a.pairs| {
      assert Fits(a.table, a.pairs[k]) by {
        FitsAt(a, k);
      }
    }
  }

  lemma FitsAt(a: Agent, k: nat)
    requires Valid(a) && k < |a.pairs|
    ensures Fits(a.table, a.pairs[k])
  {
  }

  // ---------- the role, in the model of two agents ----------

  function RoleAgent(a: Agent, pwd: string, remotePwd: string): (r: Roles.Agent) {
    Roles.Agent(a.table.controlling, a.tie, pwd, remotePwd)
  }

  /** The same message there, signed with the right password exactly if it is authentic here. */
  function RolePacket(pkt: Packet, pwd: string, remotePwd: string): (r: Roles.Packet) {
    var key := if pkt.message.RequestMessage? then pwd else remotePwd;
    var signed := if pkt.authentic then key else key + "?";
    match pkt.message
    case RequestMessage(_, _, _, role) => Roles.Packet(Roles.Request, signed, role, None)
    case SuccessMessage(_, _) => Roles.Packet(Roles.Success, signed, None, None)
    case ErrorMessage(_, code, role) => Roles.Packet(Roles.Error, signed, role, code)
  }

  /** Whatever an agent receives, its role is afterwards that of the model of two agents. */
  lemma RolesAreThoseOfTwoAgents(a: Agent, sort: Sort, pkt: Packet, pwd: string, remotePwd: string)
    requires SortsByPriority(sort) && Valid(a) && a.remoteKnown && Receive(a, sort, pkt).Done?
    ensures var known := FindCheck(a.pairs, pkt.message.tid, 0) < |a.pairs|;
            Receive(a, sort, pkt).agent.table.controlling
            == Roles.Receive(RoleAgent(a, pwd, remotePwd), RolePacket(pkt, pwd, remotePwd), known).0.controlling
  {
    hide Checklist, SortsByPriority, Nominate, AddLocal, LearnRemote, Acknowledge, Answered;
    match pkt.message {
      case RequestMessage(_, _, _, _) =>
        if pkt.authentic && pkt.message.priority.Some? && SettleRole(a, sort, pkt).Some? {
          var b := SettleRole(a, sort, pkt).value;
          var l := FindHost(b.table.locals, pkt.destination, 0);
          if l < |b.table.locals| {
            LearnKeepsRole(b, sort, l, pkt);
            var c := LearnRemote(b, sort, l, pkt);
            AcknowledgeKeepsRole(c, FindPair(c.pairs, l, FindRemote(c.table.remotes, pkt.source, 0), 0), pkt);
          }
        }
      case SuccessMessage(_, _) =>
        SuccessKeepsRole(a, sort, pkt);
      case ErrorMessage(_, _, _) =>
    }
  }

  lemma LearnKeepsRole(a: Agent, sort: Sort, l: nat, pkt: Packet)
    requires SortsByPriority(sort) && Valid(a) && pkt.message.RequestMessage? && pkt.message.priority.Some?
    requires l < |a.table.locals| && a.table.locals[l].Some?
    ensures LearnRemote(a, sort, l, pkt).table.controlling == a.table.controlling
  {
  }

  lemma AcknowledgeKeepsRole(a: Agent, k: nat, pkt: Packet)
    requires Valid(a) && pkt.message.RequestMessage?
    ensures k < |a.pairs| ==> Acknowledge(a, k, pkt).table.controlling == a.table.controlling
  {
  }

  lemma SuccessKeepsRole(a: Agent, sort: Sort, pkt: Packet)
    requires SortsByPriority(sort) && Valid(a) && pkt.message.SuccessMessage?
    ensures ReceiveSuccess(a, sort, pkt).table.controlling == a.table.controlling
  {
  }

  // ---------- the addresses the agent says to use ----------

  /** A nominated pair of the component has this remote address. */
  ghost predicate Names(a: Agent, component: Component, address: Addr) {
    exists k :: 0 <= k < |a.pairs| && a.pairs[k].nominated && a.pairs[k].component == component
                && a.pairs[k].remote < |a.table.remotes| && a.table.remotes[a.pairs[k].remote].addr == address
  }

  /** All addresses that are announced on the way from a to b are those of pairs nominated in c. */
  ghost predicate Announces(a: Agent, b: Agent, c: Agent) {
    forall i :: |a.events| <= i < |b.events| && b.events[i].UseAddr? ==> Names(c, b.events[i].component, b.events[i].address)
  }

  /** What is nominated stays so, with its component and address. */
  ghost predicate StaysNominated(a: Agent, b: Agent) {
    forall component, address :: Names(a, component, address) ==> Names(b, component, address)
  }

  lemma SameNominationsStay(a: Agent, b: Agent)
    requires b.table == a.table && |b.pairs| == |a.pairs|
    requires forall k :: 0 <= k < |a.pairs| && a.pairs[k].nominated ==>
               b.pairs[k].nominated && b.pairs[k].component == a.pairs[k].component && b.pairs[k].remote == a.pairs[k].remote
    ensures StaysNominated(a, b)
  {
    forall c, d | Names(a, c, d)
      ensures Names(b, c, d)
    {
      var k :| 0 <= k < |a.pairs| && a.pairs[k].nominated && a.pairs[k].component == c
               && a.pairs[k].remote < |a.table.remotes| && a.table.remotes[a.pairs[k].remote].addr == d;
      assert b.pairs[k].nominated;
    }
  }

  lemma NominateAnnounces(a: Agent, component: Component)
    requires Valid(a)
    ensures Announces(a, Nominate(a, component), Nominate(a, component)) && StaysNominated(a, Nominate(a, component))
  {
    hide StaysNominated;
    var b := Nominate(a, component);
    var best := Best(a.pairs, component, a.table.controlling, |a.pairs|);
    SameNominationsStay(a, b);
    if b != a {
      assert Fits(a.table, a.pairs[best.value]);
      assert b.pairs[best.value].nominated && b.pairs[best.value].component == component;
    }
  }

  lemma PollNominationAnnounces(a: Agent)
    requires Valid(a)
    ensures Announces(a, PollNomination(a), PollNomination(a)) && StaysNominated(a, PollNomination(a))
  {
    hide Nominate, Names;
    var b := Nominate(a, Rtp);
    NominateAnnounces(a, Rtp);
    NominateAnnounces(b, Rtcp);
  }

  /** Every address announced while polling is that of a pair that is nominated for its component afterwards. */
  lemma PollAnnouncesNominated(a: Agent, now: int, tid: nat)
    requires Valid(a)
    ensures Announces(a, Poll(a, now, tid), Poll(a, now, tid))
  {
    hide PollState, PollNomination, StartCheck, Names, StaysNominated, Checklist;
    var b := PollState(PollRetransmit(a, now));
    PollStateIsSilent(PollRetransmit(a, now));
    PollNominationAnnounces(b);
    var c := PollNomination(b);
    if MayStartCheck(c, now) {
      var d := c.(lastTrigger := Some(now));
      SameNominationsStay(c, d);
      StartCheckIsSilent(d, now, tid);
      StaysTransitively(c, d, StartCheck(d, now, tid));
      AnnouncesOn(a, b, c, StartCheck(d, now, tid));
    } else {
      SameNominationsStay(c, c);
      AnnouncesOn(a, b, c, c);
    }
  }

  lemma StaysTransitively(a: Agent, b: Agent, c: Agent)
    requires StaysNominated(a, b) && StaysNominated(b, c)
    ensures StaysNominated(a, c)
  {
  }

  lemma PollStateIsSilent(a: Agent)
    ensures var b := PollState(a);
            |a.events| <= |b.events| && (forall i :: 0 <= i < |a.events| ==> b.events[i] == a.events[i])
            && forall i :: |a.events| <= i < |b.events| ==> b.events[i].ConnectionStateChanged?
  {
  }

  lemma StartCheckIsSilent(a: Agent, now: int, tid: nat)
    requires Valid(a)
    ensures var b := StartCheck(a, now, tid);
            StaysNominated(a, b) && forall i :: |a.events| <= i < |b.events| ==> b.events[i].SendData?
  {
    hide Names, StaysNominated, NextCheck, CheckFor;
    var b := StartCheck(a, now, tid);
    SameNominationsStay(a, b);
  }

  lemma AnnouncesOn(a: Agent, b: Agent, c: Agent, d: Agent)
    requires |a.events| <= |b.events| <= |c.events| <= |d.events|
    requires forall i :: 0 <= i < |c.events| ==> d.events[i] == c.events[i]
    requires forall i :: 0 <= i < |b.events| ==> c.events[i] == b.events[i]
    requires forall i :: |a.events| <= i < |b.events| ==> !b.events[i].UseAddr?
    requires Announces(b, c, c) && StaysNominated(c, d)
    requires forall i :: |c.events| <= i < |d.events| ==> !d.events[i].UseAddr?
    ensures Announces(a, d, d)
  {
    hide Names;
    forall i | |a.events| <= i < |d.events| && d.events[i].UseAddr?
      ensures Names(d, d.events[i].component, d.events[i].address)
    {
      assert d.events[i] == c.events[i];
    }
  }

  /** Every address announced while receiving is that of a pair that is nominated for its component before or after. */
  lemma ReceiveAnnouncesNominated(a: Agent, sort: Sort, pkt: Packet)
    requires SortsByPriority(sort) && Valid(a) && Receive(a, sort, pkt).Done?
    ensures var b := Receive(a, sort, pkt).agent; Announces(a, b, a) || Announces(a, b, b)
  {
    hide Names, StaysNominated, Checklist, Answered, AddLocal, LearnRemote, Acknowledge, TakeRole;
    match pkt.message {
      case SuccessMessage(tid, mapped) =>
        var k := FindCheck(a.pairs, tid, 0);
        if a.remoteKnown && pkt.authentic && k < |a.pairs| {
          var b := Answered(a, k, IsSymmetric(a.pairs[k].state.check, pkt));
          AnsweredAnnounces(a, k, IsSymmetric(a.pairs[k].state.check, pkt));
          AddLocalIsSilent(b, sort, a.pairs[k].component, PeerReflexive, pkt.destination, mapped);
        }
      case ErrorMessage(_, _, _) =>
        ErrorIsSilent(a, sort, pkt);
      case RequestMessage(_, _, _, _) =>
        SettleIsSilent(a, sort, pkt);
        var settled := SettleRole(a, sort, pkt);
        if a.remoteKnown && pkt.authentic && pkt.message.priority.Some? && settled.Some? {
          var l := FindHost(settled.value.table.locals, pkt.destination, 0);
          if l < |settled.value.table.locals| {
            var c := LearnRemote(settled.value, sort, l, pkt);
            LearnRemoteIsSilent(settled.value, sort, l, pkt);
            var k := FindPair(c.pairs, l, FindRemote(c.table.remotes, pkt.source, 0), 0);
            if k < |c.pairs| {
              AcknowledgeAnnounces(c, k, pkt);
            }
          }
        }
    }
  }

  lemma AnsweredAnnounces(a: Agent, k: nat, symmetric: bool)
    requires Valid(a) && k < |a.pairs|
    ensures Announces(a, Answered(a, k, symmetric), a)
  {
    assert Fits(a.table, a.pairs[k]);
  }

  lemma AddLocalIsSilent(a: Agent, sort: Sort, component: Component, kind: Kind, base: Addr, mapped: Option<Addr>)
    requires SortsByPriority(sort) && Valid(a)
    ensures mapped.Some? ==> AddLocal(a, sort, component, kind, base, mapped.value).events == a.events
  {
  }

  lemma ErrorIsSilent(a: Agent, sort: Sort, pkt: Packet)
    requires SortsByPriority(sort) && Valid(a) && pkt.message.ErrorMessage?
    ensures ReceiveError(a, sort, pkt).events == a.events
  {
  }

  lemma SettleIsSilent(a: Agent, sort: Sort, pkt: Packet)
    requires SortsByPriority(sort) && Valid(a) && pkt.message.RequestMessage?
    ensures SettleRole(a, sort, pkt).Some? ==> SettleRole(a, sort, pkt).value.events == a.events
  {
  }

  lemma LearnRemoteIsSilent(a: Agent, sort: Sort, l: nat, pkt: Packet)
    requires SortsByPriority(sort) && Valid(a) && pkt.message.RequestMessage? && pkt.message.priority.Some?
    requires l < |a.table.locals| && a.table.locals[l].Some?
    ensures LearnRemote(a, sort, l, pkt).events == a.events
  {
  }

  lemma AcknowledgeAnnounces(a: Agent, k: nat, pkt: Packet)
    requires Valid(a) && pkt.message.RequestMessage? && k < |a.pairs|
    ensures Announces(a, Acknowledge(a, k, pkt), Acknowledge(a, k, pkt))
  {
    hide Nominate, PollNomination, Names;
    var p := a.pairs[k].(receivedUse := pkt.message.useCandidate);
    assert Fits(a.table, a.pairs[k]);
    UpdateKeeps(a.table, a.pairs, k, p);
    var b := a.(pairs := a.pairs[k := p])
      .Emit(SendData(p.component, SuccessResponse(pkt.message.tid, pkt.source), a.table.locals[p.local].value.base.ip, pkt.source));
    assert Acknowledge(a, k, pkt) == if pkt.message.useCandidate then PollNomination(b) else b;
    PollNominationAnnounces(b);
  }

  // ---------- runs ----------

  datatype Op =
    | AddLocalOp(component: Component, kind: Kind, base: Addr, addr: Addr)
    | AddRemoteOp(offer: Offered)
    | SetRemoteOp(offers: seq<Offered>, rtcpMux: bool)
    | ReceiveOp(pkt: Packet)
    | PollOp(now: int, tid: nat)
    | PopOp

  /**
   The agent, the events its user has taken, the times at which it started a new check, and all states it has been
   in, also between two messages that had to wait for the peer's credentials.
   */
  datatype Trace = Trace(agent: Agent, taken: seq<Event>, starts: seq<int>, seen: seq<Agent>)

  function Visit(t: Trace, a: Agent): (r: Trace) {
    t.(agent := a, seen := t.seen + [a])
  }

  function VisitIfDone(t: Trace, o: Outcome): (r: Option<Trace>) {
    if o.Done? then Some(Visit(t, o.agent)) else None
  }

  function ReplayTrace(t: Trace, sort: Sort, pkts: seq<Packet>, n: nat): (r: Option<Trace>)
    requires SortsByPriority(sort) && Valid(t.agent) && n <= |pkts|
    ensures var o := Replay(t.agent, sort, pkts, n); r.Some? == o.Done? && (r.Some? ==> Valid(r.value.agent) && r.value.agent == o.agent)
  {
    if n == 0 then Some(t)
    else
      var r := ReplayTrace(t, sort, pkts, n - 1);
      if r.None? then None else VisitIfDone(r.value, Receive(r.value.agent, sort, pkts[n - 1]))
  }

  function SetRemote(t: Trace, sort: Sort, offers: seq<Offered>, rtcpMux: bool): (r: Option<Trace>)
    requires SortsByPriority(sort) && Valid(t.agent)
    ensures var o := SetRemoteData(t.agent, sort, offers, rtcpMux); r.Some? == o.Done? && (r.Some? ==> r.value.agent == o.agent)
  {
    var o := Prepared(t.agent, sort, offers, rtcpMux);
    if o.Done? then ReplayTrace(Visit(t, o.agent), sort, t.agent.backlog, |t.agent.backlog|) else None
  }

  function PollTrace(t: Trace, now: int, tid: nat): (r: Trace)
    requires Valid(t.agent)
  {
    var starts := if MayStartCheck(t.agent, now) then t.starts + [now] else t.starts;
    Visit(t, Poll(t.agent, now, tid)).(starts := starts)
  }

  function PopTrace(t: Trace): (r: Trace) {
    if t.agent.events == [] then t
    else Visit(t, t.agent.(events := t.agent.events[1..])).(taken := t.taken + [t.agent.events[0]])
  }

  /** None if the source panics, now or, because candidates in use are removed, later. */
  function Step(t: Trace, sort: Sort, op: Op): (r: Option<Trace>)
    requires SortsByPriority(sort) && Valid(t.agent)
    ensures r.Some? ==> Valid(r.value.agent)
  {
    match op
    case AddLocalOp(component, kind, base, addr) => Some(Visit(t, AddLocal(t.agent, sort, component, kind, base, addr)))
    case AddRemoteOp(offer) => VisitIfDone(t, AddRemote(t.agent, sort, offer))
    case SetRemoteOp(offers, mux) => SetRemote(t, sort, offers, mux)
    case ReceiveOp(pkt) => VisitIfDone(t, Receive(t.agent, sort, pkt))
    case PollOp(now, tid) => Some(PollTrace(t, now, tid))
    case PopOp => Some(PopTrace(t))
  }

  function Started(a: Agent): (r: Trace) {
    Trace(a, [], [], [a])
  }

  function Run(a: Agent, sort: Sort, ops: seq<Op>, n: nat): (r: Option<Trace>)
    requires SortsByPriority(sort) && Valid(a) && n <= |ops|
    ensures r.Some? ==> Valid(r.value.agent)
  {
    if n == 0 then Some(Started(a))
    else
      var t := Run(a, sort, ops, n - 1);
      if t.None? then None else Step(t.value, sort, ops[n - 1])
  }

  /** Where the first n events lead from a connection state; None if a change does not start where the last one ended. */
  function Follow(from: Connection, es: seq<Event>, n: nat): (r: Option<Connection>)
    requires n <= |es|
  {
    if n == 0 then Some(from)
    else
      var c := Follow(from, es, n - 1);
      if c.None? || !es[n - 1].ConnectionStateChanged? then c
      else if es[n - 1].from == c.value && es[n - 1].to != c.value then Some(es[n - 1].to)
      else None
  }

  lemma {:induction false} FollowPrefix(from: Connection, es: seq<Event>, fs: seq<Event>, n: nat)
    requires n <= |es| <= |fs| && forall i :: 0 <= i < |es| ==> fs[i] == es[i]
    ensures Follow(from, fs, n) == Follow(from, es, n)
  {
    if n > 0 {
      FollowPrefix(from, es, fs, n - 1);
    }
  }

  lemma {:induction false} FollowQuiet(from: Connection, es: seq<Event>, m: nat, n: nat)
    requires m <= n <= |es| && forall i :: m <= i < n ==> !es[i].ConnectionStateChanged?
    ensures Follow(from, es, n) == Follow(from, es, m)
    decreases n
  {
    if m < n {
      FollowQuiet(from, es, m, n - 1);
    }
  }

  /** The events taken and those still queued tell of one path from New to the present connection state. */
  ghost predicate OnPath(taken: seq<Event>, a: Agent) {
    Follow(New, taken + a.events, |taken + a.events|) == Some(a.connection)
  }

  lemma QuietStaysOnPath(taken: seq<Event>, a: Agent, b: Agent)
    requires OnPath(taken, a) && Quiet(a, b)
    ensures OnPath(taken, b)
  {
    var es, fs := taken + a.events, taken + b.events;
    FollowPrefix(New, es, fs, |es|);
    FollowQuiet(New, fs, |es|, |fs|);
  }

  /** Polling the state does no more than to change the connection state. */
  lemma PollStateChanges(a: Agent)
    ensures PollState(a) == SetConnection(a, PollState(a).connection)
  {
    hide AllNominated, StillPossible;
  }

  lemma PollStateStaysOnPath(taken: seq<Event>, a: Agent)
    requires OnPath(taken, a)
    ensures OnPath(taken, PollState(a))
  {
    hide PollState;
    PollStateChanges(a);
    var b := PollState(a);
    if b.connection != a.connection {
      var es, e := taken + a.events, ConnectionStateChanged(a.connection, b.connection);
      assert taken + b.events == es + [e];
      FollowPrefix(New, es, es + [e], |es|);
    }
  }

  lemma PollStaysOnPath(taken: seq<Event>, a: Agent, now: int, tid: nat)
    requires Valid(a) && OnPath(taken, a)
    ensures OnPath(taken, Poll(a, now, tid))
  {
    hide PollRetransmit, PollState, PollNomination, StartCheck, Checklist, Quiet, OnPath;
    var b := PollRetransmit(a, now);
    QuietStaysOnPath(taken, a, b);
    var c := PollState(b);
    PollStateStaysOnPath(taken, b);
    var d := PollNomination(c);
    QuietStaysOnPath(taken, c, d);
    var e := d.(lastTrigger := Some(now));
    SameEventsSamePath(taken, d, e);
    QuietStaysOnPath(taken, e, StartCheck(e, now, tid));
  }

  lemma SameEventsSamePath(taken: seq<Event>, a: Agent, b: Agent)
    requires OnPath(taken, a) && a.events == b.events && a.connection == b.connection
    ensures OnPath(taken, b)
  {
  }

  /** Each new check starts at least 50 ms after the one before. */
  ghost predicate Spaced(starts: seq<int>, lastTrigger: Option<int>) {
    && (forall i :: 0 < i < |starts| ==> starts[i - 1] + CHECK_INTERVAL <= starts[i])
    && lastTrigger == if starts == [] then None else Some(starts[|starts| - 1])
  }

  /** Every address that is announced is that of a pair nominated for its component in some state. */
  ghost predicate Announced(seen: seq<Agent>, es: seq<Event>) {
    forall e :: e in es && e.UseAddr? ==> exists i :: 0 <= i < |seen| && Names(seen[i], e.component, e.address)
  }

  lemma AnnouncedOn(seen: seq<Agent>, taken: seq<Event>, a: Agent, b: Agent)
    requires Announced(seen, taken + a.events) && a in seen && (Announces(a, b, a) || Announces(a, b, b))
    requires |a.events| <= |b.events| && forall i :: 0 <= i < |a.events| ==> b.events[i] == a.events[i]
    ensures Announced(seen + [b], taken + b.events)
  {
    hide Names;
    var more := seen + [b];
    assert more[|seen|] == b;
    var k :| 0 <= k < |seen| && seen[k] == a;
    assert more[k] == a;
    forall e | e in taken + b.events && e.UseAddr?
      ensures exists i :: 0 <= i < |more| && Names(more[i], e.component, e.address)
    {
      var j :| 0 <= j < |taken + b.events| && (taken + b.events)[j] == e;
      if j < |taken + a.events| {
        assert (taken + a.events)[j] == e;
        var i :| 0 <= i < |seen| && Names(seen[i], e.component, e.address);
        assert more[i] == seen[i];
      } else {
        assert b.events[j - |taken|] == e;
      }
    }
  }

  /** What every run keeps. */
  ghost predicate Inv(t: Trace) {
    && Valid(t.agent) && OnPath(t.taken, t.agent) && Spaced(t.starts, t.agent.lastTrigger)
    && t.agent in t.seen && Announced(t.seen, t.taken + t.agent.events)
  }

  /** A poll notes the time at which it starts a check. */
  lemma PollTriggers(a: Agent, now: int, tid: nat)
    requires Valid(a)
    ensures Poll(a, now, tid).lastTrigger == if MayStartCheck(a, now) then Some(now) else a.lastTrigger
  {
    hide Checklist, NextCheck, Best;
    var b := PollRetransmit(a, now);
    PollStateTimes(b);
    NominationTimes(PollState(b));
  }

  lemma PollStateTimes(a: Agent)
    ensures PollState(a).lastTrigger == a.lastTrigger && PollState(a).remoteKnown == a.remoteKnown
  {
  }

  lemma NominationTimes(a: Agent)
    requires Valid(a)
    ensures PollNomination(a).lastTrigger == a.lastTrigger && PollNomination(a).remoteKnown == a.remoteKnown
  {
  }

  lemma SpacedOn(starts: seq<int>, lastTrigger: Option<int>, now: int)
    requires Spaced(starts, lastTrigger) && (lastTrigger.None? || lastTrigger.value + CHECK_INTERVAL <= now)
    ensures Spaced(starts + [now], Some(now))
  {
  }

  lemma PopStaysOnPath(taken: seq<Event>, a: Agent)
    requires OnPath(taken, a) && a.events != []
    ensures OnPath(taken + [a.events[0]], a.(events := a.events[1..]))
  {
    assert taken + [a.events[0]] + a.events[1..] == taken + a.events;
  }

  /** A step that is quiet, and announces only what is nominated. */
  lemma QuietKeeps(t: Trace, b: Agent)
    requires Inv(t) && Valid(b) && Quiet(t.agent, b) && (Announces(t.agent, b, t.agent) || Announces(t.agent, b, b))
    ensures Inv(Visit(t, b))
  {
    hide Checklist, OnPath, Spaced, Announces, Announced;
    QuietStaysOnPath(t.taken, t.agent, b);
    AnnouncedOn(t.seen, t.taken, t.agent, b);
  }

  lemma PollKeeps(t: Trace, now: int, tid: nat)
    requires Inv(t)
    ensures Inv(PollTrace(t, now, tid))
  {
    hide Checklist, OnPath, Spaced, Announces, Announced, Poll;
    PollStaysOnPath(t.taken, t.agent, now, tid);
    PollTriggers(t.agent, now, tid);
    PollAnnouncesNominated(t.agent, now, tid);
    PollAppends(t.agent, now, tid);
    AnnouncedOn(t.seen, t.taken, t.agent, Poll(t.agent, now, tid));
    if MayStartCheck(t.agent, now) {
      SpacedOn(t.starts, t.agent.lastTrigger, now);
    }
  }

  lemma PollAppends(a: Agent, now: int, tid: nat)
    requires Valid(a)
    ensures var b := Poll(a, now, tid); |a.events| <= |b.events| && forall i :: 0 <= i < |a.events| ==> b.events[i] == a.events[i]
  {
    hide Checklist, PollRetransmit, PollState, PollNomination, StartCheck;
    var b := PollRetransmit(a, now);
    PollStateIsSilent(b);
    var c := PollState(b);
    var d := PollNomination(c);
    if MayStartCheck(d, now) {
      var e := StartCheck(d.(lastTrigger := Some(now)), now, tid);
      assert Quiet(d.(lastTrigger := Some(now)), e);
    }
  }

  lemma PopKeeps(t: Trace)
    requires Inv(t)
    ensures Inv(PopTrace(t))
  {
    hide Checklist, OnPath, Spaced, Names;
    if t.agent.events != [] {
      PopStaysOnPath(t.taken, t.agent);
      var u := PopTrace(t);
      assert u.taken + u.agent.events == t.taken + t.agent.events;
      assert forall i :: 0 <= i < |t.seen| ==> u.seen[i] == t.seen[i];
    }
  }

  lemma SilentAnnounces(a: Agent, b: Agent)
    requires b.events == a.events
    ensures Announces(a, b, b)
  {
  }

  lemma {:induction false} AddRemotesIsSilent(a: Agent, sort: Sort, offers: seq<Offered>, n: nat)
    requires SortsByPriority(sort) && Valid(a) && n <= |offers| && AddRemotes(a, sort, offers, n).Done?
    ensures AddRemotes(a, sort, offers, n).agent.events == a.events
  {
    hide SortsByPriority, Checklist, FormPairs, Quiet;
    if n > 0 {
      AddRemotesIsSilent(a, sort, offers, n - 1);
    }
  }

  lemma {:induction false} ReplayKeeps(t: Trace, sort: Sort, pkts: seq<Packet>, n: nat)
    requires SortsByPriority(sort) && Inv(t) && n <= |pkts|
    ensures ReplayTrace(t, sort, pkts, n).Some? ==> Inv(ReplayTrace(t, sort, pkts, n).value)
  {
    hide SortsByPriority, Checklist, OnPath, Spaced, Announces, Announced, Receive, Quiet, Replay;
    if n > 0 {
      ReplayKeeps(t, sort, pkts, n - 1);
      var r := ReplayTrace(t, sort, pkts, n - 1);
      if r.Some? && Receive(r.value.agent, sort, pkts[n - 1]).Done? {
        ReceiveAnnouncesNominated(r.value.agent, sort, pkts[n - 1]);
        QuietKeeps(r.value, Receive(r.value.agent, sort, pkts[n - 1]).agent);
      }
    }
  }

  lemma SetRemoteKeeps(t: Trace, sort: Sort, offers: seq<Offered>, rtcpMux: bool)
    requires SortsByPriority(sort) && Inv(t)
    ensures SetRemote(t, sort, offers, rtcpMux).Some? ==> Inv(SetRemote(t, sort, offers, rtcpMux).value)
  {
    hide SortsByPriority, Checklist, OnPath, Spaced, Announces, Announced, AddRemotes, Quiet, Replay, ReplayTrace, SetRemoteData;
    var o := Prepared(t.agent, sort, offers, rtcpMux);
    if o.Done? {
      var b := WithoutRtcp(t.agent, rtcpMux).(remoteKnown := true);
      AddRemotesIsSilent(b, sort, offers, |offers|);
      SilentAnnounces(t.agent, o.agent);
      QuietKeeps(t, o.agent);
      ReplayKeeps(Visit(t, o.agent), sort, t.agent.backlog, |t.agent.backlog|);
    }
  }

  lemma StepKeeps(t: Trace, sort: Sort, op: Op)
    requires SortsByPriority(sort) && Inv(t)
    ensures Step(t, sort, op).Some? ==> Inv(Step(t, sort, op).value)
  {
    hide Checklist, OnPath, Spaced, Quiet, Announced, Announces, SetRemote, Receive, Poll, SortsByPriority, FormPairs;
    match op {
      case PollOp(now, tid) => PollKeeps(t, now, tid);
      case PopOp => PopKeeps(t);
      case SetRemoteOp(offers, mux) => SetRemoteKeeps(t, sort, offers, mux);
      case AddLocalOp(component, kind, base, addr) =>
        var b := AddLocal(t.agent, sort, component, kind, base, addr);
        SilentAnnounces(t.agent, b);
        QuietKeeps(t, b);
      case AddRemoteOp(offer) =>
        var o := AddRemote(t.agent, sort, offer);
        if o.Done? {
          SilentAnnounces(t.agent, o.agent);
          QuietKeeps(t, o.agent);
        }
      case ReceiveOp(pkt) =>
        var o := Receive(t.agent, sort, pkt);
        if o.Done? {
          ReceiveAnnouncesNominated(t.agent, sort, pkt);
          QuietKeeps(t, o.agent);
        }
    }
  }

  lemma CreatedIsValid(controlling: bool, tie: nat, rtcpMux: bool, remoteKnown: bool)
    ensures var a := Created(controlling, tie, rtcpMux, remoteKnown); Valid(a) && Inv(Started(a))
  {
  }

  /**
   Over every run without panics, from the creation of the agent: no pair occurs twice, all ids are live,
   priorities follow the role and ascend, at most one pair of a component is nominated, the connection events
   form one path from New to the present state, new checks start at least 50 ms apart, and every address announced
   is that of a pair that was nominated for its component in some state.
   */
  lemma {:induction false} RunsKeepTheInvariant(controlling: bool, tie: nat, rtcpMux: bool, remoteKnown: bool, sort: Sort,
                                                ops: seq<Op>, n: nat)
    requires SortsByPriority(sort) && n <= |ops|
    ensures Valid(Created(controlling, tie, rtcpMux, remoteKnown))
    ensures var t := Run(Created(controlling, tie, rtcpMux, remoteKnown), sort, ops, n); t.Some? ==> Inv(t.value)
  {
    hide Inv, Step, SortsByPriority, Checklist;
    var a := Created(controlling, tie, rtcpMux, remoteKnown);
    CreatedIsValid(controlling, tie, rtcpMux, remoteKnown);
    if n > 0 {
      RunsKeepTheInvariant(controlling, tie, rtcpMux, remoteKnown, sort, ops, n - 1);
      var t := Run(a, sort, ops, n - 1);
      if t.Some? {
        StepKeeps(t.value, sort, ops[n - 1]);
      }
    }
  }
}
