/**
 A controlled agent leaves out nomination once any pair is nominated, of whatever component: with RTCP on a
 component of its own it never connects.
 */
module IceNomination {

  import opened IceChecklist
  import opened IceRuns
  import opened IceState
  import opened Wrappers
  import Roles = IceRoles

  /** The agent is controlled, and needs a pair for RTP and one for RTCP. */
  predicate NeedsTwo(a: Agent) {
    !a.table.controlling && !a.rtcpMux
  }

  ghost predicate Sole(ps: seq<Pair>) {
    forall i, j :: 0 <= i < |ps| && 0 <= j < |ps| && ps[i].nominated && ps[j].nominated ==> i == j
  }

  ghost predicate WasNominated(ps: seq<Pair>, q: Pair) {
    exists i :: 0 <= i < |ps| && ps[i].nominated && SameIds(ps[i], q)
  }

  /** No other pairs are nominated than before. */
  ghost predicate NoMoreNominated(ps: seq<Pair>, qs: seq<Pair>) {
    forall j :: 0 <= j < |qs| && qs[j].nominated ==> WasNominated(ps, qs[j])
  }

  lemma StaysSole(ps: seq<Pair>, qs: seq<Pair>)
    requires Sole(ps) && AllApart(qs) && NoMoreNominated(ps, qs)
    ensures Sole(qs)
  {
    forall i, j | 0 <= i < j < |qs|
      ensures !SameIds(qs[i], qs[j])
    {
      assert Apart(qs[i], qs[j]);
    }
    forall i, j | 0 <= i < |qs| && 0 <= j < |qs| && qs[i].nominated && qs[j].nominated
      ensures i == j
    {
      assert WasNominated(ps, qs[i]) && WasNominated(ps, qs[j]);
      assert SameIds(qs[i], qs[j]) && SameIds(qs[j], qs[i]);
    }
  }

  lemma FormedAreNotNominated(t: Table, sort: Sort, ps: seq<Pair>, max: nat)
    requires SortsByPriority(sort) && Entries(t, ps)
    ensures NoMoreNominated(ps, FormPairs(t, sort, ps, max))
  {
    hide FormPairs, FormRows, Entries, Pairable, Keeps;
    FormPairsKeeps(t, sort, ps, max);
    var qs := FormPairs(t, sort, ps, max);
    forall j | 0 <= j < |qs| && qs[j].nominated
      ensures WasNominated(ps, qs[j])
    {
      assert qs[j] in qs;
      assert qs[j] in ps;
    }
  }

  lemma RecomputedAreNotNominated(a: Agent, sort: Sort, controlling: bool)
    requires SortsByPriority(sort) && Valid(a)
    ensures NoMoreNominated(a.pairs, TakeRole(a, sort, controlling).pairs)
  {
    RecomputeKeeps(a.table, sort, a.pairs, controlling);
    var u := a.table.(controlling := controlling);
    var (ps, rs) := (a.pairs, Recomputed(u, a.pairs));
    var qs := sort(rs);
    forall j | 0 <= j < |qs| && qs[j].nominated
      ensures WasNominated(ps, qs[j])
    {
      assert qs[j] in multiset(rs);
      var i :| 0 <= i < |rs| && rs[i] == qs[j];
      assert ps[i].nominated;
    }
  }

  // ---------- single operations ----------

  lemma AddLocalStaysSole(a: Agent, sort: Sort, component: Component, kind: Kind, base: Addr, addr: Addr)
    requires SortsByPriority(sort) && Valid(a) && Sole(a.pairs)
    ensures Sole(AddLocal(a, sort, component, kind, base, addr).pairs)
  {
    hide SortsByPriority, FormPairs, Fits, Apart, Ascending, Quiet, LocalPriority, Sole, NoMoreNominated;
    var b := AddLocal(a, sort, component, kind, base, addr);
    if b != a {
      MoreCandidatesKeep(a.table, b.table, a.pairs);
      FormedAreNotNominated(b.table, sort, a.pairs, a.maxPairs);
      StaysSole(a.pairs, b.pairs);
    }
  }

  lemma {:induction false} AddRemotesStaysSole(a: Agent, sort: Sort, offers: seq<Offered>, n: nat)
    requires SortsByPriority(sort) && Valid(a) && Sole(a.pairs) && n <= |offers| && AddRemotes(a, sort, offers, n).Done?
    ensures Sole(AddRemotes(a, sort, offers, n).agent.pairs)
  {
    hide SortsByPriority, Sole, AddRemote, Checklist, Quiet;
    if n > 0 {
      AddRemotesStaysSole(a, sort, offers, n - 1);
      AddRemoteStaysSole(AddRemotes(a, sort, offers, n - 1).agent, sort, offers[n - 1]);
    }
  }

  lemma AddRemoteStaysSole(a: Agent, sort: Sort, o: Offered)
    requires SortsByPriority(sort) && Valid(a) && Sole(a.pairs) && AddRemote(a, sort, o).Done?
    ensures Sole(AddRemote(a, sort, o).agent.pairs)
  {
    hide SortsByPriority, FormPairs, Fits, Apart, Ascending, Quiet, Sole, NoMoreNominated;
    var b := AddRemote(a, sort, o).agent;
    if b != a {
      MoreCandidatesKeep(a.table, b.table, a.pairs);
      FormedAreNotNominated(b.table, sort, a.pairs, a.maxPairs);
      StaysSole(a.pairs, b.pairs);
    }
  }

  lemma NominateStaysSole(a: Agent, component: Component)
    requires Valid(a) && Sole(a.pairs) && !a.table.controlling
    ensures Sole(Nominate(a, component).pairs) && Nominate(a, component).table == a.table
  {
    hide Checklist, Quiet, Nominable;
  }

  lemma PollNominationStaysSole(a: Agent)
    requires Valid(a) && Sole(a.pairs) && NeedsTwo(a)
    ensures Sole(PollNomination(a).pairs)
  {
    hide Checklist, Quiet, Sole, Nominate;
    NominateStaysSole(a, Rtp);
    NominateStaysSole(Nominate(a, Rtp), Rtcp);
  }

  predicate HasNominable(a: Agent, component: Component) {
    exists i :: 0 <= i < |a.pairs| && Nominable(a.pairs[i], component, a.table.controlling)
  }

  /** What one step of a controlled agent does: it nominates nothing once any pair is nominated. */
  lemma NominatedExactly(a: Agent, component: Component, c: Component)
    requires Valid(a) && !a.table.controlling
    ensures var b := Nominate(a, component);
            Nominated(b.pairs, c) <==> Nominated(a.pairs, c) || (c == component && !AnyNominated(a.pairs) && HasNominable(a, c))
  {
    hide Checklist, Quiet, Nominable;
    var (b, k) := (Nominate(a, component), Best(a.pairs, component, false, |a.pairs|));
    if !AnyNominated(a.pairs) && k.Some? {
      assert b.pairs[k.value].nominated;
      assert forall i :: 0 <= i < |a.pairs| && i != k.value ==> !b.pairs[i].nominated;
      assert b.pairs[k.value].component == component by {
        NominableComponent(a.pairs[k.value], component);
      }
    }
  }

  lemma NominableComponent(p: Pair, component: Component)
    requires Nominable(p, component, false)
    ensures p.component == component
  {
  }

  /** A controlled agent gets a pair for RTCP nominated exactly if it had none at all, and can choose none for RTP. */
  lemma RtcpIsNominatedExactly(a: Agent)
    requires Valid(a) && !a.table.controlling
    ensures Nominated(PollNomination(a).pairs, Rtcp) <==>
            || Nominated(a.pairs, Rtcp)
            || (!a.rtcpMux && !AnyNominated(a.pairs) && !HasNominable(a, Rtp) && HasNominable(a, Rtcp))
  {
    hide Checklist, Quiet, Nominate, HasNominable;
    var b := Nominate(a, Rtp);
    NominatedExactly(a, Rtp, Rtp);
    NominatedExactly(a, Rtp, Rtcp);
    NominateKeepsTheRest(a, Rtp);
    NominatedExactly(b, Rtcp, Rtcp);
    OfSomeComponent(a.pairs);
    OfSomeComponent(b.pairs);
  }

  lemma OfSomeComponent(ps: seq<Pair>)
    ensures AnyNominated(ps) <==> Nominated(ps, Rtp) || Nominated(ps, Rtcp)
  {
    if i :| 0 <= i < |ps| && ps[i].nominated {
      assert ps[i].component == Rtp || ps[i].component == Rtcp;
    }
  }

  /** If nothing can be nominated for the component, nothing happens. */
  lemma NominateKeepsTheRest(a: Agent, component: Component)
    requires Valid(a)
    ensures Nominate(a, component).table == a.table && Nominate(a, component).rtcpMux == a.rtcpMux
    ensures !HasNominable(a, component) ==> Nominate(a, component) == a
  {
    hide Checklist, Quiet, Nominable;
  }

  /** Two components need two nominated pairs. */
  lemma SoleIsNotEnough(a: Agent)
    requires Sole(a.pairs) && !a.rtcpMux
    ensures !AllNominated(a)
  {
    if i :| 0 <= i < |a.pairs| && a.pairs[i].nominated && a.pairs[i].component == Rtp {
      assert forall j :: 0 <= j < |a.pairs| && a.pairs[j].nominated ==> j == i;
    }
  }

  lemma PollStaysSole(a: Agent, now: int, tid: nat)
    requires Valid(a) && Sole(a.pairs) && NeedsTwo(a) && a.connection != Connected
    ensures Sole(Poll(a, now, tid).pairs) && Poll(a, now, tid).connection != Connected
  {
    hide Checklist, PollRetransmit, PollState, PollNomination, StartCheck, Sole;
    var b := PollRetransmit(a, now);
    RetransmitStaysSole(a, now);
    var c := PollState(b);
    PollStateStaysSole(b);
    var d := PollNomination(c);
    PollNominationStaysSole(c);
    StartCheckStaysSole(d.(lastTrigger := Some(now)), now, tid);
  }

  lemma RetransmitStaysSole(a: Agent, now: int)
    requires Valid(a) && Sole(a.pairs)
    ensures var b := PollRetransmit(a, now); Sole(b.pairs) && b.table == a.table && b.rtcpMux == a.rtcpMux
  {
    hide Checklist, Quiet, ResendEvents;
  }

  lemma PollStateStaysSole(a: Agent)
    requires Sole(a.pairs) && !a.rtcpMux && a.connection != Connected
    ensures var b := PollState(a);
            b.pairs == a.pairs && b.table == a.table && b.rtcpMux == a.rtcpMux && b.connection != Connected
  {
    SoleIsNotEnough(a);
  }

  lemma StartCheckStaysSole(a: Agent, now: int, tid: nat)
    requires Valid(a) && Sole(a.pairs)
    ensures Sole(StartCheck(a, now, tid).pairs)
  {
    hide Checklist, Quiet, CheckFor, CheckEvent, NextCheck;
  }

  lemma ReceiveStaysSole(a: Agent, sort: Sort, pkt: Packet)
    requires SortsByPriority(sort) && Valid(a) && Sole(a.pairs) && Receive(a, sort, pkt).Done?
    requires NeedsTwo(a) && NeedsTwo(Receive(a, sort, pkt).agent)
    ensures Sole(Receive(a, sort, pkt).agent.pairs)
  {
    hide SortsByPriority, Checklist, Quiet, Sole, ReceiveRequest, ReceiveSuccess, ReceiveError;
    match pkt.message {
      case RequestMessage(_, _, _, _) => RequestStaysSole(a, sort, pkt);
      case SuccessMessage(_, _) => SuccessStaysSole(a, sort, pkt);
      case ErrorMessage(_, _, _) => ErrorStaysSole(a, sort, pkt);
    }
  }

  lemma SuccessStaysSole(a: Agent, sort: Sort, pkt: Packet)
    requires SortsByPriority(sort) && Valid(a) && Sole(a.pairs) && pkt.message.SuccessMessage?
    ensures Sole(ReceiveSuccess(a, sort, pkt).pairs)
  {
    hide SortsByPriority, Checklist, Quiet, Sole, Answered, AddLocal;
    var k := FindCheck(a.pairs, pkt.message.tid, 0);
    if a.remoteKnown && pkt.authentic && k < |a.pairs| {
      var p := a.pairs[k];
      AnsweredStaysSole(a, k, IsSymmetric(p.state.check, pkt));
      if pkt.message.mapped.Some? {
        AddLocalStaysSole(Answered(a, k, IsSymmetric(p.state.check, pkt)), sort, p.component, PeerReflexive, pkt.destination,
                          pkt.message.mapped.value);
      }
    }
  }

  lemma AnsweredStaysSole(a: Agent, k: nat, symmetric: bool)
    requires Valid(a) && Sole(a.pairs) && k < |a.pairs|
    ensures Sole(Answered(a, k, symmetric).pairs)
  {
    hide Checklist, Quiet;
  }

  lemma TakeRoleStaysSole(a: Agent, sort: Sort, controlling: bool)
    requires SortsByPriority(sort) && Valid(a) && Sole(a.pairs)
    ensures Sole(TakeRole(a, sort, controlling).pairs)
  {
    hide SortsByPriority, Sole, NoMoreNominated, Fits, Apart, Ascending, Quiet;
    RecomputedAreNotNominated(a, sort, controlling);
    assert Valid(TakeRole(a, sort, controlling));
    StaysSole(a.pairs, TakeRole(a, sort, controlling).pairs);
  }

  lemma ErrorStaysSole(a: Agent, sort: Sort, pkt: Packet)
    requires SortsByPriority(sort) && Valid(a) && Sole(a.pairs) && pkt.message.ErrorMessage?
    ensures Sole(ReceiveError(a, sort, pkt).pairs)
  {
    hide SortsByPriority, Checklist, Quiet, TakeRole, ToldRole;
    var k := FindCheck(a.pairs, pkt.message.tid, 0);
    if a.remoteKnown && pkt.authentic && k < |a.pairs| && pkt.message.code == Some(Roles.ROLE_CONFLICT) {
      var p := a.pairs[k];
      UpdateKeeps(a.table, a.pairs, k, p.(state := Waiting));
      var b := a.(pairs := a.pairs[k := p.(state := Waiting)], triggered := a.triggered + [(p.local, p.remote)]);
      TakeRoleStaysSole(b, sort, ToldRole(pkt.message.role, a.table.controlling));
    }
  }

  lemma LearnStaysSole(a: Agent, sort: Sort, l: nat, pkt: Packet)
    requires SortsByPriority(sort) && Valid(a) && Sole(a.pairs) && pkt.message.RequestMessage? && pkt.message.priority.Some?
    requires l < |a.table.locals| && a.table.locals[l].Some?
    ensures var b := LearnRemote(a, sort, l, pkt);
            Sole(b.pairs) && b.table.controlling == a.table.controlling && b.rtcpMux == a.rtcpMux
  {
    hide SortsByPriority, Sole, Fits, Apart, Ascending, Quiet, AddPair, NewPair;
    var b := LearnRemote(a, sort, l, pkt);
    var r := |a.table.remotes|;
    if FindRemote(a.table.remotes, pkt.source, 0) == r {
      MoreCandidatesKeep(a.table, b.table, a.pairs);
      AddedIsNotNominated(b.table, sort, a.pairs, l, r);
      StaysSole(a.pairs, b.pairs);
    }
  }

  lemma AddedIsNotNominated(t: Table, sort: Sort, ps: seq<Pair>, l: nat, r: nat)
    requires SortsByPriority(sort) && Entries(t, ps) && t.Live(l, r)
    ensures NoMoreNominated(ps, AddPair(t, sort, ps, l, r))
  {
    hide SortsByPriority, Entries, AddPair;
    AddPairKeeps(t, sort, ps, l, r);
    var qs := AddPair(t, sort, ps, l, r);
    forall j | 0 <= j < |qs| && qs[j].nominated
      ensures WasNominated(ps, qs[j])
    {
      assert qs[j] in qs;
      assert qs[j] in ps;
    }
  }

  lemma AcknowledgeStaysSole(a: Agent, k: nat, pkt: Packet)
    requires Valid(a) && Sole(a.pairs) && pkt.message.RequestMessage? && k < |a.pairs| && NeedsTwo(a)
    ensures Sole(Acknowledge(a, k, pkt).pairs)
  {
    hide Checklist, Quiet, PollNomination, Fits;
    var p := a.pairs[k].(receivedUse := pkt.message.useCandidate);
    assert Fits(a.table, a.pairs[k]) by {
      FitsAt(a, k);
    }
    assert a.table.Live(p.local, p.remote) by {
      LiveAt(a, k);
    }
    UpdateKeeps(a.table, a.pairs, k, p);
    var b := a.(pairs := a.pairs[k := p])
      .Emit(SendData(p.component, SuccessResponse(pkt.message.tid, pkt.source), a.table.locals[p.local].value.base.ip, pkt.source));
    assert Acknowledge(a, k, pkt) == if pkt.message.useCandidate then PollNomination(b) else b;
    PollNominationStaysSole(b);
  }

  lemma LiveAt(a: Agent, k: nat)
    requires Valid(a) && k < |a.pairs|
    ensures a.table.Live(a.pairs[k].local, a.pairs[k].remote)
  {
    FitsAt(a, k);
  }

  lemma RequestStaysSole(a: Agent, sort: Sort, pkt: Packet)
    requires SortsByPriority(sort) && Valid(a) && Sole(a.pairs) && pkt.message.RequestMessage? && ReceiveRequest(a, sort, pkt).Done?
    requires NeedsTwo(a) && NeedsTwo(ReceiveRequest(a, sort, pkt).agent)
    ensures Sole(ReceiveRequest(a, sort, pkt).agent.pairs)
  {
    hide SortsByPriority, Checklist, Quiet, Sole, LearnRemote, Acknowledge, TakeRole, SettleRole;
    SettledStaysSole(a, sort, pkt);
    var settled := SettleRole(a, sort, pkt);
    if a.remoteKnown && pkt.authentic && pkt.message.priority.Some? && settled.Some? {
      var b := settled.value;
      var l := FindHost(b.table.locals, pkt.destination, 0);
      if l < |b.table.locals| {
        LearnStaysSole(b, sort, l, pkt);
        var c := LearnRemote(b, sort, l, pkt);
        var k := FindPair(c.pairs, l, FindRemote(c.table.remotes, pkt.source, 0), 0);
        AcknowledgeKeepsRole(c, k, pkt);
        if k < |c.pairs| {
          AcknowledgeStaysSole(c, k, pkt);
        }
      }
    }
  }

  lemma SettledStaysSole(a: Agent, sort: Sort, pkt: Packet)
    requires SortsByPriority(sort) && Valid(a) && Sole(a.pairs) && pkt.message.RequestMessage?
    ensures var s := SettleRole(a, sort, pkt); s.Some? ==> Sole(s.value.pairs) && s.value.rtcpMux == a.rtcpMux
  {
    hide SortsByPriority, Checklist, Quiet, Sole;
    TakeRoleStaysSole(a, sort, !a.table.controlling);
  }

  // ---------- runs ----------

  /** All states so far are those of a controlled agent with two components. */
  ghost predicate NeededTwo(seen: seq<Agent>) {
    forall i :: 0 <= i < |seen| ==> NeedsTwo(seen[i])
  }

  ghost predicate Inv(t: Trace) {
    t.agent in t.seen && (NeededTwo(t.seen) ==> Sole(t.agent.pairs) && t.agent.connection != Connected)
  }

  lemma VisitKeeps(t: Trace, b: Agent)
    requires Inv(t)
    requires NeedsTwo(t.agent) && NeedsTwo(b) && Sole(t.agent.pairs) && t.agent.connection != Connected ==>
               Sole(b.pairs) && b.connection != Connected
    ensures Inv(Visit(t, b))
  {
    hide Sole;
    var u := Visit(t, b);
    assert u.seen[|t.seen|] == b;
    assert forall i :: 0 <= i < |t.seen| ==> u.seen[i] == t.seen[i];
  }

  lemma QuietConnection(a: Agent, b: Agent)
    requires Quiet(a, b)
    ensures b.connection == a.connection
  {
  }

  lemma ReceiveKeeps(t: Trace, sort: Sort, pkt: Packet)
    requires SortsByPriority(sort) && Valid(t.agent) && Inv(t)
    ensures var o := Receive(t.agent, sort, pkt); o.Done? ==> Inv(Visit(t, o.agent))
  {
    hide SortsByPriority, Checklist, Quiet, Sole, Receive, NeedsTwo, Inv;
    var o := Receive(t.agent, sort, pkt);
    if o.Done? {
      QuietConnection(t.agent, o.agent);
      if NeedsTwo(t.agent) && NeedsTwo(o.agent) && Sole(t.agent.pairs) {
        ReceiveStaysSole(t.agent, sort, pkt);
      }
      VisitKeeps(t, o.agent);
    }
  }

  lemma {:induction false} ReplayKeeps(t: Trace, sort: Sort, pkts: seq<Packet>, n: nat)
    requires SortsByPriority(sort) && Valid(t.agent) && Inv(t) && n <= |pkts|
    ensures ReplayTrace(t, sort, pkts, n).Some? ==> Inv(ReplayTrace(t, sort, pkts, n).value)
  {
    hide SortsByPriority, Checklist, Receive, Quiet, Replay, Inv;
    if n > 0 {
      ReplayKeeps(t, sort, pkts, n - 1);
      var r := ReplayTrace(t, sort, pkts, n - 1);
      if r.Some? {
        ReceiveKeeps(r.value, sort, pkts[n - 1]);
      }
    }
  }

  lemma SetRemoteKeeps(t: Trace, sort: Sort, offers: seq<Offered>, rtcpMux: bool)
    requires SortsByPriority(sort) && Valid(t.agent) && Inv(t)
    ensures SetRemote(t, sort, offers, rtcpMux).Some? ==> Inv(SetRemote(t, sort, offers, rtcpMux).value)
  {
    hide SortsByPriority, Checklist, AddRemotes, Quiet, Replay, ReplayTrace, SetRemoteData, Sole, Inv;
    var o := Prepared(t.agent, sort, offers, rtcpMux);
    if o.Done? {
      QuietConnection(t.agent, o.agent);
      var b := WithoutRtcp(t.agent, rtcpMux).(remoteKnown := true);
      if Sole(t.agent.pairs) {
        AddRemotesStaysSole(b, sort, offers, |offers|);
      }
      VisitKeeps(t, o.agent);
      ReplayKeeps(Visit(t, o.agent), sort, t.agent.backlog, |t.agent.backlog|);
    }
  }

  lemma StepKeeps(t: Trace, sort: Sort, op: Op)
    requires SortsByPriority(sort) && Valid(t.agent) && Inv(t)
    ensures Step(t, sort, op).Some? ==> Inv(Step(t, sort, op).value)
  {
    hide SortsByPriority, Checklist, Quiet, Sole, SetRemote, Receive, Poll, AddLocal, AddRemote, Inv;
    match op {
      case PollOp(now, tid) =>
        if Sole(t.agent.pairs) && NeedsTwo(t.agent) && t.agent.connection != Connected {
          PollStaysSole(t.agent, now, tid);
        }
        VisitKeeps(t, Poll(t.agent, now, tid));
        SameStates(Visit(t, Poll(t.agent, now, tid)), PollTrace(t, now, tid));
      case PopOp =>
        if t.agent.events != [] {
          VisitKeeps(t, PopTrace(t).agent);
          SameStates(Visit(t, PopTrace(t).agent), PopTrace(t));
        }
      case SetRemoteOp(offers, mux) => SetRemoteKeeps(t, sort, offers, mux);
      case AddLocalOp(component, kind, base, addr) =>
        var b := AddLocal(t.agent, sort, component, kind, base, addr);
        QuietConnection(t.agent, b);
        if Sole(t.agent.pairs) {
          AddLocalStaysSole(t.agent, sort, component, kind, base, addr);
        }
        VisitKeeps(t, b);
      case AddRemoteOp(offer) =>
        var o := AddRemote(t.agent, sort, offer);
        if o.Done? {
          QuietConnection(t.agent, o.agent);
          if Sole(t.agent.pairs) {
            AddRemoteStaysSole(t.agent, sort, offer);
          }
          VisitKeeps(t, o.agent);
        }
      case ReceiveOp(pkt) => ReceiveKeeps(t, sort, pkt);
    }
  }

  lemma SameStates(t: Trace, u: Trace)
    requires Inv(t) && u.agent == t.agent && u.seen == t.seen
    ensures Inv(u)
  {
  }

  lemma {:induction false} RunKeeps(a: Agent, sort: Sort, ops: seq<Op>, n: nat)
    requires SortsByPriority(sort) && Valid(a) && Inv(Started(a)) && n <= |ops|
    ensures Run(a, sort, ops, n).Some? ==> Inv(Run(a, sort, ops, n).value)
  {
    hide SortsByPriority, Checklist, Inv, Step;
    if n > 0 {
      RunKeeps(a, sort, ops, n - 1);
      if Run(a, sort, ops, n - 1).Some? {
        StepKeeps(Run(a, sort, ops, n - 1).value, sort, ops[n - 1]);
      }
    }
  }

  /**
   Over every run in which the agent stays controlled and RTCP stays on a component of its own, it nominates one pair
   at most and is never connected.
   */
  lemma TwoComponentsNeverConnect(tie: nat, remoteKnown: bool, sort: Sort, ops: seq<Op>, n: nat)
    requires SortsByPriority(sort) && n <= |ops|
    ensures Valid(Created(false, tie, false, remoteKnown))
    ensures var t := Run(Created(false, tie, false, remoteKnown), sort, ops, n);
            t.Some? && NeededTwo(t.value.seen) ==> Sole(t.value.agent.pairs) && t.value.agent.connection != Connected
  {
    hide SortsByPriority, Checklist, Run;
    var a := Created(false, tie, false, remoteKnown);
    CreatedIsValid(false, tie, false, remoteKnown);
    RunKeeps(a, sort, ops, n);
  }
}
