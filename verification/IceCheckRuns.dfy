/**
 A check of an ICE agent among everything else that the agent does: as long as it runs it follows its schedule, and
 once it has ended, for whatever reason, it is not sent again.
 */
module IceCheckRuns {

  import opened IceChecklist
  import opened IceChecks
  import opened IceRuns
  import opened IceState
  import opened Wrappers
  import Roles = IceRoles
  import StunTimer

  /** Each check with this id is one that a pair had before. */
  ghost predicate OnlyOldChecks(ps: seq<Pair>, qs: seq<Pair>, tid: nat) {
    forall j :: 0 <= j < |qs| && Checks(qs[j], tid) ==> Survives(qs[j], ps)
  }

  /** The request with this id is not sent, and no check with it starts. */
  ghost predicate Spares(a: Agent, b: Agent, tid: nat) {
    OnlyOldChecks(a.pairs, b.pairs, tid) && Sent(b.events, tid) == Sent(a.events, tid)
  }

  lemma SparesTwice(a: Agent, b: Agent, c: Agent, tid: nat)
    requires Spares(a, b, tid) && Spares(b, c, tid)
    ensures Spares(a, c, tid)
  {
    forall j | 0 <= j < |c.pairs| && Checks(c.pairs[j], tid)
      ensures Survives(c.pairs[j], a.pairs)
    {
      var i :| 0 <= i < |b.pairs| && SameIds(c.pairs[j], b.pairs[i]) && b.pairs[i].state == c.pairs[j].state;
      assert Survives(b.pairs[i], a.pairs);
    }
  }

  /** Pairs in their places, none of which starts a check with this id. */
  lemma SameIndicesSpare(ps: seq<Pair>, qs: seq<Pair>, tid: nat)
    requires |qs| == |ps|
    requires forall j :: 0 <= j < |qs| && Checks(qs[j], tid) ==> SameIds(qs[j], ps[j]) && ps[j].state == qs[j].state
    ensures OnlyOldChecks(ps, qs, tid)
  {
  }

  lemma SparesItself(a: Agent, b: Agent, tid: nat)
    requires b.pairs == a.pairs && b.events == a.events
    ensures Spares(a, b, tid)
  {
    SameIndicesSpare(a.pairs, b.pairs, tid);
  }

  // ---------- single operations ----------

  lemma FormedStartNothing(t: Table, sort: Sort, ps: seq<Pair>, max: nat, tid: nat)
    requires SortsByPriority(sort) && Entries(t, ps)
    ensures OnlyOldChecks(ps, FormPairs(t, sort, ps, max), tid)
  {
    hide FormPairs, FormRows, Entries, Pairable, Keeps;
    FormPairsKeeps(t, sort, ps, max);
    var qs := FormPairs(t, sort, ps, max);
    forall j | 0 <= j < |qs| && Checks(qs[j], tid)
      ensures Survives(qs[j], ps)
    {
      assert qs[j] in qs;
      var i :| 0 <= i < |ps| && ps[i] == qs[j];
    }
  }

  lemma AddLocalSpares(a: Agent, sort: Sort, component: Component, kind: Kind, base: Addr, addr: Addr, tid: nat)
    requires SortsByPriority(sort) && Valid(a)
    ensures Spares(a, AddLocal(a, sort, component, kind, base, addr), tid)
  {
    hide SortsByPriority, FormPairs, Fits, Apart, Ascending, Quiet, LocalPriority, OnlyOldChecks;
    var b := AddLocal(a, sort, component, kind, base, addr);
    if b != a {
      MoreCandidatesKeep(a.table, b.table, a.pairs);
      FormedStartNothing(b.table, sort, a.pairs, a.maxPairs, tid);
    } else {
      SparesItself(a, b, tid);
    }
  }

  lemma AddRemoteSpares(a: Agent, sort: Sort, o: Offered, tid: nat)
    requires SortsByPriority(sort) && Valid(a) && AddRemote(a, sort, o).Done?
    ensures Spares(a, AddRemote(a, sort, o).agent, tid)
  {
    hide SortsByPriority, FormPairs, Fits, Apart, Ascending, Quiet, OnlyOldChecks;
    var b := AddRemote(a, sort, o).agent;
    if b != a {
      MoreCandidatesKeep(a.table, b.table, a.pairs);
      FormedStartNothing(b.table, sort, a.pairs, a.maxPairs, tid);
    } else {
      SparesItself(a, b, tid);
    }
  }

  lemma {:induction false} AddRemotesSpare(a: Agent, sort: Sort, offers: seq<Offered>, n: nat, tid: nat)
    requires SortsByPriority(sort) && Valid(a) && n <= |offers| && AddRemotes(a, sort, offers, n).Done?
    ensures Spares(a, AddRemotes(a, sort, offers, n).agent, tid)
  {
    hide SortsByPriority, Checklist, Quiet, AddRemote, Spares;
    if n == 0 {
      SparesItself(a, a, tid);
    } else {
      var b := AddRemotes(a, sort, offers, n - 1).agent;
      AddRemotesSpare(a, sort, offers, n - 1, tid);
      AddRemoteSpares(b, sort, offers[n - 1], tid);
      SparesTwice(a, b, AddRemote(b, sort, offers[n - 1]).agent, tid);
    }
  }

  lemma NominateSpares(a: Agent, component: Component, tid: nat)
    requires Valid(a)
    ensures Spares(a, Nominate(a, component), tid)
  {
    hide Checklist, Quiet, AlreadyNominated;
    NominateSendsNothing(a, component, tid);
    SameIndicesSpare(a.pairs, Nominate(a, component).pairs, tid);
  }

  lemma PollNominationSpares(a: Agent, tid: nat)
    requires Valid(a)
    ensures Spares(a, PollNomination(a), tid)
  {
    hide Checklist, Quiet, Nominate, Spares;
    var b := Nominate(a, Rtp);
    NominateSpares(a, Rtp, tid);
    NominateSpares(b, Rtcp, tid);
    SparesTwice(a, b, Nominate(b, Rtcp), tid);
  }

  lemma AnsweredSpares(a: Agent, k: nat, symmetric: bool, tid: nat)
    requires Valid(a) && k < |a.pairs|
    ensures Spares(a, Answered(a, k, symmetric), tid)
  {
    hide Checklist, Quiet, Sent;
    var b := Answered(a, k, symmetric);
    SameIndicesSpare(a.pairs, b.pairs, tid);
    if b.events != a.events {
      SentOne(a.events, b.events[|a.events|], tid);
    }
  }

  lemma SuccessSpares(a: Agent, sort: Sort, pkt: Packet, tid: nat)
    requires SortsByPriority(sort) && Valid(a) && pkt.message.SuccessMessage?
    ensures Spares(a, ReceiveSuccess(a, sort, pkt), tid)
  {
    hide SortsByPriority, Checklist, Quiet, Spares, Answered, AddLocal;
    var k := FindCheck(a.pairs, pkt.message.tid, 0);
    if a.remoteKnown && pkt.authentic && k < |a.pairs| {
      var p := a.pairs[k];
      var b := Answered(a, k, IsSymmetric(p.state.check, pkt));
      AnsweredSpares(a, k, IsSymmetric(p.state.check, pkt), tid);
      if pkt.message.mapped.Some? {
        AddLocalSpares(b, sort, p.component, PeerReflexive, pkt.destination, pkt.message.mapped.value, tid);
        SparesTwice(a, b, AddLocal(b, sort, p.component, PeerReflexive, pkt.destination, pkt.message.mapped.value), tid);
      }
    } else {
      SparesItself(a, ReceiveSuccess(a, sort, pkt), tid);
    }
  }

  lemma TakeRoleSpares(a: Agent, sort: Sort, controlling: bool, tid: nat)
    requires SortsByPriority(sort) && Valid(a)
    ensures Spares(a, TakeRole(a, sort, controlling), tid)
  {
    RecomputeKeeps(a.table, sort, a.pairs, controlling);
    var u := a.table.(controlling := controlling);
    var (ps, rs) := (a.pairs, Recomputed(u, a.pairs));
    var qs := sort(rs);
    forall j | 0 <= j < |qs| && Checks(qs[j], tid)
      ensures Survives(qs[j], ps)
    {
      assert qs[j] in multiset(rs);
      var i :| 0 <= i < |rs| && rs[i] == qs[j];
      assert SameIds(qs[j], ps[i]);
    }
  }

  lemma ErrorSpares(a: Agent, sort: Sort, pkt: Packet, tid: nat)
    requires SortsByPriority(sort) && Valid(a) && pkt.message.ErrorMessage?
    ensures Spares(a, ReceiveError(a, sort, pkt), tid)
  {
    hide SortsByPriority, Checklist, Quiet, TakeRole, ToldRole, Spares;
    var k := FindCheck(a.pairs, pkt.message.tid, 0);
    if a.remoteKnown && pkt.authentic && k < |a.pairs| && pkt.message.code == Some(Roles.ROLE_CONFLICT) {
      var p := a.pairs[k];
      UpdateKeeps(a.table, a.pairs, k, p.(state := Waiting));
      var b := a.(pairs := a.pairs[k := p.(state := Waiting)], triggered := a.triggered + [(p.local, p.remote)]);
      WaitingSpares(a, b, k, tid);
      TakeRoleSpares(b, sort, ToldRole(pkt.message.role, a.table.controlling), tid);
      SparesTwice(a, b, TakeRole(b, sort, ToldRole(pkt.message.role, a.table.controlling)), tid);
    } else {
      SparesItself(a, ReceiveError(a, sort, pkt), tid);
    }
  }

  lemma WaitingSpares(a: Agent, b: Agent, k: nat, tid: nat)
    requires k < |a.pairs| && b.pairs == a.pairs[k := a.pairs[k].(state := Waiting)] && b.events == a.events
    ensures Spares(a, b, tid)
  {
    SameIndicesSpare(a.pairs, b.pairs, tid);
  }

  lemma LearnSpares(a: Agent, sort: Sort, l: nat, pkt: Packet, tid: nat)
    requires SortsByPriority(sort) && Valid(a) && pkt.message.RequestMessage? && pkt.message.priority.Some?
    requires l < |a.table.locals| && a.table.locals[l].Some?
    ensures Spares(a, LearnRemote(a, sort, l, pkt), tid)
  {
    hide SortsByPriority, Fits, Apart, Ascending, Quiet, AddPair, Sent;
    var b := LearnRemote(a, sort, l, pkt);
    var r := |a.table.remotes|;
    if FindRemote(a.table.remotes, pkt.source, 0) == r {
      MoreCandidatesKeep(a.table, b.table, a.pairs);
      AddPairKeeps(b.table, sort, a.pairs, l, r);
      forall j | 0 <= j < |b.pairs| && Checks(b.pairs[j], tid)
        ensures Survives(b.pairs[j], a.pairs)
      {
        assert b.pairs[j] in b.pairs;
        var i :| 0 <= i < |a.pairs| && a.pairs[i] == b.pairs[j];
      }
    } else {
      SparesItself(a, b, tid);
    }
  }

  lemma AcknowledgeSpares(a: Agent, k: nat, pkt: Packet, tid: nat)
    requires Valid(a) && pkt.message.RequestMessage? && k < |a.pairs|
    ensures Spares(a, Acknowledge(a, k, pkt), tid)
  {
    hide Checklist, Quiet, PollNomination, Spares;
    var p := a.pairs[k].(receivedUse := pkt.message.useCandidate);
    assert Fits(a.table, a.pairs[k]) by {
      FitsAt(a, k);
    }
    UpdateKeeps(a.table, a.pairs, k, p);
    var e := SendData(p.component, SuccessResponse(pkt.message.tid, pkt.source), a.table.locals[p.local].value.base.ip, pkt.source);
    var b := a.(pairs := a.pairs[k := p]).Emit(e);
    assert Spares(a, b, tid) by {
      NotedSpares(a, k, p, e, tid);
    }
    PollNominationSpares(b, tid);
    SparesTwice(a, b, PollNomination(b), tid);
  }

  lemma NotedSpares(a: Agent, k: nat, p: Pair, e: Event, tid: nat)
    requires k < |a.pairs| && p == a.pairs[k].(receivedUse := p.receivedUse) && !Sends(e, tid)
    ensures Spares(a, a.(pairs := a.pairs[k := p]).Emit(e), tid)
  {
    SentOne(a.events, e, tid);
    SameIndicesSpare(a.pairs, a.pairs[k := p], tid);
  }

  lemma EmitSpares(a: Agent, e: Event, tid: nat)
    requires !Sends(e, tid)
    ensures Spares(a, a.Emit(e), tid)
  {
    SentOne(a.events, e, tid);
    SameIndicesSpare(a.pairs, a.pairs, tid);
  }

  lemma SettleSpares(a: Agent, sort: Sort, pkt: Packet, tid: nat)
    requires SortsByPriority(sort) && Valid(a) && pkt.message.RequestMessage?
    ensures SettleRole(a, sort, pkt).Some? ==> Spares(a, SettleRole(a, sort, pkt).value, tid)
  {
    hide SortsByPriority, Checklist, Quiet, TakeRole, Spares;
    TakeRoleSpares(a, sort, !a.table.controlling, tid);
    SparesItself(a, a, tid);
  }

  lemma RequestSpares(a: Agent, sort: Sort, pkt: Packet, tid: nat)
    requires SortsByPriority(sort) && Valid(a) && pkt.message.RequestMessage? && ReceiveRequest(a, sort, pkt).Done?
    ensures Spares(a, ReceiveRequest(a, sort, pkt).agent, tid)
  {
    hide SortsByPriority, Checklist, Quiet, Spares, LearnRemote, Acknowledge, SettleRole;
    var settled := SettleRole(a, sort, pkt);
    if !a.remoteKnown || !pkt.authentic {
      SparesItself(a, ReceiveRequest(a, sort, pkt).agent, tid);
    } else if settled.None? {
      EmitSpares(a, RoleErrorEvent(a, pkt), tid);
    } else {
      var b := settled.value;
      SettleSpares(a, sort, pkt, tid);
      var l := FindHost(b.table.locals, pkt.destination, 0);
      if l < |b.table.locals| {
        var c := LearnRemote(b, sort, l, pkt);
        LearnSpares(b, sort, l, pkt, tid);
        SparesTwice(a, b, c, tid);
        var k := FindPair(c.pairs, l, FindRemote(c.table.remotes, pkt.source, 0), 0);
        AcknowledgeSpares(c, k, pkt, tid);
        SparesTwice(a, c, Acknowledge(c, k, pkt), tid);
      }
    }
  }

  lemma ReceiveSpares(a: Agent, sort: Sort, pkt: Packet, tid: nat)
    requires SortsByPriority(sort) && Valid(a) && Receive(a, sort, pkt).Done?
    ensures Spares(a, Receive(a, sort, pkt).agent, tid)
  {
    hide SortsByPriority, Checklist, Quiet, Spares, ReceiveRequest, ReceiveSuccess, ReceiveError;
    match pkt.message {
      case RequestMessage(_, _, _, _) => RequestSpares(a, sort, pkt, tid);
      case SuccessMessage(_, _) => SuccessSpares(a, sort, pkt, tid);
      case ErrorMessage(_, _, _) => ErrorSpares(a, sort, pkt, tid);
    }
  }

  lemma {:induction false} ReplaySpares(a: Agent, sort: Sort, pkts: seq<Packet>, n: nat, tid: nat)
    requires SortsByPriority(sort) && Valid(a) && n <= |pkts| && Replay(a, sort, pkts, n).Done?
    ensures Spares(a, Replay(a, sort, pkts, n).agent, tid)
  {
    hide SortsByPriority, Checklist, Quiet, Receive, Spares;
    if n == 0 {
      SparesItself(a, a, tid);
    } else {
      var b := Replay(a, sort, pkts, n - 1).agent;
      ReplaySpares(a, sort, pkts, n - 1, tid);
      ReceiveSpares(b, sort, pkts[n - 1], tid);
      SparesTwice(a, b, Receive(b, sort, pkts[n - 1]).agent, tid);
    }
  }

  lemma SetRemoteSpares(a: Agent, sort: Sort, offers: seq<Offered>, rtcpMux: bool, tid: nat)
    requires SortsByPriority(sort) && Valid(a) && SetRemoteData(a, sort, offers, rtcpMux).Done?
    ensures Spares(a, SetRemoteData(a, sort, offers, rtcpMux).agent, tid)
  {
    hide SortsByPriority, Checklist, Quiet, AddRemotes, Replay, Spares;
    var b := WithoutRtcp(a, rtcpMux).(remoteKnown := true);
    var c := AddRemotes(b, sort, offers, |offers|).agent;
    var d := Prepared(a, sort, offers, rtcpMux).agent;
    SparesItself(a, b, tid);
    AddRemotesSpare(b, sort, offers, |offers|, tid);
    SparesTwice(a, b, c, tid);
    SparesItself(c, d, tid);
    SparesTwice(a, c, d, tid);
    ReplaySpares(d, sort, a.backlog, |a.backlog|, tid);
    SparesTwice(a, d, Replay(d, sort, a.backlog, |a.backlog|).agent, tid);
  }

  // ---------- polls ----------

  lemma StartCheckSpares(a: Agent, now: int, other: nat, tid: nat)
    requires Valid(a) && other != tid
    ensures Spares(a, StartCheck(a, now, other), tid)
  {
    hide Checklist, Quiet, NextCheck, Sent;
    var (b, k) := (StartCheck(a, now, other), NextCheck(a));
    SameIndicesSpare(a.pairs, b.pairs, tid);
    if k < |a.pairs| {
      assert Fits(a.table, a.pairs[k]) by {
        FitsAt(a, k);
      }
      SentOne(a.events, CheckEvent(b.pairs[k]), tid);
    }
  }

  lemma PollStateSpares(a: Agent, tid: nat)
    ensures Spares(a, PollState(a), tid)
  {
    hide PollState, Sent;
    PollStateChanges(a);
    var b := PollState(a);
    SameIndicesSpare(a.pairs, b.pairs, tid);
    if b.connection != a.connection {
      SentOne(a.events, ConnectionStateChanged(a.connection, b.connection), tid);
    }
  }

  /** But for the retransmits, a poll spares all checks with other ids than its own. */
  lemma RestOfPollSpares(a: Agent, now: int, other: nat, tid: nat)
    requires Valid(a) && other != tid
    ensures Spares(PollRetransmit(a, now), Poll(a, now, other), tid)
  {
    hide Checklist, Quiet, PollRetransmit, PollState, PollNomination, StartCheck, Spares;
    var b := PollRetransmit(a, now);
    var c := PollState(b);
    var d := PollNomination(c);
    var e := d.(lastTrigger := Some(now));
    PollStateSpares(b, tid);
    PollNominationSpares(c, tid);
    SparesTwice(b, c, d, tid);
    if MayStartCheck(d, now) {
      SparesItself(d, e, tid);
      SparesTwice(b, d, e, tid);
      StartCheckSpares(e, now, other, tid);
      SparesTwice(b, e, StartCheck(e, now, other), tid);
    }
  }

  // ---------- one check ----------

  /** The pair of these candidates runs the check, at this place of its schedule. */
  predicate RunsCheck(p: Pair, l: nat, r: nat, check: Check, timer: StunTimer.Timer) {
    p.local == l && p.remote == r && timer.Running? && p.state == InProgress(check.(timer := timer))
  }

  /** The request was sent sends times at most; and if a pair runs it, this one does, and it was sent as often. */
  ghost predicate Tracks(a: Agent, l: nat, r: nat, check: Check, timer: StunTimer.Timer, sends: int) {
    && Sent(a.events, check.request.tid) <= sends
    && forall j :: 0 <= j < |a.pairs| && Checks(a.pairs[j], check.request.tid) ==>
         RunsCheck(a.pairs[j], l, r, check, timer) && Sent(a.events, check.request.tid) == sends
  }

  lemma SparedStaysTracked(a: Agent, b: Agent, l: nat, r: nat, check: Check, timer: StunTimer.Timer, sends: int)
    requires Tracks(a, l, r, check, timer, sends) && Spares(a, b, check.request.tid)
    ensures Tracks(b, l, r, check, timer, sends)
  {
    var tid := check.request.tid;
    forall j | 0 <= j < |b.pairs| && Checks(b.pairs[j], tid)
      ensures RunsCheck(b.pairs[j], l, r, check, timer) && Sent(b.events, tid) == sends
    {
      assert Survives(b.pairs[j], a.pairs);
      var i :| 0 <= i < |a.pairs| && SameIds(b.pairs[j], a.pairs[i]) && a.pairs[i].state == b.pairs[j].state;
      assert Checks(a.pairs[i], tid);
    }
  }

  /** Retransmits move the check along its schedule, and send it exactly if that says so. */
  lemma RetransmitStaysTracked(a: Agent, now: int, l: nat, r: nat, check: Check, timer: StunTimer.Timer, sends: int)
    requires Valid(a) && Tracks(a, l, r, check, timer, sends)
    ensures Tracks(PollRetransmit(a, now), l, r, check, StunTimer.Poll(StunTimer.DEFAULTS, timer, now),
                   sends + if StunTimer.Resends(StunTimer.DEFAULTS, timer, now) then 1 else 0)
  {
    hide Apart, Ascending, AllFit, Quiet, Sent, CheckEvent;
    var tid := check.request.tid;
    var b := PollRetransmit(a, now);
    SentBoth(a.events, ResendEvents(a.pairs, now, |a.pairs|), tid);
    if i :| 0 <= i < |a.pairs| && Checks(a.pairs[i], tid) {
      forall j | 0 <= j < |a.pairs| && j != i
        ensures !Checks(a.pairs[j], tid)
      {
        OtherIds(a, i, j);
      }
      ResendsOnce(a.pairs, now, |a.pairs|, i, tid);
      TimerStep(a.pairs[i], check, timer, now);
    } else {
      ResendsOnce(a.pairs, now, |a.pairs|, |a.pairs|, tid);
    }
  }

  lemma PollStaysTracked(a: Agent, now: int, other: nat, l: nat, r: nat, check: Check, timer: StunTimer.Timer, sends: int)
    requires Valid(a) && Tracks(a, l, r, check, timer, sends) && other != check.request.tid
    ensures Tracks(Poll(a, now, other), l, r, check, StunTimer.Poll(StunTimer.DEFAULTS, timer, now),
                   sends + if StunTimer.Resends(StunTimer.DEFAULTS, timer, now) then 1 else 0)
  {
    hide Checklist, Tracks, Spares, PollRetransmit, Poll, StunTimer.Poll, StunTimer.Resends;
    RetransmitStaysTracked(a, now, l, r, check, timer, sends);
    RestOfPollSpares(a, now, other, check.request.tid);
    SparedStaysTracked(PollRetransmit(a, now), Poll(a, now, other), l, r, check, StunTimer.Poll(StunTimer.DEFAULTS, timer, now),
                       sends + if StunTimer.Resends(StunTimer.DEFAULTS, timer, now) then 1 else 0);
  }

  // ---------- runs ----------

  /** The times of the polls among the first n operations. */
  function PollTimes(ops: seq<Op>, n: nat): (ts: seq<int>)
    requires n <= |ops|
  {
    if n == 0 then []
    else PollTimes(ops, n - 1) + if ops[n - 1].PollOp? then [ops[n - 1].now] else []
  }

  lemma {:induction false} TimerOfPrefix(start: int, xs: seq<int>, ys: seq<int>, n: nat)
    requires n <= |xs| && xs <= ys
    ensures StunTimer.TimerAfter(StunTimer.DEFAULTS, start, ys, n) == StunTimer.TimerAfter(StunTimer.DEFAULTS, start, xs, n)
    ensures StunTimer.Sends(StunTimer.DEFAULTS, start, ys, n) == StunTimer.Sends(StunTimer.DEFAULTS, start, xs, n)
  {
    if n > 0 {
      TimerOfPrefix(start, xs, ys, n - 1);
    }
  }

  /** The place in the schedule, and how often the request is to be sent, after polls at these times. */
  function Scheduled(start: int, times: seq<int>): (r: (StunTimer.Timer, nat)) {
    (StunTimer.TimerAfter(StunTimer.DEFAULTS, start, times, |times|), StunTimer.Sends(StunTimer.DEFAULTS, start, times, |times|))
  }

  lemma ScheduledOn(start: int, times: seq<int>, now: int)
    ensures var (timer, sends) := Scheduled(start, times);
            Scheduled(start, times + [now]) == (StunTimer.Poll(StunTimer.DEFAULTS, timer, now),
                                                sends + if StunTimer.Resends(StunTimer.DEFAULTS, timer, now) then 1 else 0)
  {
    TimerOfPrefix(start, times, times + [now], |times|);
  }

  ghost predicate Follows(t: Trace, l: nat, r: nat, check: Check, s: (StunTimer.Timer, nat), more: int) {
    Tracks(t.agent, l, r, check, s.0, s.1 + more - Sent(t.taken, check.request.tid))
  }

  /** Taking the first event moves it from one count to the other. */
  lemma TakenCounts(taken: seq<Event>, es: seq<Event>, tid: nat)
    requires es != []
    ensures Sent(taken + [es[0]], tid) + Sent(es[1..], tid) == Sent(taken, tid) + Sent(es, tid)
  {
    hide Sent, Sends;
    var none: seq<Event> := [];
    assert es == [es[0]] + es[1..] && none + [es[0]] == [es[0]];
    SentBoth([es[0]], es[1..], tid);
    SentBoth(taken, [es[0]], tid);
  }

  lemma PopFollows(t: Trace, l: nat, r: nat, check: Check, s: (StunTimer.Timer, nat), more: int)
    requires Follows(t, l, r, check, s, more)
    ensures Follows(PopTrace(t), l, r, check, s, more)
  {
    hide Sent, Checks, RunsCheck;
    if t.agent.events != [] {
      TakenCounts(t.taken, t.agent.events, check.request.tid);
    }
  }

  lemma StepFollows(t: Trace, sort: Sort, op: Op, l: nat, r: nat, check: Check, s: (StunTimer.Timer, nat), more: int)
    requires SortsByPriority(sort) && Valid(t.agent) && Follows(t, l, r, check, s, more)
    requires op.PollOp? ==> op.tid != check.request.tid
    ensures Step(t, sort, op).Some? ==>
              Follows(Step(t, sort, op).value, l, r, check,
                      if op.PollOp? then (StunTimer.Poll(StunTimer.DEFAULTS, s.0, op.now),
                                          s.1 + if StunTimer.Resends(StunTimer.DEFAULTS, s.0, op.now) then 1 else 0) else s, more)
  {
    hide SortsByPriority, Checklist, Quiet, Tracks, Spares, Poll, Receive, AddLocal, AddRemote, SetRemoteData, StunTimer.Poll,
      StunTimer.Resends;
    var tid := check.request.tid;
    var u := Step(t, sort, op);
    var sends := s.1 + more - Sent(t.taken, tid);
    if u.Some? {
      match op {
        case PollOp(now, other) => PollStaysTracked(t.agent, now, other, l, r, check, s.0, sends);
        case PopOp => PopFollows(t, l, r, check, s, more);
        case SetRemoteOp(offers, mux) =>
          SetRemoteSpares(t.agent, sort, offers, mux, tid);
          SameTaken(t, sort, offers, mux);
          SparedStaysTracked(t.agent, u.value.agent, l, r, check, s.0, sends);
        case AddLocalOp(component, kind, base, addr) =>
          AddLocalSpares(t.agent, sort, component, kind, base, addr, tid);
          SparedStaysTracked(t.agent, u.value.agent, l, r, check, s.0, sends);
        case AddRemoteOp(offer) =>
          AddRemoteSpares(t.agent, sort, offer, tid);
          SparedStaysTracked(t.agent, u.value.agent, l, r, check, s.0, sends);
        case ReceiveOp(pkt) =>
          ReceiveSpares(t.agent, sort, pkt, tid);
          SparedStaysTracked(t.agent, u.value.agent, l, r, check, s.0, sends);
      }
    }
  }

  lemma SameTaken(t: Trace, sort: Sort, offers: seq<Offered>, rtcpMux: bool)
    requires SortsByPriority(sort) && Valid(t.agent) && SetRemote(t, sort, offers, rtcpMux).Some?
    ensures SetRemote(t, sort, offers, rtcpMux).value.taken == t.taken
  {
    hide SortsByPriority, Checklist, Quiet, Replay, Receive, AddRemotes;
    var a := Prepared(t.agent, sort, offers, rtcpMux).agent;
    ReplaySameTaken(Visit(t, a), sort, t.agent.backlog, |t.agent.backlog|);
  }

  lemma {:induction false} ReplaySameTaken(t: Trace, sort: Sort, pkts: seq<Packet>, n: nat)
    requires SortsByPriority(sort) && Valid(t.agent) && n <= |pkts| && ReplayTrace(t, sort, pkts, n).Some?
    ensures ReplayTrace(t, sort, pkts, n).value.taken == t.taken
  {
    hide SortsByPriority, Checklist, Quiet, Replay, Receive;
    if n > 0 {
      ReplaySameTaken(t, sort, pkts, n - 1);
    }
  }

  lemma {:induction false} RunFollows(a: Agent, sort: Sort, l: nat, r: nat, check: Check, start: int, ops: seq<Op>, n: nat)
    requires SortsByPriority(sort) && Valid(a) && n <= |ops| && check.timer == StunTimer.Started(StunTimer.DEFAULTS, start)
    requires forall j :: 0 <= j < |a.pairs| && Checks(a.pairs[j], check.request.tid) ==> RunsCheck(a.pairs[j], l, r, check, check.timer)
    requires forall k :: 0 <= k < |ops| && ops[k].PollOp? ==> ops[k].tid != check.request.tid
    ensures var t := Run(a, sort, ops, n);
            t.Some? ==> Follows(t.value, l, r, check, Scheduled(start, PollTimes(ops, n)), Sent(a.events, check.request.tid) - 1)
  {
    hide SortsByPriority, Checklist, Quiet, Step, Scheduled;
    var more := Sent(a.events, check.request.tid) - 1;
    if n == 0 {
      assert Scheduled(start, []) == (check.timer, 1) by {
        NothingScheduled(start);
      }
    } else {
      RunFollows(a, sort, l, r, check, start, ops, n - 1);
      var t := Run(a, sort, ops, n - 1);
      var times := PollTimes(ops, n - 1);
      if t.Some? {
        StepFollows(t.value, sort, ops[n - 1], l, r, check, Scheduled(start, times), more);
        if ops[n - 1].PollOp? {
          ScheduledOn(start, times, ops[n - 1].now);
        } else {
          assert PollTimes(ops, n) == times;
        }
      }
    }
  }

  lemma NothingScheduled(start: int)
    ensures Scheduled(start, []) == (StunTimer.Started(StunTimer.DEFAULTS, start), 1)
  {
  }

  /**
   Over every run of any operations, among them answers, role changes, new candidates and repeated triggers: while the
   check runs it is where the schedule of the polls says, and was sent as often; and when it has ended, for whatever
   reason, it was sent no more often than that, which is eight times at most.
   */
  lemma ChecksFollowTheirTimerAmongAll(a: Agent, sort: Sort, l: nat, r: nat, check: Check, start: int, ops: seq<Op>, n: nat)
    requires SortsByPriority(sort) && Valid(a) && n <= |ops| && check.timer == StunTimer.Started(StunTimer.DEFAULTS, start)
    requires Sent(a.events, check.request.tid) == 1
    requires forall j :: 0 <= j < |a.pairs| && Checks(a.pairs[j], check.request.tid) ==> RunsCheck(a.pairs[j], l, r, check, check.timer)
    requires forall k :: 0 <= k < |ops| && ops[k].PollOp? ==> ops[k].tid != check.request.tid
    ensures var (t, (timer, sends)) := (Run(a, sort, ops, n), Scheduled(start, PollTimes(ops, n)));
            t.Some? ==>
              var sent := Sent(t.value.taken + t.value.agent.events, check.request.tid);
              && sent <= sends <= 8
              && forall j :: 0 <= j < |t.value.agent.pairs| && Checks(t.value.agent.pairs[j], check.request.tid) ==>
                   RunsCheck(t.value.agent.pairs[j], l, r, check, timer) && sent == sends
  {
    hide SortsByPriority, Checklist, Run, Checks, RunsCheck;
    var (t, times) := (Run(a, sort, ops, n), PollTimes(ops, n));
    RunFollows(a, sort, l, r, check, start, ops, n);
    StunTimer.ScheduleIsExact(StunTimer.DEFAULTS, start, times, |times|);
    if t.Some? {
      SentBoth(t.value.taken, t.value.agent.events, check.request.tid);
    }
  }
}
