/** The checks of an ICE agent: how often one is sent until it fails, and what makes its pair succeed. */
module IceChecks {

  import opened IceChecklist
  import opened IceRuns
  import opened IceState
  import opened Wrappers
  import Roles = IceRoles
  import StunTimer

  // ---------- sending a check ----------

  predicate Sends(e: Event, tid: nat) {
    e.SendData? && e.data.BindingRequest? && e.data.request.tid == tid
  }

  /** How often the request with this transaction id is sent. */
  function Sent(es: seq<Event>, tid: nat): (r: nat) {
    if es == [] then 0 else Sent(es[..|es| - 1], tid) + if Sends(es[|es| - 1], tid) then 1 else 0
  }

  lemma SentOne(es: seq<Event>, e: Event, tid: nat)
    ensures Sent(es + [e], tid) == Sent(es, tid) + if Sends(e, tid) then 1 else 0
  {
    assert (es + [e])[..|es|] == es;
  }

  lemma {:induction false} SentBoth(es: seq<Event>, fs: seq<Event>, tid: nat)
    ensures Sent(es + fs, tid) == Sent(es, tid) + Sent(fs, tid)
  {
    if fs == [] {
      assert es + fs == es;
    } else {
      var (gs, e) := (fs[..|fs| - 1], fs[|fs| - 1]);
      assert es + fs == (es + gs) + [e];
      SentOne(es + gs, e, tid);
      SentBoth(es, gs, tid);
    }
  }

  /** The pair is the only one that can have a check with this id, which has no answer; and it is not to be checked again. */
  ghost predicate Unanswered(a: Agent, i: nat, tid: nat) {
    && i < |a.pairs| && (Checks(a.pairs[i], tid) || a.pairs[i].state.Failed?)
    && (forall j :: 0 <= j < |a.pairs| && j != i ==> !Checks(a.pairs[j], tid))
    && (a.pairs[i].local, a.pairs[i].remote) !in a.triggered
  }

  /** The pair and its check are left alone. */
  ghost predicate Leaves(a: Agent, b: Agent, i: nat, tid: nat) {
    && Unanswered(b, i, tid) && i < |a.pairs| && b.pairs[i].state == a.pairs[i].state
    && Sent(b.events, tid) == Sent(a.events, tid)
  }

  lemma {:induction false} ResendsOnce(ps: seq<Pair>, now: int, n: nat, i: nat, tid: nat)
    requires n <= |ps| && forall j :: 0 <= j < |ps| && j != i ==> !Checks(ps[j], tid)
    ensures Sent(ResendEvents(ps, now, n), tid) == if i < n && Checks(ps[i], tid) && Resent(ps[i], now) then 1 else 0
  {
    if n > 0 {
      ResendsOnce(ps, now, n - 1, i, tid);
      var es := ResendEvents(ps, now, n - 1);
      assert es + [] == es;
      if Resent(ps[n - 1], now) {
        SentOne(es, CheckEvent(ps[n - 1]), tid);
      }
    }
  }

  lemma RetransmitMoves(a: Agent, now: int, i: nat, tid: nat)
    requires Valid(a) && Unanswered(a, i, tid)
    ensures var b := PollRetransmit(a, now);
            && Unanswered(b, i, tid) && b.pairs[i] == RetransmitPair(a.pairs[i], now)
            && Sent(b.events, tid) == Sent(a.events, tid) + if Resent(a.pairs[i], now) then 1 else 0
  {
    hide Checklist, CheckEvent, Quiet;
    ResendsOnce(a.pairs, now, |a.pairs|, i, tid);
    SentBoth(a.events, ResendEvents(a.pairs, now, |a.pairs|), tid);
  }

  lemma PollStateLeaves(a: Agent, i: nat, tid: nat)
    requires Unanswered(a, i, tid)
    ensures Leaves(a, PollState(a), i, tid)
  {
    hide PollState;
    PollStateChanges(a);
    var b := PollState(a);
    if b.connection != a.connection {
      SentOne(a.events, ConnectionStateChanged(a.connection, b.connection), tid);
    }
  }

  /** Only pairs whose check succeeded are nominated, and queued for another one. */
  lemma NominateLeaves(a: Agent, component: Component, i: nat, tid: nat)
    requires Valid(a) && Unanswered(a, i, tid)
    ensures Leaves(a, Nominate(a, component), i, tid)
  {
    hide Quiet, Fits, AlreadyNominated;
    var best := Best(a.pairs, component, a.table.controlling, |a.pairs|);
    var b := Nominate(a, component);
    if b != a {
      var k := best.value;
      assert k != i;
      OtherIds(a, i, k);
      if !a.table.controlling {
        SentOne(a.events, b.events[|a.events|], tid);
      }
    }
  }

  lemma OtherIds(a: Agent, i: nat, k: nat)
    requires Valid(a) && i < |a.pairs| && k < |a.pairs| && i != k
    ensures !SameIds(a.pairs[i], a.pairs[k])
  {
    assert Apart(a.pairs[if i < k then i else k], a.pairs[if i < k then k else i]);
  }

  lemma StartCheckLeaves(a: Agent, now: int, other: nat, i: nat, tid: nat)
    requires Valid(a) && Unanswered(a, i, tid) && other != tid
    ensures Leaves(a, StartCheck(a, now, other), i, tid)
  {
    hide Checklist, Quiet;
    var k := NextCheck(a);
    var b := StartCheck(a, now, other);
    if k < |a.pairs| {
      assert k != i;
      assert Fits(a.table, a.pairs[k]) by {
        FitsAt(a, k);
      }
      SentOne(a.events, CheckEvent(b.pairs[k]), tid);
    }
  }

  /** A poll moves the check along its schedule, and sends it exactly if that says so. */
  lemma PollMoves(a: Agent, now: int, other: nat, i: nat, tid: nat)
    requires Valid(a) && Unanswered(a, i, tid) && other != tid
    ensures var b := Poll(a, now, other);
            && i < |b.pairs| && Unanswered(b, i, tid) && b.pairs[i].state == RetransmitPair(a.pairs[i], now).state
            && Sent(b.events, tid) == Sent(a.events, tid) + if Resent(a.pairs[i], now) then 1 else 0
  {
    hide Checklist, Unanswered, Quiet, PollRetransmit, PollState, Nominate, StartCheck, Resent, RetransmitPair;
    var b := PollRetransmit(a, now);
    RetransmitMoves(a, now, i, tid);
    var c := PollState(b);
    PollStateLeaves(b, i, tid);
    NominateLeaves(c, Rtp, i, tid);
    NominateLeaves(Nominate(c, Rtp), Rtcp, i, tid);
    var d := PollNomination(c);
    var e := d.(lastTrigger := Some(now));
    assert Unanswered(e, i, tid) by {
      SameQueue(d, e, i, tid);
    }
    StartCheckLeaves(e, now, other, i, tid);
    InRange(Poll(a, now, other), i, tid);
  }

  lemma InRange(a: Agent, i: nat, tid: nat)
    requires Unanswered(a, i, tid)
    ensures i < |a.pairs|
  {
  }

  lemma SameQueue(a: Agent, b: Agent, i: nat, tid: nat)
    requires Unanswered(a, i, tid) && b.pairs == a.pairs && b.triggered == a.triggered
    ensures Unanswered(b, i, tid)
  {
  }

  datatype PollCall = PollCall(now: int, tid: nat)

  function Polled(a: Agent, polls: seq<PollCall>, n: nat): (b: Agent)
    requires Valid(a) && n <= |polls|
    ensures Valid(b)
  {
    if n == 0 then a else Poll(Polled(a, polls, n - 1), polls[n - 1].now, polls[n - 1].tid)
  }

  function Times(polls: seq<PollCall>): (ts: seq<int>)
    ensures |ts| == |polls| && forall k :: 0 <= k < |polls| ==> ts[k] == polls[k].now
  {
    seq(|polls|, k requires 0 <= k < |polls| => polls[k].now)
  }

  function StateAfter(check: Check, timer: StunTimer.Timer): (r: PairState) {
    if timer.GivenUp? then PairState.Failed else InProgress(check.(timer := timer))
  }

  /** Over every run of polls, at any times, an unanswered check is where the schedule of its timer says, and was sent as often. */
  lemma {:induction false} ChecksFollowTheirTimer(a: Agent, i: nat, check: Check, start: int, polls: seq<PollCall>, n: nat)
    requires Valid(a) && Unanswered(a, i, check.request.tid) && n <= |polls|
    requires check.timer == StunTimer.Started(StunTimer.DEFAULTS, start) && a.pairs[i].state == InProgress(check)
    requires forall k :: 0 <= k < |polls| ==> polls[k].tid != check.request.tid
    ensures var b, timer := Polled(a, polls, n), StunTimer.TimerAfter(StunTimer.DEFAULTS, start, Times(polls), n);
            && i < |b.pairs| && Unanswered(b, i, check.request.tid) && b.pairs[i].state == StateAfter(check, timer)
            && Sent(b.events, check.request.tid)
               == Sent(a.events, check.request.tid) + StunTimer.Sends(StunTimer.DEFAULTS, start, Times(polls), n) - 1
  {
    hide Checklist, Unanswered, Poll, Sent, StunTimer.Poll, StunTimer.Resends;
    var tid := check.request.tid;
    if n == 0 {
      assert check.(timer := check.timer) == check;
      InRange(a, i, tid);
    } else {
      ChecksFollowTheirTimer(a, i, check, start, polls, n - 1);
      var b := Polled(a, polls, n - 1);
      PollMoves(b, polls[n - 1].now, polls[n - 1].tid, i, tid);
      TimerStep(b.pairs[i], check, StunTimer.TimerAfter(StunTimer.DEFAULTS, start, Times(polls), n - 1), polls[n - 1].now);
    }
  }

  lemma TimerStep(p: Pair, check: Check, timer: StunTimer.Timer, now: int)
    requires p.state == StateAfter(check, timer)
    ensures RetransmitPair(p, now).state == StateAfter(check, StunTimer.Poll(StunTimer.DEFAULTS, timer, now))
    ensures Resent(p, now) <==> StunTimer.Resends(StunTimer.DEFAULTS, timer, now)
  {
  }

  // ---------- from the start of a check ----------

  /** The poll that starts a check sends it once. */
  lemma StartedOnce(a: Agent, now: int, tid: nat, i: nat)
    requires Valid(a) && Unused(a.pairs, tid) && Sent(a.events, tid) == 0
    requires i < |Poll(a, now, tid).pairs| && Checks(Poll(a, now, tid).pairs[i], tid)
    requires (Poll(a, now, tid).pairs[i].local, Poll(a, now, tid).pairs[i].remote) !in Poll(a, now, tid).triggered
    ensures var b := Poll(a, now, tid);
            && Unanswered(b, i, tid) && Sent(b.events, tid) == 1
            && b.pairs[i].state.check.timer == StunTimer.Started(StunTimer.DEFAULTS, now)
  {
    hide Checklist, Quiet, PollRetransmit, PollState, Nominate, StartCheck, MayStartCheck, Sent, Unused;
    var b := Poll(a, now, tid);
    AtMostOneNewCheck(a, now, tid);
    UnusedIsNotSent(a, now, tid);
    var c := PollNomination(PollState(PollRetransmit(a, now)));
    assert MayStartCheck(c, now) && i == NextCheck(c) && StartedFrom(c, b.pairs[i], c.pairs[i], now);
    StartIsSent(c.(lastTrigger := Some(now)), now, tid);
    assert Unanswered(b, i, tid) by {
      forall j | 0 <= j < |b.pairs| && j != i
        ensures !Checks(b.pairs[j], tid)
      {
      }
    }
  }

  lemma UnusedIsNotSent(a: Agent, now: int, tid: nat)
    requires Valid(a) && Unused(a.pairs, tid)
    ensures Sent(PollNomination(PollState(PollRetransmit(a, now))).events, tid) == Sent(a.events, tid)
  {
    hide Checklist, Quiet, AllNominated, StillPossible, AlreadyNominated, Sent;
    var b := PollRetransmit(a, now);
    ResendsOnce(a.pairs, now, |a.pairs|, |a.pairs|, tid);
    SentBoth(a.events, ResendEvents(a.pairs, now, |a.pairs|), tid);
    var c := PollState(b);
    SentOne(b.events, ConnectionStateChanged(b.connection, c.connection), tid);
    NominateSendsNothing(c, Rtp, tid);
    NominateSendsNothing(Nominate(c, Rtp), Rtcp, tid);
  }

  lemma NominateSendsNothing(a: Agent, component: Component, tid: nat)
    requires Valid(a)
    ensures Sent(Nominate(a, component).events, tid) == Sent(a.events, tid)
  {
    hide Checklist, Quiet, AlreadyNominated, Sent;
    var b := Nominate(a, component);
    if b.events != a.events {
      SentOne(a.events, b.events[|a.events|], tid);
    }
  }

  lemma StartIsSent(a: Agent, now: int, tid: nat)
    requires Valid(a) && NextCheck(a) < |a.pairs|
    ensures Sent(StartCheck(a, now, tid).events, tid) == Sent(a.events, tid) + 1
  {
    hide Checklist, Quiet, NextCheck, Sent;
    var b, k := StartCheck(a, now, tid), NextCheck(a);
    assert Fits(a.table, a.pairs[k]) by {
      FitsAt(a, k);
    }
    SentOne(a.events, CheckEvent(b.pairs[k]), tid);
  }

  /**
   A check that is started by a poll and gets no answer is sent eight times at most over any further polls: its pair
   has failed after enough polls past the last deadline, and never before that.
   */
  lemma EightSendsThenFailed(a: Agent, now: int, tid: nat, i: nat, polls: seq<PollCall>, n: nat)
    requires Valid(a) && Unused(a.pairs, tid) && Sent(a.events, tid) == 0
    requires i < |Poll(a, now, tid).pairs| && Checks(Poll(a, now, tid).pairs[i], tid)
    requires (Poll(a, now, tid).pairs[i].local, Poll(a, now, tid).pairs[i].remote) !in Poll(a, now, tid).triggered
    requires n <= |polls| && forall k :: 0 <= k < |polls| ==> polls[k].tid != tid
    ensures var b := Polled(Poll(a, now, tid), polls, n);
            && i < |b.pairs| && Sent(b.events, tid) <= 8
            && (b.pairs[i].state.Failed? ==> Sent(b.events, tid) == 8 && exists k :: 0 <= k < n && polls[k].now >= now + 15750)
            && (StunTimer.LatePolls(StunTimer.DEFAULTS, now, Times(polls), n) > 7 ==> b.pairs[i].state.Failed?)
  {
    hide Checklist, Poll, Sent, Unused, StunTimer.TimerAfter, StunTimer.Sends, StunTimer.DuePolls, StunTimer.Deadline,
      StunTimer.LatePolls;
    var b := Poll(a, now, tid);
    StartedOnce(a, now, tid, i);
    var check := b.pairs[i].state.check;
    ChecksFollowTheirTimer(b, i, check, now, polls, n);
    StunTimer.ScheduleIsExact(StunTimer.DEFAULTS, now, Times(polls), n);
    StunTimer.DefaultLastDeadline(now);
    if StunTimer.LatePolls(StunTimer.DEFAULTS, now, Times(polls), n) > 7 {
      StunTimer.GivenUpInTheEnd(StunTimer.DEFAULTS, now, Times(polls), n);
    }
    if forall k :: 0 <= k < n ==> polls[k].now < now + 15750 {
      StunTimer.NotGivenUpEarly(StunTimer.DEFAULTS, now, Times(polls), n);
    }
  }

  // ---------- answers to a check ----------

  /** The state of the pair of two candidates, if there is one. */
  function StateOf(ps: seq<Pair>, l: nat, r: nat): (result: Option<PairState>) {
    var k := FindPair(ps, l, r, 0);
    if k < |ps| then Some(ps[k].state) else None
  }

  /** The packet is an authentic success response to the check of this pair. */
  predicate Answers(a: Agent, pkt: Packet, l: nat, r: nat) {
    && pkt.message.SuccessMessage? && a.remoteKnown && pkt.authentic
    && var k := FindCheck(a.pairs, pkt.message.tid, 0);
    && k < |a.pairs| && a.pairs[k].local == l && a.pairs[k].remote == r
  }

  ghost predicate Survives(p: Pair, qs: seq<Pair>) {
    exists j :: 0 <= j < |qs| && SameIds(p, qs[j]) && qs[j].state == p.state
  }

  /** All pairs are still there, in the same state. */
  ghost predicate SameStates(ps: seq<Pair>, qs: seq<Pair>) {
    forall l: nat, r: nat :: StateOf(ps, l, r).Some? ==> StateOf(qs, l, r) == StateOf(ps, l, r)
  }

  lemma StateOfMember(ps: seq<Pair>, k: nat)
    requires AllApart(ps) && k < |ps|
    ensures StateOf(ps, ps[k].local, ps[k].remote) == Some(ps[k].state)
  {
    forall j | 0 <= j < k
      ensures !SameIds(ps[j], ps[k])
    {
      assert Apart(ps[j], ps[k]);
    }
  }

  lemma SurvivorsHaveSameStates(ps: seq<Pair>, qs: seq<Pair>)
    requires AllApart(qs) && forall i :: 0 <= i < |ps| ==> Survives(ps[i], qs)
    ensures SameStates(ps, qs)
  {
    hide Survives;
    forall l: nat, r: nat | StateOf(ps, l, r).Some?
      ensures StateOf(qs, l, r) == StateOf(ps, l, r)
    {
      SurvivorHasSameState(ps[FindPair(ps, l, r, 0)], qs);
    }
  }

  lemma SurvivorHasSameState(p: Pair, qs: seq<Pair>)
    requires AllApart(qs) && Survives(p, qs)
    ensures StateOf(qs, p.local, p.remote) == Some(p.state)
  {
    var j :| 0 <= j < |qs| && SameIds(p, qs[j]) && qs[j].state == p.state;
    StateOfMember(qs, j);
  }

  lemma TakeRoleKeepsStates(a: Agent, sort: Sort, controlling: bool)
    requires SortsByPriority(sort) && Valid(a)
    ensures SameStates(a.pairs, TakeRole(a, sort, controlling).pairs)
  {
    hide SameStates;
    RecomputeKeeps(a.table, sort, a.pairs, controlling);
    var u := a.table.(controlling := controlling);
    var (ps, rs) := (a.pairs, Recomputed(u, a.pairs));
    var qs := sort(rs);
    forall i | 0 <= i < |ps|
      ensures Survives(ps[i], qs)
    {
      assert rs[i] in multiset(qs);
    }
    SurvivorsHaveSameStates(ps, qs);
  }

  lemma SameIndicesSameStates(ps: seq<Pair>, qs: seq<Pair>)
    requires AllApart(qs) && |qs| == |ps|
    requires forall i :: 0 <= i < |ps| ==> SameIds(ps[i], qs[i]) && qs[i].state == ps[i].state
    ensures SameStates(ps, qs)
  {
    hide SameStates;
    forall i | 0 <= i < |ps|
      ensures Survives(ps[i], qs)
    {
      assert SameIds(ps[i], qs[i]);
    }
    SurvivorsHaveSameStates(ps, qs);
  }

  lemma NominateKeepsStates(a: Agent, component: Component)
    requires Valid(a)
    ensures SameStates(a.pairs, Nominate(a, component).pairs)
  {
    hide SameStates, Fits, Quiet, AlreadyNominated;
    SameIndicesSameStates(a.pairs, Nominate(a, component).pairs);
  }

  lemma LearnKeepsStates(a: Agent, sort: Sort, l: nat, pkt: Packet)
    requires SortsByPriority(sort) && Valid(a) && pkt.message.RequestMessage? && pkt.message.priority.Some?
    requires l < |a.table.locals| && a.table.locals[l].Some?
    ensures SameStates(a.pairs, LearnRemote(a, sort, l, pkt).pairs)
  {
    hide SameStates, SortsByPriority, Fits, Apart, Ascending, Quiet, AddPair, NewPair;
    var b := LearnRemote(a, sort, l, pkt);
    var r := |a.table.remotes|;
    if FindRemote(a.table.remotes, pkt.source, 0) == r {
      MoreCandidatesKeep(a.table, b.table, a.pairs);
      AddPairKeeps(b.table, sort, a.pairs, l, r);
      forall i | 0 <= i < |a.pairs|
        ensures Survives(a.pairs[i], b.pairs)
      {
        assert a.pairs[i] in b.pairs;
      }
      SurvivorsHaveSameStates(a.pairs, b.pairs);
    } else {
      SameIndicesSameStates(a.pairs, b.pairs);
    }
  }

  lemma AcknowledgeKeepsStates(a: Agent, k: nat, pkt: Packet)
    requires Valid(a) && pkt.message.RequestMessage? && k < |a.pairs|
    ensures SameStates(a.pairs, Acknowledge(a, k, pkt).pairs)
  {
    hide Quiet, Nominate, StateOf;
    var p := a.pairs[k].(receivedUse := pkt.message.useCandidate);
    assert Fits(a.table, a.pairs[k]);
    UpdateKeeps(a.table, a.pairs, k, p);
    var b := a.(pairs := a.pairs[k := p])
      .Emit(SendData(p.component, SuccessResponse(pkt.message.tid, pkt.source), a.table.locals[p.local].value.base.ip, pkt.source));
    SameIndicesSameStates(a.pairs, b.pairs);
    NominateKeepsStates(b, Rtp);
    NominateKeepsStates(Nominate(b, Rtp), Rtcp);
  }

  /** A request changes the state of no pair. */
  lemma RequestKeepsStates(a: Agent, sort: Sort, pkt: Packet)
    requires SortsByPriority(sort) && Valid(a) && pkt.message.RequestMessage? && ReceiveRequest(a, sort, pkt).Done?
    ensures SameStates(a.pairs, ReceiveRequest(a, sort, pkt).agent.pairs)
  {
    hide SortsByPriority, Checklist, Quiet, StateOf, LearnRemote, Acknowledge, TakeRole;
    TakeRoleKeepsStates(a, sort, !a.table.controlling);
    var settled := SettleRole(a, sort, pkt);
    if a.remoteKnown && pkt.authentic && pkt.message.priority.Some? && settled.Some? {
      var b := settled.value;
      var l := FindHost(b.table.locals, pkt.destination, 0);
      if l < |b.table.locals| {
        LearnKeepsStates(b, sort, l, pkt);
        var c := LearnRemote(b, sort, l, pkt);
        var k := FindPair(c.pairs, l, FindRemote(c.table.remotes, pkt.source, 0), 0);
        if k < |c.pairs| {
          AcknowledgeKeepsStates(c, k, pkt);
        }
      }
    }
  }

  /** A new candidate changes the state of no pair, though pairs may go. */
  lemma AddLocalKeepsStates(a: Agent, sort: Sort, component: Component, kind: Kind, base: Addr, addr: Addr, l: nat, r: nat)
    requires SortsByPriority(sort) && Valid(a) && StateOf(a.pairs, l, r).Some?
    ensures var b := AddLocal(a, sort, component, kind, base, addr);
            StateOf(b.pairs, l, r).None? || StateOf(b.pairs, l, r) == StateOf(a.pairs, l, r)
  {
    hide SortsByPriority, Fits, Apart, Ascending, Quiet, LocalPriority, FormRows;
    var b := AddLocal(a, sort, component, kind, base, addr);
    if b != a {
      MoreCandidatesKeep(a.table, b.table, a.pairs);
      var some := FormRows(b.table, sort, a.pairs, |b.table.locals|);
      FormRowsKeep(b.table, sort, a.pairs, |b.table.locals|);
      SortKeeps(b.table, sort, some);
      var all := sort(some);
      var p := a.pairs[FindPair(a.pairs, l, r, 0)];
      SortedMembers(sort, some, p);
      assert p in all;
      var j :| 0 <= j < |all| && all[j] == p;
      assert Survives(p, all);
      SurvivorHasSameState(p, all);
      PrefixStates(b.pairs, all, l, r);
    }
  }

  lemma PrefixStates(ps: seq<Pair>, qs: seq<Pair>, l: nat, r: nat)
    requires ps <= qs
    ensures StateOf(ps, l, r).None? || StateOf(ps, l, r) == StateOf(qs, l, r)
  {
  }

  /** What an answer does to its own pair, and to others. */
  lemma AnsweredStates(a: Agent, k: nat, symmetric: bool, l: nat, r: nat)
    requires Valid(a) && k < |a.pairs| && StateOf(a.pairs, l, r).Some?
    ensures StateOf(Answered(a, k, symmetric).pairs, l, r)
            == if a.pairs[k].local == l && a.pairs[k].remote == r then Some(if symmetric then Succeeded else PairState.Failed)
               else StateOf(a.pairs, l, r)
  {
    hide Quiet, Fits, Apart, StateOf;
    var b := Answered(a, k, symmetric);
    var i := FindPair(a.pairs, l, r, 0);
    assert i < |a.pairs| by {
      FoundAt(a.pairs, l, r);
    }
    StateOfMember(a.pairs, i);
    StateOfMember(b.pairs, i);
    if i != k {
      OtherIds(a, i, k);
    }
  }

  lemma FoundAt(ps: seq<Pair>, l: nat, r: nat)
    requires StateOf(ps, l, r).Some?
    ensures FindPair(ps, l, r, 0) < |ps|
  {
  }

  /**
   Whatever an agent receives, a pair has succeeded afterwards exactly if it had before, or the packet answers its
   check and comes from where that went or goes to where that came from.
   */
  lemma SucceedsExactly(a: Agent, sort: Sort, pkt: Packet, l: nat, r: nat)
    requires SortsByPriority(sort) && Valid(a) && Receive(a, sort, pkt).Done?
    requires StateOf(a.pairs, l, r).Some? && StateOf(Receive(a, sort, pkt).agent.pairs, l, r).Some?
    ensures Answers(a, pkt, l, r) ==> StateOf(a.pairs, l, r).value.InProgress?
    ensures StateOf(Receive(a, sort, pkt).agent.pairs, l, r) == Some(Succeeded) <==>
            || StateOf(a.pairs, l, r) == Some(Succeeded)
            || (Answers(a, pkt, l, r) && IsSymmetric(StateOf(a.pairs, l, r).value.check, pkt))
  {
    hide SortsByPriority, Checklist, Quiet, StateOf, ReceiveRequest, TakeRole, ToldRole, IsSymmetric;
    match pkt.message {
      case RequestMessage(_, _, _, _) => RequestKeepsStates(a, sort, pkt);
      case SuccessMessage(_, _) => AnswerSucceedsExactly(a, sort, pkt, l, r);
      case ErrorMessage(_, _, _) => ErrorSucceedsNever(a, sort, pkt, l, r);
    }
  }

  lemma AnswerSucceedsExactly(a: Agent, sort: Sort, pkt: Packet, l: nat, r: nat)
    requires SortsByPriority(sort) && Valid(a) && pkt.message.SuccessMessage?
    requires StateOf(a.pairs, l, r).Some? && StateOf(ReceiveSuccess(a, sort, pkt).pairs, l, r).Some?
    ensures Answers(a, pkt, l, r) ==> StateOf(a.pairs, l, r).value.InProgress?
    ensures StateOf(ReceiveSuccess(a, sort, pkt).pairs, l, r) == Some(Succeeded) <==>
            || StateOf(a.pairs, l, r) == Some(Succeeded)
            || (Answers(a, pkt, l, r) && IsSymmetric(StateOf(a.pairs, l, r).value.check, pkt))
  {
    hide SortsByPriority, Quiet, Fits, Apart, Ascending, StateOf, Answered, AddLocal, IsSymmetric;
    var k := FindCheck(a.pairs, pkt.message.tid, 0);
    if a.remoteKnown && pkt.authentic && k < |a.pairs| {
      var p := a.pairs[k];
      StateOfMember(a.pairs, k);
      AnsweredStates(a, k, IsSymmetric(p.state.check, pkt), l, r);
      if pkt.message.mapped.Some? {
        AddLocalKeepsStates(Answered(a, k, IsSymmetric(p.state.check, pkt)), sort, p.component, PeerReflexive, pkt.destination,
                            pkt.message.mapped.value, l, r);
      }
    }
  }

  lemma ErrorSucceedsNever(a: Agent, sort: Sort, pkt: Packet, l: nat, r: nat)
    requires SortsByPriority(sort) && Valid(a) && pkt.message.ErrorMessage? && StateOf(a.pairs, l, r).Some?
    ensures StateOf(ReceiveError(a, sort, pkt).pairs, l, r) == Some(Succeeded) <==> StateOf(a.pairs, l, r) == Some(Succeeded)
  {
    hide SortsByPriority, Quiet, Fits, Apart, Ascending, StateOf, TakeRole, ToldRole;
    var k := FindCheck(a.pairs, pkt.message.tid, 0);
    if a.remoteKnown && pkt.authentic && k < |a.pairs| && pkt.message.code == Some(Roles.ROLE_CONFLICT) {
      var p := a.pairs[k];
      UpdateKeeps(a.table, a.pairs, k, p.(state := Waiting));
      var b := a.(pairs := a.pairs[k := p.(state := Waiting)], triggered := a.triggered + [(p.local, p.remote)]);
      var i := FindPair(a.pairs, l, r, 0);
      FoundAt(a.pairs, l, r);
      StateOfMember(a.pairs, i);
      StateOfMember(b.pairs, i);
      TakeRoleKeepsStates(b, sort, ToldRole(pkt.message.role, a.table.controlling));
    }
  }

  /**
   That a pair succeeds only on a response whose addresses both fit, as the comment demands, holds of an answer
   exactly if the two tests agree on it: a response of which only one address fits makes the pair succeed.
   */
  lemma BothAddressesFitExactly(a: Agent, sort: Sort, pkt: Packet, l: nat, r: nat)
    requires SortsByPriority(sort) && Valid(a) && Answers(a, pkt, l, r)
    requires StateOf(a.pairs, l, r).Some? && StateOf(ReceiveSuccess(a, sort, pkt).pairs, l, r).Some?
    ensures StateOf(a.pairs, l, r).value.InProgress?
    ensures var check := StateOf(a.pairs, l, r).value.check;
            (StateOf(ReceiveSuccess(a, sort, pkt).pairs, l, r) == Some(Succeeded) ==> SourceFits(check, pkt) && DestinationFits(check, pkt))
              <==> (SourceFits(check, pkt) <==> DestinationFits(check, pkt))
  {
    hide SortsByPriority, Checklist, Quiet, StateOf, SourceFits, DestinationFits, ReceiveSuccess;
    AnswerSucceedsExactly(a, sort, pkt, l, r);
    StateOfAnswered(a, pkt, l, r);
  }

  lemma StateOfAnswered(a: Agent, pkt: Packet, l: nat, r: nat)
    requires Valid(a) && Answers(a, pkt, l, r)
    ensures StateOf(a.pairs, l, r).Some? && StateOf(a.pairs, l, r).value.InProgress?
  {
    StateOfMember(a.pairs, FindCheck(a.pairs, pkt.message.tid, 0));
  }
}
