/** Runs of an ICE agent, from its creation, that reach what its comments or its expectations rule out. */
module IceWitnesses {

  import opened IceChecklist
  import opened IceRuns
  import opened IceState
  import opened Wrappers
  import StunTimer

  function Address(n: nat): (r: Addr) {
    Addr(Ip(false, false, n), 5000)
  }

  const OURS := Address(1)
  const THEIRS := Address(2)
  const STRANGE := Address(3)

  const HOST_LINE := Offered(Some(Host), true, 1, Some(THEIRS), 100)
  const REMOTE := Candidate(THEIRS, Host, 100, Rtp, THEIRS)

  function Local(component: Component): (r: Candidate) {
    Candidate(OURS, Host, LocalPriority(Host, 0, component), component, OURS)
  }

  lemma NothingSorts(sort: Sort)
    requires SortsByPriority(sort)
    ensures sort([]) == []
  {
    assert multiset(sort([])) == multiset([]);
  }

  lemma OneSorts(sort: Sort, p: Pair)
    requires SortsByPriority(sort)
    ensures sort([p]) == [p]
  {
    var qs := sort([p]);
    assert multiset(qs) == multiset([p]);
    assert |qs| == |multiset(qs)| == 1;
    assert qs[0] in multiset(qs);
  }

  lemma FormsNothing(t: Table, sort: Sort, max: nat)
    requires SortsByPriority(sort) && |t.locals| == 1 && t.remotes == []
    ensures FormPairs(t, sort, [], max) == []
  {
    NothingSorts(sort);
    assert FormRows(t, sort, [], 0) == [];
    assert FormRows(t, sort, [], 1) == [];
  }

  lemma FormsOneIfEligible(t: Table, sort: Sort, max: nat)
    requires SortsByPriority(sort) && |t.locals| == |t.remotes| == 1 && t.Live(0, 0) && max > 0
    ensures FormPairs(t, sort, [], max) == if Pairable(t, 0, 0) then [NewPair(t, 0, 0)] else []
  {
    hide NewPair;
    NothingSorts(sort);
    OneSorts(sort, NewPair(t, 0, 0));
    assert [] + [NewPair(t, 0, 0)] == [NewPair(t, 0, 0)];
    assert FormRow(t, sort, [], 0, 0) == [] == FormRows(t, sort, [], 0);
    assert FormRow(t, sort, [], 0, 1) == FormRows(t, sort, [], 1);
  }

  /** The agent with one host candidate and no remote one. */
  lemma FirstLocal(a: Agent, sort: Sort, component: Component)
    requires SortsByPriority(sort) && Valid(a) && a.table.locals == [] && a.table.remotes == [] && a.pairs == []
    ensures AddLocal(a, sort, component, Host, OURS, OURS) == a.(table := a.table.(locals := [Some(Local(component))]))
  {
    hide SortsByPriority, LocalPriority, Quiet, FormPairs;
    var t := a.table.(locals := [Some(Local(component))]);
    assert CountKind(a.table.locals, Host, 0) == 0;
    assert a.table.locals + [Some(Local(component))] == [Some(Local(component))];
    FormsNothing(t, sort, a.maxPairs);
  }

  /** It is paired with the first remote candidate if both are for RTP. */
  lemma FirstRemote(a: Agent, sort: Sort, component: Component)
    requires SortsByPriority(sort) && Valid(a) && a.maxPairs == 100 && a.table == Table([Some(Local(component))], [], a.table.controlling)
    requires a.pairs == []
    ensures var t := a.table.(remotes := [REMOTE]);
            && t.Live(0, 0)
            && AddRemote(a, sort, HOST_LINE) == Done(a.(table := t, pairs := if component.Rtp? then [NewPair(t, 0, 0)] else []))
  {
    hide SortsByPriority, LocalPriority, Quiet, NewPair, FormPairs;
    var t := a.table.(remotes := [REMOTE]);
    assert a.table.remotes + [REMOTE] == [REMOTE];
    FormsOneIfEligible(t, sort, a.maxPairs);
  }

  lemma OneStep(a: Agent, sort: Sort, ops: seq<Op>, n: nat, t: Trace)
    requires SortsByPriority(sort) && Valid(a) && n < |ops| && Run(a, sort, ops, n) == Some(t) && Valid(t.agent)
    ensures Run(a, sort, ops, n + 1) == Step(t, sort, ops[n])
  {
  }

  /** The agent after its two candidates are there, and the trace of it. */
  lemma TwoCandidates(controlling: bool, mux: bool, sort: Sort, component: Component, ops: seq<Op>)
    requires SortsByPriority(sort) && |ops| >= 2 && ops[0] == AddLocalOp(component, Host, OURS, OURS) && ops[1] == AddRemoteOp(HOST_LINE)
    ensures var a := Created(controlling, 0, mux, true);
            var t := Table([Some(Local(component))], [REMOTE], controlling);
            && Valid(a) && t.Live(0, 0)
            && var r := Run(a, sort, ops, 2);
            r.Some? && r.value.agent == a.(table := t, pairs := if component.Rtp? then [NewPair(t, 0, 0)] else [])
  {
    hide SortsByPriority, LocalPriority, Checklist, AddLocal, AddRemote, NewPair;
    var a := Created(controlling, 0, mux, true);
    CreatedIsValid(controlling, 0, mux, true);
    FirstLocal(a, sort, component);
    var b := AddLocal(a, sort, component, Host, OURS, OURS);
    OneStep(a, sort, ops, 0, Started(a));
    FirstRemote(b, sort, component);
    OneStep(a, sort, ops, 1, Visit(Started(a), b));
  }

  // ---------- a panic ----------

  const PANIC_OPS := [
    AddLocalOp(Rtcp, Host, OURS, OURS), AddRemoteOp(HOST_LINE),
    ReceiveOp(Packet(RequestMessage(7, Some(5), false, None), true, THEIRS, OURS, Rtcp))
  ]

  /** A host candidate for RTCP, and a request to it from the address of the peer's candidate for RTP. */
  lemma KnownAddressPanics(sort: Sort)
    requires SortsByPriority(sort)
    ensures Valid(Created(true, 0, false, true))
    ensures var t := Run(Created(true, 0, false, true), sort, PANIC_OPS, 2);
            t.Some? && Receive(t.value.agent, sort, PANIC_OPS[2].pkt) == Panicked
  {
    hide SortsByPriority, LocalPriority, Quiet, Checklist, Run, ReceiveRequest;
    TwoCandidates(true, false, sort, Rtcp, PANIC_OPS);
    var (a, pkt) := (Run(Created(true, 0, false, true), sort, PANIC_OPS, 2).value.agent, PANIC_OPS[2].pkt);
    assert FindHost(a.table.locals, pkt.destination, 0) == 0;
    assert FindRemote(a.table.remotes, pkt.source, 0) == 0;
    assert SettleRole(a, sort, pkt) == Some(a);
    PanicsExactly(a, sort, pkt);
  }

  // ---------- a response from a strange address ----------

  function StrangeResponse(tid: nat): (r: Packet) {
    Packet(SuccessMessage(tid, None), true, STRANGE, OURS, Rtp)
  }

  const STRANGE_OPS := [
    AddLocalOp(Rtp, Host, OURS, OURS), AddRemoteOp(HOST_LINE), PollOp(0, 7), ReceiveOp(StrangeResponse(7)),
    PollOp(50, 8), ReceiveOp(StrangeResponse(8))
  ]

  /** The agent has one pair, and these entries in its queue of triggered checks. */
  ghost predicate Holds(a: Agent, p: Pair, queue: seq<(nat, nat)>) {
    && Valid(a) && a.table == Table([Some(Local(Rtp))], [REMOTE], true) && a.pairs == [p] && a.triggered == queue
    && p.local == p.remote == 0 && p.component == Rtp && a.rtcpMux && a.remoteKnown
  }

  lemma NoNominationYet(a: Agent, p: Pair, now: int)
    requires Holds(a, p, []) && !p.state.InProgress?
    ensures var b := PollState(PollRetransmit(a, now)); Holds(b, p, []) && b.lastTrigger == a.lastTrigger
  {
    hide Checklist, Quiet, LocalPriority, PollState;
    var b := PollRetransmit(a, now);
    assert b.pairs == [p];
    PollStateChanges(b);
  }

  lemma NominatesNone(a: Agent, p: Pair)
    requires Holds(a, p, []) && !p.state.Succeeded?
    ensures PollNomination(a) == a
  {
    hide Checklist, Quiet, LocalPriority;
  }

  lemma NominatesIt(a: Agent, p: Pair)
    requires Holds(a, p, []) && p.state.Succeeded? && !p.nominated
    ensures var b := PollNomination(a); Holds(b, p.(nominated := true), [(0, 0)]) && b.lastTrigger == a.lastTrigger
  {
    hide Checklist, Quiet, LocalPriority;
    assert Best([p], Rtp, true, 0) == None;
    assert [p][0 := p.(nominated := true)] == [p.(nominated := true)];
  }

  /** The pair with a check that was started. */
  function WithCheck(a: Agent, p: Pair, now: int, tid: nat): (r: Pair)
    requires a.table.Live(p.local, p.remote)
  {
    p.(state := InProgress(CheckFor(a, p, now, tid)))
  }

  lemma StartsIt(a: Agent, p: Pair, queue: seq<(nat, nat)>, now: int, tid: nat)
    requires Holds(a, p, queue) && ((queue == [] && p.state.Waiting?) || queue == [(0, 0)])
    ensures a.table.Live(p.local, p.remote) && Holds(StartCheck(a, now, tid), WithCheck(a, p, now, tid), [])
  {
    hide Checklist, Quiet, LocalPriority, CheckFor, CheckEvent;
    assert NextCheck(a) == 0;
    assert a.table.Live(p.local, p.remote);
    assert [p][0 := WithCheck(a, p, now, tid)] == [WithCheck(a, p, now, tid)];
  }

  /** Only the destination of the response fits, and the pair succeeds; if it was nominated, its address is used. */
  lemma StrangeResponseSucceeds(a: Agent, sort: Sort, p: Pair, tid: nat)
    requires SortsByPriority(sort) && Holds(a, p, []) && Checks(p, tid) && p.state.check.source == OURS.ip && p.state.check.target == THEIRS
    ensures !SourceFits(p.state.check, StrangeResponse(tid))
    ensures var o := Receive(a, sort, StrangeResponse(tid));
            && o.Done? && Holds(o.agent, p.(state := Succeeded), []) && o.agent.lastTrigger == a.lastTrigger
            && o.agent.events == a.events + if p.nominated then [UseAddr(Rtp, THEIRS)] else []
  {
    hide Checklist, Quiet, LocalPriority, AddLocal;
    assert FindCheck(a.pairs, tid, 0) == 0;
    assert [p][0 := p.(state := Succeeded)] == [p.(state := Succeeded)];
  }

  /** The one pair has a check in progress that was started at this time. */
  ghost predicate IsChecking(a: Agent, nominated: bool, tid: nat, now: int) {
    && |a.pairs| == 1 && Holds(a, a.pairs[0], []) && a.pairs[0].nominated == nominated && Checks(a.pairs[0], tid)
    && a.pairs[0].state.check.source == OURS.ip && a.pairs[0].state.check.target == THEIRS && a.lastTrigger == Some(now)
  }

  /** A poll starts the check of the pair; the pair is nominated first if an earlier check succeeded. */
  lemma PollsIt(a: Agent, p: Pair, now: int, tid: nat)
    requires Holds(a, p, []) && !p.nominated && MayStartCheck(a, now) && (p.state.Waiting? || p.state.Succeeded?)
    ensures IsChecking(Poll(a, now, tid), p.state.Succeeded?, tid, now)
  {
    hide Checklist, Quiet, LocalPriority, PollRetransmit, PollState, PollNomination, StartCheck;
    var c := PollState(PollRetransmit(a, now));
    NoNominationYet(a, p, now);
    NominationTimes(c);
    var d := PollNomination(c);
    if p.state.Waiting? {
      NominatesNone(c, p);
      PollStartsIt(a, d, p, [], now, tid);
    } else {
      NominatesIt(c, p);
      PollStartsIt(a, d, p.(nominated := true), [(0, 0)], now, tid);
    }
  }

  lemma PollStartsIt(a: Agent, d: Agent, p: Pair, queue: seq<(nat, nat)>, now: int, tid: nat)
    requires Valid(a) && d == PollNomination(PollState(PollRetransmit(a, now))) && Holds(d, p, queue) && MayStartCheck(d, now)
    requires (queue == [] && p.state.Waiting?) || queue == [(0, 0)]
    ensures IsChecking(Poll(a, now, tid), p.nominated, tid, now)
  {
    hide Checklist, Quiet, LocalPriority, PollRetransmit, PollState, PollNomination, StartCheck, StunTimer.Started;
    var e := d.(lastTrigger := Some(now));
    StartsIt(e, p, queue, now, tid);
    StartTimes(e, now, tid);
  }

  lemma StartTimes(a: Agent, now: int, tid: nat)
    requires Valid(a)
    ensures StartCheck(a, now, tid).lastTrigger == a.lastTrigger
  {
    hide Checklist, NextCheck;
  }

  /**
   The first response answers the check and the second one the nomination. Both come from an address that nothing was
   sent to: the pair succeeds, and its address is used.
   */
  lemma OneAddressIsEnough(sort: Sort)
    requires SortsByPriority(sort)
    ensures Valid(Created(true, 0, true, true))
    ensures var t := Run(Created(true, 0, true, true), sort, STRANGE_OPS, 6);
            && t.Some? && |t.value.agent.pairs| == 1 && t.value.agent.pairs[0].state.Succeeded? && t.value.agent.pairs[0].nominated
            && UseAddr(Rtp, THEIRS) in t.value.agent.events
    ensures STRANGE_OPS[3].pkt.source == STRANGE_OPS[5].pkt.source == STRANGE != THEIRS
  {
    hide SortsByPriority, LocalPriority, Checklist, Run, Poll, Receive;
    var a := Created(true, 0, true, true);
    TwoCandidates(true, true, sort, Rtp, STRANGE_OPS);
    var t2 := Run(a, sort, STRANGE_OPS, 2).value;
    PollsIt(t2.agent, t2.agent.pairs[0], 0, 7);
    OneStep(a, sort, STRANGE_OPS, 2, t2);
    var t3 := Run(a, sort, STRANGE_OPS, 3).value;
    StrangeResponseSucceeds(t3.agent, sort, t3.agent.pairs[0], 7);
    OneStep(a, sort, STRANGE_OPS, 3, t3);
    var t4 := Run(a, sort, STRANGE_OPS, 4).value;
    PollsIt(t4.agent, t4.agent.pairs[0], 50, 8);
    OneStep(a, sort, STRANGE_OPS, 4, t4);
    var t5 := Run(a, sort, STRANGE_OPS, 5).value;
    StrangeResponseSucceeds(t5.agent, sort, t5.agent.pairs[0], 8);
    OneStep(a, sort, STRANGE_OPS, 5, t5);
  }

  // ---------- a component without a pair ----------

  /** The candidates of one component, whose priority says which it is. */
  function CandidateOf(address: Addr, component: Component): (r: Candidate) {
    Candidate(address, Host, if component.Rtp? then 2 else 1, component, address)
  }

  const TWO_COMPONENTS := Table([Some(CandidateOf(OURS, Rtp)), Some(CandidateOf(OURS, Rtcp))],
                                [CandidateOf(THEIRS, Rtp), CandidateOf(THEIRS, Rtcp)], false)

  /** The pair of one component, whose check succeeded, and for which the peer has asked. */
  function AskedFor(l: nat): (r: Pair)
    requires l < 2
  {
    Pair(l, l, TWO_COMPONENTS.PriorityOf(l, l), Succeeded, if l == 0 then Rtp else Rtcp, true, false)
  }

  /** Controlled, with a pair for RTP and one for RTCP that can be nominated: only the first one is, now and at the next poll. */
  lemma RtcpIsLeftOut()
    ensures var a := Created(false, 0, false, true).(table := TWO_COMPONENTS, pairs := [AskedFor(1), AskedFor(0)]);
            && Valid(a) && Nominable(a.pairs[0], Rtcp, false) && Nominable(a.pairs[1], Rtp, false)
            && var b := PollNomination(a);
            && b.pairs == [AskedFor(1), AskedFor(0).(nominated := true)] && PollNomination(b) == b
  {
    var a := Created(false, 0, false, true).(table := TWO_COMPONENTS, pairs := [AskedFor(1), AskedFor(0)]);
    var ps := a.pairs;
    assert Checklist(TWO_COMPONENTS, ps);
    assert Best(ps, Rtp, false, 0) == None && Best(ps, Rtp, false, 1) == None;
    assert Best(ps, Rtp, false, 2) == Some(1);
    var b := Nominate(a, Rtp);
    assert b.pairs[1].nominated;
  }
}
