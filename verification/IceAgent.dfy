/** The ICE agent as an object that its operations update in place, proved to do what IceState says. */
module IceAgent {

  import opened IceChecklist
  import opened IcePriority
  import opened Wrappers
  import Roles = IceRoles
  import S = IceState
  import StunTimer

  class IceAgent {
    const sort: Sort
    const tie: nat
    const maxPairs: nat
    var table: Table
    var pairs: seq<Pair>
    var triggered: seq<(nat, nat)>
    var rtcpMux: bool
    var connection: S.Connection
    var remoteKnown: bool
    var lastTrigger: Option<int>
    var backlog: seq<S.Packet>
    var events: seq<S.Event>

    function Contents(): (r: S.Agent)
      reads this
    {
      S.Agent(table, pairs, triggered, rtcpMux, tie, maxPairs, connection, remoteKnown, lastTrigger, backlog, events)
    }

    ghost predicate Valid()
      reads this
    {
      SortsByPriority(sort) && S.Valid(Contents())
    }

    constructor (sort: Sort, controlling: bool, tie: nat, rtcpMux: bool, remoteKnown: bool)
      requires SortsByPriority(sort)
      ensures Valid() && this.sort == sort && Contents() == S.Created(controlling, tie, rtcpMux, remoteKnown)
    {
      this.sort, this.tie, maxPairs, table := sort, tie, 100, Table([], [], controlling);
      pairs, triggered, this.rtcpMux, connection, this.remoteKnown := [], [], rtcpMux, S.New, remoteKnown;
      lastTrigger, backlog, events := None, [], [];
    }

    // ---------- the checklist ----------

    /** One local candidate meets all remote ones. */
    method FormRowOf(l: nat)
      requires l < |table.locals|
      modifies this`pairs
      ensures pairs == FormRow(table, sort, old(pairs), l, |table.remotes|)
    {
      for r := 0 to |table.remotes|
        invariant pairs == FormRow(table, sort, old(pairs), l, r)
      {
        if Pairable(table, l, r) && !HasPair(pairs, l, r) {
          pairs := sort(pairs + [NewPair(table, l, r)]);
        }
      }
    }

    method PrunePairs()
      modifies this`pairs
      ensures pairs == Prune(old(pairs), maxPairs)
    {
      while |pairs| > maxPairs
        invariant |pairs| <= |old(pairs)| && pairs == old(pairs)[..|pairs|]
        invariant |old(pairs)| > maxPairs ==> |pairs| >= maxPairs
        invariant |old(pairs)| <= maxPairs ==> pairs == old(pairs)
      {
        pairs := pairs[..|pairs| - 1];
      }
    }

    method FormAllPairs()
      modifies this`pairs
      ensures pairs == FormPairs(table, sort, old(pairs), maxPairs)
    {
      for l := 0 to |table.locals|
        invariant pairs == FormRows(table, sort, old(pairs), l)
      {
        FormRowOf(l);
      }
      pairs := sort(pairs);
      PrunePairs();
    }

    method RecomputePairPriorities()
      requires forall i :: 0 <= i < |pairs| ==> table.Live(pairs[i].local, pairs[i].remote)
      modifies this`pairs
      ensures pairs == sort(Recomputed(table, old(pairs)))
    {
      for i := 0 to |pairs|
        invariant |pairs| == |old(pairs)|
        invariant forall j :: 0 <= j < i ==> pairs[j] == Recomputed(table, old(pairs))[j]
        invariant forall j :: i <= j < |pairs| ==> pairs[j] == old(pairs)[j]
      {
        pairs := pairs[i := pairs[i].(priority := table.PriorityOf(pairs[i].local, pairs[i].remote))];
      }
      assert pairs == Recomputed(table, old(pairs));
      pairs := sort(pairs);
    }

    // ---------- candidates ----------

    method CountKindOf(kind: Kind) returns (n: nat)
      ensures n == S.CountKind(table.locals, kind, |table.locals|)
    {
      n := 0;
      for i := 0 to |table.locals|
        invariant n == S.CountKind(table.locals, kind, i)
      {
        if table.locals[i].Some? && table.locals[i].value.kind == kind {
          n := n + 1;
        }
      }
    }

    method AddLocalCandidate(component: Component, kind: Kind, base: Addr, addr: Addr)
      requires Valid()
      modifies this
      ensures Contents() == S.AddLocal(old(Contents()), sort, component, kind, base, addr) && Valid()
    {
      if S.IsLocal(table.locals, kind, base, addr) {
        return;
      }
      var count := CountKindOf(kind);
      var c := Candidate(addr, kind, S.LocalPriority(kind, count, component), component, base);
      table := table.(locals := table.locals + [Some(c)]);
      FormAllPairs();
    }

    /** False where the source panics, because the priority does not fit 32 bits. */
    method AddRemoteCandidate(o: S.Offered) returns (ok: bool)
      requires Valid()
      modifies this
      ensures ok == S.AddRemote(old(Contents()), sort, o).Done?
      ensures ok ==> Contents() == S.AddRemote(old(Contents()), sort, o).agent
      ensures ok ==> Valid()
    {
      if !S.Usable(o, rtcpMux) {
        return true;
      }
      if o.priority >= TWO_32 {
        return false;
      }
      var component := S.OfferedComponent(o, rtcpMux);
      var c := Candidate(o.address.value, o.kind.value, o.priority, component.value, o.address.value);
      table := table.(remotes := table.remotes + [c]);
      FormAllPairs();
      ok := true;
    }

    // ---------- nomination ----------

    method FindBest(component: Component) returns (best: Option<nat>)
      ensures best == Best(|pairs|, component)
    {
      best := None;
      for i := 0 to |pairs|
        invariant best == Best(i, component)
      {
        if S.Nominable(pairs[i], component, table.controlling) && (best.None? || pairs[best.value].priority <= pairs[i].priority) {
          best := Some(i);
        }
      }
    }

    ghost function Best(n: nat, component: Component): (r: Option<nat>)
      requires n <= |pairs|
      reads this
    {
      S.Best(pairs, component, table.controlling, n)
    }

    method NominateComponent(component: Component)
      requires Valid()
      modifies this
      ensures Contents() == S.Nominate(old(Contents()), component) && Valid()
    {
      if S.AlreadyNominated(Contents(), component) {
        return;
      }
      var best := FindBest(component);
      if best.None? {
        return;
      }
      var p := pairs[best.value];
      assert Fits(table, p);
      pairs := pairs[best.value := p.(nominated := true)];
      if table.controlling {
        triggered := [(p.local, p.remote)] + triggered;
      } else {
        events := events + [S.UseAddr(component, table.remotes[p.remote].addr)];
      }
    }

    method PollNomination()
      requires Valid()
      modifies this
      ensures Contents() == S.PollNomination(old(Contents())) && Valid()
    {
      NominateComponent(Rtp);
      if !rtcpMux {
        NominateComponent(Rtcp);
      }
    }

    // ---------- polling ----------

    method PollRetransmit(now: int)
      requires Valid()
      modifies this
      ensures Contents() == S.PollRetransmit(old(Contents()), now) && Valid()
    {
      hide Checklist, S.Quiet;
      RetransmitAll(now);
      assert pairs == S.Retransmitted(old(pairs), now);
    }

    method RetransmitAll(now: int)
      modifies this`pairs, this`events
      ensures |pairs| == |old(pairs)| && forall j :: 0 <= j < |pairs| ==> pairs[j] == S.RetransmitPair(old(pairs)[j], now)
      ensures events == old(events) + S.ResendEvents(old(pairs), now, |old(pairs)|)
    {
      hide S.RetransmitPair, S.Resent, S.CheckEvent;
      for i := 0 to |pairs|
        invariant |pairs| == |old(pairs)|
        invariant forall j :: 0 <= j < i ==> pairs[j] == S.RetransmitPair(old(pairs)[j], now)
        invariant forall j :: i <= j < |pairs| ==> pairs[j] == old(pairs)[j]
        invariant events == old(events) + S.ResendEvents(old(pairs), now, i)
      {
        RetransmitOne(i, now);
      }
    }

    method RetransmitOne(i: nat, now: int)
      requires i < |pairs|
      modifies this`pairs, this`events
      ensures pairs == old(pairs)[i := S.RetransmitPair(old(pairs)[i], now)]
      ensures events == old(events) + if S.Resent(old(pairs)[i], now) then [S.CheckEvent(old(pairs)[i])] else []
    {
      if !pairs[i].state.InProgress? {
        return;
      }
      var check := pairs[i].state.check;
      if !StunTimer.IsDue(check.timer, now) {
        return;
      }
      var n := check.timer.retransmits;
      if n >= StunTimer.DEFAULTS.maxRetransmits {
        pairs := pairs[i := pairs[i].(state := PairState.Failed)];
        return;
      }
      var timer := StunTimer.Running(check.timer.retransmitAt + StunTimer.RetransmitDelta(StunTimer.DEFAULTS, n + 1), n + 1);
      pairs := pairs[i := pairs[i].(state := InProgress(check.(timer := timer)))];
      events := events + [S.CheckEvent(pairs[i])];
    }

    method SetConnectionState(c: S.Connection)
      modifies this
      ensures Contents() == S.SetConnection(old(Contents()), c)
    {
      if connection != c {
        events := events + [S.ConnectionStateChanged(connection, c)];
        connection := c;
      }
    }

    method ScanPairs(component: Component) returns (nominated: bool, pending: bool)
      ensures nominated == S.HasNomination(pairs, component) && pending == S.HasPending(pairs, component)
    {
      nominated, pending := false, false;
      for i := 0 to |pairs|
        invariant nominated == exists k :: 0 <= k < i && pairs[k].component == component
                                           && pairs[k].nominated && pairs[k].state.Succeeded?
        invariant pending == exists k :: 0 <= k < i && pairs[k].component == component
                                         && (pairs[k].state.Waiting? || pairs[k].state.InProgress?)
      {
        if pairs[i].component == component {
          nominated := nominated || (pairs[i].nominated && pairs[i].state.Succeeded?);
          pending := pending || pairs[i].state.Waiting? || pairs[i].state.InProgress?;
        }
      }
    }

    method PollState()
      requires Valid()
      modifies this
      ensures Contents() == S.PollState(old(Contents())) && Valid()
    {
      var hasRtp, rtpPending := ScanPairs(Rtp);
      var hasRtcp, rtcpPending := ScanPairs(Rtcp);
      var all := hasRtp && (rtcpMux || hasRtcp);
      var possible := rtpPending && (rtcpMux || rtcpPending);
      if all && connection != S.Connected {
        SetConnectionState(S.Connected);
      } else if !all {
        if possible {
          match connection {
            case New => SetConnectionState(S.Checking);
            case Connected => SetConnectionState(S.Disconnected);
            case _ =>
          }
        } else {
          SetConnectionState(S.Unreachable);
        }
      }
    }

    method StartCheck(now: int, tid: nat)
      requires Valid()
      modifies this
      ensures Contents() == S.StartCheck(old(Contents()), now, tid) && Valid()
    {
      var k := |pairs|;
      if triggered != [] {
        k := S.FindPair(pairs, triggered[0].0, triggered[0].1, 0);
        triggered := triggered[1..];
      }
      if k == |pairs| {
        k := S.FindWaiting(pairs, 0);
      }
      if k < |pairs| {
        assert Fits(table, pairs[k]);
        var check := S.CheckFor(Contents(), pairs[k], now, tid);
        pairs := pairs[k := pairs[k].(state := InProgress(check))];
        events := events + [S.CheckEvent(pairs[k])];
      }
    }

    /** Resends what is due, updates the connection state, nominates, and starts at most one check every 50 ms. */
    method Poll(now: int, tid: nat)
      requires Valid()
      modifies this
      ensures Contents() == S.Poll(old(Contents()), now, tid) && Valid()
    {
      PollRetransmit(now);
      PollState();
      PollNomination();
      if !remoteKnown {
        return;
      }
      if lastTrigger.Some? && lastTrigger.value + S.CHECK_INTERVAL > now {
        return;
      }
      lastTrigger := Some(now);
      StartCheck(now, tid);
    }

    // ---------- receiving ----------

    method ReceiveSuccess(pkt: S.Packet)
      requires Valid() && pkt.message.SuccessMessage?
      modifies this
      ensures Contents() == S.ReceiveSuccess(old(Contents()), sort, pkt) && Valid()
    {
      if !remoteKnown {
        backlog := backlog + [pkt];
        return;
      }
      var k := S.FindCheck(pairs, pkt.message.tid, 0);
      if !pkt.authentic || k == |pairs| {
        return;
      }
      var p := pairs[k];
      assert Fits(table, p);
      Answer(k, S.IsSymmetric(p.state.check, pkt));
      if pkt.message.mapped.Some? && pkt.message.mapped.value != table.locals[p.local].value.addr {
        AddLocalCandidate(p.component, PeerReflexive, pkt.destination, pkt.message.mapped.value);
      }
    }

    method Answer(k: nat, symmetric: bool)
      requires Valid() && k < |pairs|
      modifies this
      ensures Contents() == S.Answered(old(Contents()), k, symmetric) && Valid()
    {
      var p := pairs[k];
      assert Fits(table, p);
      if symmetric {
        if p.nominated {
          events := events + [S.UseAddr(table.locals[p.local].value.component, table.remotes[p.remote].addr)];
        }
        pairs := pairs[k := p.(state := Succeeded)];
      } else {
        pairs := pairs[k := p.(state := PairState.Failed, nominated := false)];
      }
    }

    method TakeRole(controlling: bool)
      requires Valid()
      modifies this
      ensures Contents() == S.TakeRole(old(Contents()), sort, controlling) && Valid()
    {
      RecomputeKeeps(table, sort, pairs, controlling);
      table := table.(controlling := controlling);
      RecomputePairPriorities();
    }

    method ReceiveError(pkt: S.Packet)
      requires Valid() && pkt.message.ErrorMessage?
      modifies this
      ensures Contents() == S.ReceiveError(old(Contents()), sort, pkt) && Valid()
    {
      if !remoteKnown {
        backlog := backlog + [pkt];
        return;
      }
      var k := S.FindCheck(pairs, pkt.message.tid, 0);
      if !pkt.authentic || k == |pairs| || pkt.message.code != Some(Roles.ROLE_CONFLICT) {
        return;
      }
      var p := pairs[k];
      UpdateKeeps(table, pairs, k, p.(state := Waiting));
      pairs := pairs[k := p.(state := Waiting)];
      triggered := triggered + [(p.local, p.remote)];
      TakeRole(S.ToldRole(pkt.message.role, table.controlling));
    }

    /** False if the role conflicts and the agent keeps its own. */
    method SettleRole(pkt: S.Packet) returns (settled: bool)
      requires Valid() && pkt.message.RequestMessage?
      modifies this
      ensures Valid() && settled == S.SettleRole(old(Contents()), sort, pkt).Some?
      ensures Contents() == if settled then S.SettleRole(old(Contents()), sort, pkt).value else old(Contents())
    {
      match Roles.Decide(table.controlling, tie, pkt.message.role) {
        case Keep => settled := true;
        case Refuse => settled := false;
        case Switch =>
          TakeRole(!table.controlling);
          settled := true;
      }
    }

    method LearnRemote(l: nat, pkt: S.Packet)
      requires Valid() && pkt.message.RequestMessage? && pkt.message.priority.Some?
      requires l < |table.locals| && table.locals[l].Some?
      modifies this
      ensures Contents() == S.LearnRemote(old(Contents()), sort, l, pkt) && Valid()
    {
      var r := |table.remotes|;
      if S.FindRemote(table.remotes, pkt.source, 0) < r {
        return;
      }
      var c := Candidate(pkt.source, PeerReflexive, pkt.message.priority.value, pkt.component, pkt.source);
      table := table.(remotes := table.remotes + [c]);
      pairs := AddPair(table, sort, pairs, l, r);
      triggered := triggered + [(l, r)];
    }

    /** False where the source panics, because there is no priority or a known candidate is not paired. */
    method ReceiveRequest(pkt: S.Packet) returns (ok: bool)
      requires Valid() && pkt.message.RequestMessage?
      modifies this
      ensures ok == S.ReceiveRequest(old(Contents()), sort, pkt).Done?
      ensures ok ==> Contents() == S.ReceiveRequest(old(Contents()), sort, pkt).agent
      ensures ok ==> Valid()
    {
      if !remoteKnown {
        backlog := backlog + [pkt];
        return true;
      }
      if !pkt.authentic {
        return true;
      }
      if pkt.message.priority.None? {
        return false;
      }
      var settled := SettleRole(pkt);
      if !settled {
        events := events + [S.RoleErrorEvent(Contents(), pkt)];
        return true;
      }
      var l := S.FindHost(table.locals, pkt.destination, 0);
      if l == |table.locals| {
        return true;
      }
      LearnRemote(l, pkt);
      var k := S.FindPair(pairs, l, S.FindRemote(table.remotes, pkt.source, 0), 0);
      if k == |pairs| {
        return false;
      }
      Acknowledge(k, pkt);
      ok := true;
    }

    method Acknowledge(k: nat, pkt: S.Packet)
      requires Valid() && pkt.message.RequestMessage? && k < |pairs|
      modifies this
      ensures Contents() == S.Acknowledge(old(Contents()), k, pkt) && Valid()
    {
      var p := pairs[k].(receivedUse := pkt.message.useCandidate);
      assert Fits(table, pairs[k]);
      UpdateKeeps(table, pairs, k, p);
      pairs := pairs[k := p];
      var data := S.SuccessResponse(pkt.message.tid, pkt.source);
      events := events + [S.SendData(p.component, data, table.locals[p.local].value.base.ip, pkt.source)];
      if pkt.message.useCandidate {
        PollNomination();
      }
    }

    /** False where the source panics. */
    method Receive(pkt: S.Packet) returns (ok: bool)
      requires Valid()
      modifies this
      ensures ok == S.Receive(old(Contents()), sort, pkt).Done?
      ensures ok ==> Contents() == S.Receive(old(Contents()), sort, pkt).agent
      ensures ok ==> Valid()
    {
      ok := true;
      match pkt.message {
        case RequestMessage(_, _, _, _) => ok := ReceiveRequest(pkt);
        case SuccessMessage(_, _) => ReceiveSuccess(pkt);
        case ErrorMessage(_, _, _) => ReceiveError(pkt);
      }
    }

    method RemoveRtcp(mux: bool)
      requires Valid() && S.SurvivesMux(Contents(), mux)
      modifies this
      ensures Contents() == S.WithoutRtcp(old(Contents()), mux) && Valid()
    {
      rtcpMux := mux;
      if mux {
        table := table.(locals := S.OnlyRtp(table.locals));
      }
    }

    method AddRemoteCandidates(offers: seq<S.Offered>) returns (ok: bool)
      requires Valid()
      modifies this
      ensures ok == S.AddRemotes(old(Contents()), sort, offers, |offers|).Done?
      ensures ok ==> Contents() == S.AddRemotes(old(Contents()), sort, offers, |offers|).agent
      ensures ok ==> Valid()
    {
      ok := true;
      for i := 0 to |offers|
        invariant ok == S.AddRemotes(old(Contents()), sort, offers, i).Done?
        invariant ok ==> Valid() && Contents() == S.AddRemotes(old(Contents()), sort, offers, i).agent
      {
        if ok {
          ok := AddRemoteCandidate(offers[i]);
        }
      }
    }

    /** The peer's credentials and candidates have arrived; messages that came before them are handled now. */
    method SetRemoteData(offers: seq<S.Offered>, mux: bool) returns (outcome: S.Outcome)
      requires Valid()
      modifies this
      ensures outcome == S.SetRemoteData(old(Contents()), sort, offers, mux)
      ensures outcome.Done? ==> Contents() == outcome.agent && Valid()
    {
      if !S.SurvivesMux(Contents(), mux) {
        return S.Dangling;
      }
      RemoveRtcp(mux);
      remoteKnown := true;
      var ok := AddRemoteCandidates(offers);
      if !ok {
        return S.Panicked;
      }
      var waiting := backlog;
      backlog := [];
      ok := Replay(waiting);
      outcome := if ok then S.Done(Contents()) else S.Panicked;
    }

    method Replay(pkts: seq<S.Packet>) returns (ok: bool)
      requires Valid()
      modifies this
      ensures ok == S.Replay(old(Contents()), sort, pkts, |pkts|).Done?
      ensures ok ==> Contents() == S.Replay(old(Contents()), sort, pkts, |pkts|).agent
      ensures ok ==> Valid()
    {
      ok := true;
      for i := 0 to |pkts|
        invariant ok == S.Replay(old(Contents()), sort, pkts, i).Done?
        invariant ok ==> Valid() && Contents() == S.Replay(old(Contents()), sort, pkts, i).agent
      {
        if ok {
          ok := Receive(pkts[i]);
        }
      }
    }

    method PopEvent() returns (e: Option<S.Event>)
      requires Valid()
      modifies this
      ensures Valid() && (old(events) == [] ==> e == None && Contents() == old(Contents()))
      ensures old(events) != [] ==> e == Some(old(events)[0]) && Contents() == old(Contents()).(events := old(events)[1..])
    {
      if events == [] {
        return None;
      }
      e, events := Some(events[0]), events[1..];
    }
  }
}
