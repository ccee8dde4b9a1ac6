/**
 The INVITE client and server transactions (RFC 3261, sections 17.1.1 and 17.2.1), each on its own and the
 two together over a network that loses, repeats and reorders messages, when the server answers with a failure.

 What wakes a waiting task - a message, or a timer - is a parameter, with the time at which it happens.
 */
module InviteTransaction {

  import opened Powers
  import opened TransactionKey
  import opened Wrappers

  const T1: nat := 500
  const T2: nat := 4000
  const ACK_TIME: nat := 32000

  datatype Request = Request(headers: Headers)

  datatype Response = Response(code: nat, headers: Headers)

  predicate IsProvisional(r: Response) {
    100 <= r.code < 200
  }

  predicate IsSuccess(r: Response) {
    200 <= r.code < 300
  }

  predicate IsFailure(r: Response) {
    !IsProvisional(r) && !IsSuccess(r)
  }

  function CreateAck(invite: Headers): (r: Request) {
    Request(AckHeaders(invite))
  }

  // ---------- the client ----------

  datatype Phase = Init | Proceeding | Accepted | Completed | Terminated

  /** acking: late copies are still answered, until ackUntil; sent and delivered are all there ever were. */
  datatype Client = Client(invite: Headers, reliable: bool, phase: Phase, timeout: int, interval: nat,
                           acking: bool, ackUntil: int, sent: seq<Request>, delivered: seq<Response>)

  datatype Wake = Got(response: Response, at: int) | Elapsed(at: int) | Deadline(at: int)

  /** How a call of receive stands. */
  datatype Call = Waiting | Received(response: Response) | Finished | TimedOut

  function Created(invite: Headers, reliable: bool, now: int): (r: Client) {
    Client(invite, reliable, Init, now + 64 * T1, T1, false, 0, [Request(invite)], [])
  }

  /** The client still has its registration: it has not handed it over, nor given it up. */
  predicate Registered(c: Client) {
    !c.phase.Completed? && !c.phase.Terminated?
  }

  function HandleMsg(c: Client, r: Response, now: int): (result: Client) {
    var d := c.(delivered := c.delivered + [r]);
    if IsProvisional(r) then d.(timeout := now + 240 * T1, phase := Proceeding)
    else if IsSuccess(r) then d.(timeout := now + 64 * T1, phase := Accepted)
    else
      var e := d.(sent := d.sent + [CreateAck(c.invite)]);
      if c.reliable then e.(phase := Terminated) else e.(phase := Completed, acking := true, ackUntil := now + ACK_TIME)
  }

  /** One thing that happens while receive waits. */
  function Await(c: Client, w: Wake): (r: (Client, Call)) {
    if !Registered(c) then (c, Finished)
    else match w
      case Got(r, at) =>
        if c.phase.Accepted? then (c.(delivered := c.delivered + [r]), Received(r)) else (HandleMsg(c, r, at), Received(r))
      case Elapsed(_) =>
        if c.phase.Init? && !c.reliable
        then (c.(sent := c.sent + [Request(c.invite)], interval := 2 * c.interval), Waiting) else (c, Waiting)
      case Deadline(_) =>
        if c.phase.Accepted? then (c.(phase := Terminated), Finished) else (c, TimedOut)
  }

  /** What is done once the registration was handed over: whatever arrives is answered with the ACK. */
  function AckAgain(c: Client): (r: Client) {
    if c.acking then c.(sent := c.sent + [CreateAck(c.invite)]) else c
  }

  /** A call of receive, from the wake with index i on; the interval starts anew with each call. */
  function ReceiveFrom(c: Client, wakes: seq<Wake>, i: nat): (r: (Client, Call))
    requires i <= |wakes|
    decreases |wakes| - i
  {
    if !Registered(c) then (c, Finished)
    else if i == |wakes| then (c, Waiting)
    else
      var (d, call) := Await(c, wakes[i]);
      if call.Waiting? then ReceiveFrom(d, wakes, i + 1) else (d, call)
  }

  function ReceiveCall(c: Client, wakes: seq<Wake>): (r: (Client, Call)) {
    ReceiveFrom(c.(interval := T1), wakes, 0)
  }

  class ClientInvTsx {
    const invite: Headers
    const reliable: bool
    var phase: Phase
    var timeout: int
    var interval: nat
    var acking: bool
    var ackUntil: int
    var sent: seq<Request>
    var delivered: seq<Response>

    function Contents(): (r: Client)
      reads this
    {
      Client(invite, reliable, phase, timeout, interval, acking, ackUntil, sent, delivered)
    }

    constructor (invite: Headers, reliable: bool, now: int)
      ensures Contents() == Created(invite, reliable, now)
    {
      this.invite, this.reliable := invite, reliable;
      phase, timeout, interval, acking, ackUntil := Init, now + 64 * T1, T1, false, 0;
      sent, delivered := [Request(invite)], [];
    }

    /** Waits for responses, sending the request again each time the doubling interval elapses. */
    method Receive(wakes: seq<Wake>) returns (call: Call)
      modifies this
      ensures (Contents(), call) == ReceiveCall(old(Contents()), wakes)
    {
      interval := T1;
      var i := 0;
      while i < |wakes| && Registered(Contents())
        invariant 0 <= i <= |wakes|
        invariant ReceiveFrom(Contents(), wakes, i) == ReceiveCall(old(Contents()), wakes)
      {
        match wakes[i] {
          case Got(r, at) =>
            if phase.Accepted? {
              delivered := delivered + [r];
            } else {
              Handle(r, at);
            }
            return Received(r);
          case Elapsed(_) =>
            if phase.Init? && !reliable {
              sent, interval := sent + [Request(invite)], 2 * interval;
            }
          case Deadline(_) =>
            if phase.Accepted? {
              phase := Terminated;
              return Finished;
            }
            return TimedOut;
        }
        i := i + 1;
      }
      call := if Registered(Contents()) then Waiting else Finished;
    }

    method Handle(r: Response, now: int)
      modifies this
      ensures Contents() == HandleMsg(old(Contents()), r, now)
    {
      delivered := delivered + [r];
      if IsProvisional(r) {
        timeout, phase := now + 240 * T1, Proceeding;
      } else if IsSuccess(r) {
        timeout, phase := now + 64 * T1, Accepted;
      } else {
        sent := sent + [CreateAck(invite)];
        if reliable {
          phase := Terminated;
        } else {
          phase, acking, ackUntil := Completed, true, now + ACK_TIME;
        }
      }
    }
  }

  // ---------- the timer of the client ----------

  /** A waiting client after the first n elapsed intervals. */
  function Elapse(c: Client, times: seq<int>, n: nat): (r: Client)
    requires n <= |times|
  {
    if n == 0 then c else Await(Elapse(c, times, n - 1), Elapsed(times[n - 1])).0
  }

  /** Before the client's time limit each wake comes when the client's own interval has passed since the last one. */
  ghost predicate InTime(c: Client, start: int, times: seq<int>) {
    forall i :: 0 <= i < |times| ==> IsDue(c, start, times, i)
  }

  ghost predicate IsDue(c: Client, start: int, times: seq<int>, i: nat)
    requires i < |times|
  {
    (if i == 0 then start else times[i - 1]) + Elapse(c, times, i).interval <= times[i] < c.timeout
  }

  /** While nobody answers, the interval of the client doubles with each request that it sends again. */
  lemma {:induction false} EachIntervalDoubles(c: Client, start: int, times: seq<int>, n: nat)
    requires n <= |times| && InTime(c, start, times) && c.phase.Init? && !c.reliable && c.interval == T1
    ensures var d := Elapse(c, times, n);
            && d == c.(interval := T1 * Power2(n), sent := d.sent)
            && |d.sent| == |c.sent| + n && forall r :: r in d.sent ==> r in c.sent || r == Request(c.invite)
    ensures n > 0 ==> times[n - 1] >= start + T1 * Power2(n) - T1
  {
    if n > 0 {
      EachIntervalDoubles(c, start, times, n - 1);
      assert IsDue(c, start, times, n - 1);
      assert Power2(n) == 2 * Power2(n - 1);
      assert n > 1 ==> times[n - 2] >= start + T1 * Power2(n - 1) - T1;
    }
  }

  /** An INVITE that nobody answers is sent seven times at most before the time limit of 64 T1. */
  lemma SevenSendsAtMost(invite: Headers, start: int, times: seq<int>)
    requires InTime(Created(invite, false, start), start, times)
    ensures |Elapse(Created(invite, false, start), times, |times|).sent| <= 7
  {
    var c, n := Created(invite, false, start), |times|;
    EachIntervalDoubles(c, start, times, n);
    assert Power2(7) == 128;
    assert n >= 7 ==> IsDue(c, start, times, 6);
    if n >= 7 {
      EachIntervalDoubles(c, start, times, 7);
    }
  }

  /** All seven are sent when every wake comes exactly on time. */
  lemma SevenAreSent(invite: Headers, start: int)
    ensures var times := [start + 500, start + 1500, start + 3500, start + 7500, start + 15500, start + 31500];
            InTime(Created(invite, false, start), start, times) && |Elapse(Created(invite, false, start), times, 6).sent| == 7
  {
    var c := Created(invite, false, start);
    var times := [start + 500, start + 1500, start + 3500, start + 7500, start + 15500, start + 31500];
    Doubles(c, times, 6);
    assert Power2(1) == 2 && Power2(2) == 4 && Power2(3) == 8 && Power2(4) == 16 && Power2(5) == 32;
    forall i | 0 <= i < 6
      ensures IsDue(c, start, times, i)
    {
      Doubles(c, times, i);
    }
  }

  lemma {:induction false} Doubles(c: Client, times: seq<int>, n: nat)
    requires n <= |times| && c.phase.Init? && !c.reliable && c.interval == T1
    ensures var d := Elapse(c, times, n); d == c.(interval := T1 * Power2(n), sent := d.sent) && |d.sent| == |c.sent| + n
  {
    if n > 0 {
      Doubles(c, times, n - 1);
    }
  }

  // ---------- the server ----------

  datatype ServerPhase = Absent | Ready | Responding | Acknowledged | GaveUp

  /** retransmits counts the responses that a timer, not a repeated INVITE, has caused. */
  datatype Server = Server(phase: ServerPhase, key: Option<Key>, response: Option<Response>, abandon: int,
                           delta: nat, retransmitAt: int, retransmits: nat)

  datatype ServerWake = Incoming(request: Request) | Tick(now: int)

  /** respond_failure sends the response and starts to wait. */
  function RespondFailure(s: Server, r: Response, now: int): (result: Server) {
    s.(phase := Responding, response := Some(r), abandon := now + 64 * T1, delta := T1, retransmitAt := now + T1, retransmits := 0)
  }

  function NextDelta(delta: nat): (r: nat) {
    if 2 * delta <= T2 then 2 * delta else T2
  }

  /** One thing that happens while the server waits for the ACK, and whether it sends the response again. */
  function ServerAwait(s: Server, w: ServerWake): (r: (Server, bool)) {
    match w
    case Incoming(r) =>
      if r.headers.verb.Invite? then (s, true)
      else if r.headers.verb.Ack? then (s.(phase := Acknowledged), false)
      else (s, false)
    case Tick(now) =>
      if now < s.retransmitAt then (s, false)
      else if now > s.abandon then (s.(phase := GaveUp), false)
      else
        var delta := NextDelta(s.delta);
        (s.(delta := delta, retransmitAt := now + delta, retransmits := s.retransmits + 1), true)
  }

  /** The server, and how often it has sent the response, after the wakes up to index n. */
  function WaitForAck(s: Server, wakes: seq<ServerWake>, n: nat): (r: (Server, nat))
    requires n <= |wakes|
  {
    if n == 0 then (s, 1)
    else
      var (t, sends) := WaitForAck(s, wakes, n - 1);
      if !t.phase.Responding? then (t, sends)
      else
        var (u, again) := ServerAwait(t, wakes[n - 1]);
        (u, if again then sends + 1 else sends)
  }

  class ServerInvTsx {
    var state: Server

    constructor (key: Option<Key>)
      ensures state == Server(Ready, key, None, 0, 0, 0, 0)
    {
      state := Server(Ready, key, None, 0, 0, 0, 0);
    }

    /** Sends the failure, again on every repeated INVITE and whenever the timer runs out, until the ACK or the time limit. */
    method Respond(r: Response, now: int, wakes: seq<ServerWake>) returns (sends: nat)
      requires state.phase.Ready? && IsFailure(r)
      modifies this
      ensures (state, sends) == WaitForAck(RespondFailure(old(state), r, now), wakes, |wakes|)
    {
      state := RespondFailure(state, r, now);
      sends := 1;
      ghost var start := state;
      var i := 0;
      while i < |wakes| && state.phase.Responding?
        invariant 0 <= i <= |wakes| && (state, sends) == WaitForAck(start, wakes, i)
      {
        match wakes[i] {
          case Incoming(request) =>
            if request.headers.verb.Invite? {
              sends := sends + 1;
            } else if request.headers.verb.Ack? {
              state := state.(phase := Acknowledged);
            }
          case Tick(at) =>
            if at > state.abandon && at >= state.retransmitAt {
              state := state.(phase := GaveUp);
            } else if at >= state.retransmitAt {
              var delta := NextDelta(state.delta);
              state := state.(delta := delta, retransmitAt := at + delta, retransmits := state.retransmits + 1);
              sends := sends + 1;
            }
        }
        i := i + 1;
      }
      DoneIsDone(start, wakes, i);
    }
  }

  lemma {:induction false} DoneIsDone(s: Server, wakes: seq<ServerWake>, i: nat)
    requires i <= |wakes| && (i < |wakes| ==> !WaitForAck(s, wakes, i).0.phase.Responding?)
    ensures WaitForAck(s, wakes, |wakes|) == WaitForAck(s, wakes, i)
    decreases |wakes| - i
  {
    if i < |wakes| {
      DoneIsDone(s, wakes, i + 1);
    }
  }

  // ---------- the timers of the server ----------

  /** The delta before the retransmit with number k: T1 doubled k times, but at most T2. */
  function DeltaAt(k: nat): (r: nat) {
    if k == 0 then T1 else NextDelta(DeltaAt(k - 1))
  }

  /** The earliest time, after the start, at which the retransmit with number k can come. */
  function Earliest(k: nat): (r: nat) {
    if k == 0 then T1 else Earliest(k - 1) + DeltaAt(k)
  }

  /** While the server waits, its timer is where k retransmits bring it at the earliest, or later. */
  ghost predicate OnTime(s: Server, start: int) {
    && s.abandon == start + 64 * T1 && s.delta == DeltaAt(s.retransmits)
    && s.retransmitAt >= start + Earliest(s.retransmits)
    && (s.retransmits > 0 ==> start + Earliest(s.retransmits - 1) <= s.abandon)
  }

  lemma {:induction false} TimerIsKept(s: Server, r: Response, start: int, wakes: seq<ServerWake>, n: nat)
    requires n <= |wakes|
    ensures OnTime(WaitForAck(RespondFailure(s, r, start), wakes, n).0, start)
  {
    if n > 0 {
      TimerIsKept(s, r, start, wakes, n - 1);
    }
  }

  lemma {:induction false} EarliestGrows(k: nat)
    ensures DeltaAt(k) >= T1 && Earliest(k) >= T1 * (k + 1) && (k >= 3 ==> DeltaAt(k) == T2 && Earliest(k) == 7500 + T2 * (k - 3))
  {
    if k > 0 {
      EarliestGrows(k - 1);
    }
    if k <= 3 {
      assert DeltaAt(0) == 500 && DeltaAt(1) == 1000 && DeltaAt(2) == 2000 && DeltaAt(3) == 4000;
      assert Earliest(0) == 500 && Earliest(1) == 1500 && Earliest(2) == 3500 && Earliest(3) == 7500;
    }
  }

  /**
   Whatever wakes the server and however late its timers fire: the timer sends the failure at most ten times,
   with deltas that double from T1 up to T2, and it gives up only after 64 T1.
   */
  lemma RetransmitsAreBounded(s: Server, r: Response, start: int, wakes: seq<ServerWake>, n: nat)
    requires n <= |wakes|
    ensures var t := WaitForAck(RespondFailure(s, r, start), wakes, n).0;
            t.retransmits <= 10 && t.delta == DeltaAt(t.retransmits)
  {
    TimerIsKept(s, r, start, wakes, n);
    var k := WaitForAck(RespondFailure(s, r, start), wakes, n).0.retransmits;
    if k > 0 {
      EarliestGrows(k - 1);
    }
  }

  lemma {:induction false} GivesUpOnlyLate(s: Server, r: Response, start: int, wakes: seq<ServerWake>, n: nat)
    requires n <= |wakes| && WaitForAck(RespondFailure(s, r, start), wakes, n).0.phase.GaveUp?
    ensures exists i :: 0 <= i < n && wakes[i].Tick? && wakes[i].now > start + 64 * T1
  {
    if n > 0 {
      TimerIsKept(s, r, start, wakes, n - 1);
      var t := WaitForAck(RespondFailure(s, r, start), wakes, n - 1).0;
      if t.phase.GaveUp? {
        GivesUpOnlyLate(s, r, start, wakes, n - 1);
      } else {
        assert wakes[n - 1].Tick? && wakes[n - 1].now > start + 64 * T1;
      }
    }
  }

  // ---------- both together ----------

  /** All that was ever sent to a side can still arrive there, any number of times and in any order. */
  datatype System = System(client: Client, server: Server, toServer: set<Request>, toClient: set<Response>)

  datatype Action =
    | ClientWakes(wake: Wake)
    | LateCopy(copy: Response)
    | AckTaskEnds
    | ServerGets(request: Request)
    | ServerRings(code: nat)
    | ServerFails(failure: nat, now: int)
    | ServerTicks(tick: int)
    | StrayRequest(other: Request)
    | StrayResponse(late: Response)

  function SentSet(c: Client): (r: set<Request>) {
    set r | r in c.sent
  }

  function WithClient(s: System, c: Client): (r: System) {
    s.(client := c, toServer := s.toServer + SentSet(c))
  }

  /** The response is one that the network has, and it belongs to the client's transaction. */
  predicate Arrives(s: System, r: Response) {
    r in s.toClient && FromHeaders(r.headers, ClientSide) == FromHeaders(s.client.invite, ClientSide)
  }

  /** A message of another transaction; a CANCEL of this very INVITE, with its branch, is one too. */
  predicate IsStray(s: System, h: Headers, role: Role) {
    FromHeaders(h, role) != FromHeaders(s.client.invite, role)
  }

  function ServerStep(s: System, r: Request): (result: System) {
    var key := FromHeaders(r.headers, ServerSide);
    if key.None? then s
    else if s.server.phase.Absent? then
      if r.headers.verb.Invite? && key == FromHeaders(s.client.invite, ServerSide) then s.(server := Server(Ready, key, None, 0, 0, 0, 0)) else s
    else if !s.server.phase.Responding? || s.server.key != key then s
    else ServerWakes(s, Incoming(r))
  }

  function ServerWakes(s: System, w: ServerWake): (r: System) {
    var (t, again) := ServerAwait(s.server, w);
    s.(server := t, toClient := if again && s.server.response.Some? then s.toClient + {s.server.response.value} else s.toClient)
  }

  function Step(s: System, a: Action): (r: System) {
    match a
    case ClientWakes(w) => if w.Got? && !Arrives(s, w.response) then s else WithClient(s, Await(s.client, w).0)
    case LateCopy(r) => if Arrives(s, r) then WithClient(s, AckAgain(s.client)) else s
    case AckTaskEnds => s.(client := s.client.(acking := false))
    case ServerGets(r) => if r in s.toServer then ServerStep(s, r) else s
    case ServerRings(code) =>
      var r := Response(code, s.client.invite);
      if s.server.phase.Ready? && IsProvisional(r) then s.(toClient := s.toClient + {r}) else s
    case ServerFails(code, now) =>
      var r := Response(code, s.client.invite);
      if s.server.phase.Ready? && IsFailure(r) then s.(server := RespondFailure(s.server, r, now), toClient := s.toClient + {r}) else s
    case ServerTicks(now) => if s.server.phase.Responding? then ServerWakes(s, Tick(now)) else s
    case StrayRequest(r) => if IsStray(s, r.headers, ServerSide) then s.(toServer := s.toServer + {r}) else s
    case StrayResponse(r) => if IsStray(s, r.headers, ClientSide) then s.(toClient := s.toClient + {r}) else s
  }

  function Start(invite: Headers, reliable: bool, now: int): (r: System) {
    WithClient(System(Created(invite, reliable, now), Server(Absent, None, None, 0, 0, 0, 0), {}, {}), Created(invite, reliable, now))
  }

  function Run(invite: Headers, reliable: bool, now: int, acts: seq<Action>, n: nat): (r: System)
    requires n <= |acts|
  {
    if n == 0 then Start(invite, reliable, now) else Step(Run(invite, reliable, now, acts, n - 1), acts[n - 1])
  }

  /** The failures among the responses given to the user. */
  function Failures(rs: seq<Response>, n: nat): (r: nat)
    requires n <= |rs|
  {
    if n == 0 then 0 else Failures(rs, n - 1) + if IsFailure(rs[n - 1]) then 1 else 0
  }

  /** The client has got a failure, has acknowledged it, and takes no more. */
  predicate HasFailed(c: Client) {
    c.phase.Completed? || c.phase.Terminated?
  }

  ghost predicate ClientInv(c: Client, response: Option<Response>) {
    && c.invite.verb == Invite && !c.phase.Accepted?
    && (forall r :: r in c.sent ==> r == Request(c.invite) || (r == CreateAck(c.invite) && HasFailed(c)))
    && Failures(c.delivered, |c.delivered|) == (if HasFailed(c) then 1 else 0)
    && (c.acking ==> c.phase.Completed?)
    && (forall r :: r in c.delivered && IsFailure(r) ==> Some(r) == response)
  }

  /** A response that this server transaction sent. */
  predicate IsOwn(s: System, r: Response) {
    r.headers == s.client.invite && (IsProvisional(r) || Some(r) == s.server.response)
  }

  ghost predicate Inv(s: System) {
    && ClientInv(s.client, s.server.response)
    && (forall r :: r in s.toServer ==> r in s.client.sent || IsStray(s, r.headers, ServerSide))
    && (forall r :: r in s.client.sent ==> r in s.toServer)
    && (s.server.response.Some? ==> IsFailure(s.server.response.value) && s.server.response.value.headers == s.client.invite)
    && ((s.server.phase.Absent? || s.server.phase.Ready?) ==> s.server.response.None?)
    && (s.server.phase.Responding? ==> s.server.response.Some?)
    && (forall r :: r in s.toClient ==> IsOwn(s, r) || IsStray(s, r.headers, ClientSide))
    && (s.server.phase.Acknowledged? ==> HasFailed(s.client))
    && (!s.server.phase.Absent? ==> s.server.key.Some? && s.server.key == FromHeaders(s.client.invite, ServerSide))
  }

  lemma FailuresOfMore(rs: seq<Response>, r: Response)
    ensures Failures(rs + [r], |rs| + 1) == Failures(rs, |rs|) + if IsFailure(r) then 1 else 0
  {
    FailuresOfPrefix(rs, r, |rs|);
  }

  lemma {:induction false} FailuresOfPrefix(rs: seq<Response>, r: Response, n: nat)
    requires n <= |rs|
    ensures Failures(rs + [r], n) == Failures(rs, n)
  {
    if n > 0 {
      FailuresOfPrefix(rs, r, n - 1);
    }
  }

  /** Whatever wakes the client: it delivers at most one failure, the one of the server, and then only acknowledges. */
  lemma AwaitKeeps(c: Client, w: Wake, response: Option<Response>)
    requires ClientInv(c, response)
    requires w.Got? ==> !IsSuccess(w.response) && (IsFailure(w.response) ==> Some(w.response) == response)
    ensures var d := Await(c, w).0;
            && ClientInv(d, response) && d.invite == c.invite && c.sent <= d.sent
            && (HasFailed(c) ==> d == c) && (HasFailed(d) && !HasFailed(c) ==> response.Some?)
  {
    if w.Got? && Registered(c) {
      FailuresOfMore(c.delivered, w.response);
    }
  }

  lemma AckAgainKeeps(c: Client, response: Option<Response>)
    requires ClientInv(c, response)
    ensures var d := AckAgain(c); ClientInv(d, response) && d.invite == c.invite && c.sent <= d.sent && HasFailed(d) == HasFailed(c)
  {
  }

  lemma SentGrows(c: Client, d: Client)
    requires c.sent <= d.sent
    ensures forall r :: r in SentSet(d) <==> r in d.sent
    ensures forall r :: r in c.sent ==> r in d.sent
  {
    forall r | r in c.sent
      ensures r in d.sent
    {
      var i :| 0 <= i < |c.sent| && c.sent[i] == r;
      assert d.sent[i] == r;
    }
  }

  lemma ClientStepKeeps(s: System, a: Action)
    requires Inv(s) && (a.ClientWakes? || a.LateCopy?)
    ensures Inv(Step(s, a))
  {
    hide ClientInv, Await, AckAgain, FromHeaders, SentSet;
    if a.ClientWakes? {
      var d := Await(s.client, a.wake).0;
      if !a.wake.Got? || Arrives(s, a.wake.response) {
        AwaitKeeps(s.client, a.wake, s.server.response);
        SentGrows(s.client, d);
      }
    } else {
      AckAgainKeeps(s.client, s.server.response);
      SentGrows(s.client, AckAgain(s.client));
    }
  }

  /** The server is done only after an ACK, and the client only sends that after the failure. */
  lemma ServerStepKeeps(s: System, a: Action)
    requires Inv(s) && (a.ServerGets? || a.ServerTicks?)
    ensures Inv(Step(s, a))
  {
    hide FromHeaders, Failures;
    if a.ServerGets? && a.request in s.toServer {
      AckSharesKey(s.client.invite, ServerSide);
    }
  }

  lemma ResponseKeeps(s: System, a: Action)
    requires Inv(s) && !a.ClientWakes? && !a.LateCopy? && !a.ServerGets? && !a.ServerTicks?
    ensures Inv(Step(s, a))
  {
    hide FromHeaders, Failures;
  }

  /**
   Over every run in which the server answers with a failure, among any messages of other transactions: the
   client gives its user at most one failure, the server's; it acknowledges only after that; and the server
   ends well only if the client had it before.
   */
  lemma {:induction false} AtMostOneFailure(invite: Headers, reliable: bool, now: int, acts: seq<Action>, n: nat)
    requires n <= |acts| && invite.verb == Invite
    ensures var s := Run(invite, reliable, now, acts, n);
            && Inv(s) && Failures(s.client.delivered, |s.client.delivered|) <= 1
            && (s.server.phase.Acknowledged? ==>
                  s.server.response.Some? && s.server.response.value in s.client.delivered)
  {
    if n > 0 {
      AtMostOneFailure(invite, reliable, now, acts, n - 1);
      var s := Run(invite, reliable, now, acts, n - 1);
      match acts[n - 1] {
        case ClientWakes(_) => ClientStepKeeps(s, acts[n - 1]);
        case LateCopy(_) => ClientStepKeeps(s, acts[n - 1]);
        case ServerGets(_) => ServerStepKeeps(s, acts[n - 1]);
        case ServerTicks(_) => ServerStepKeeps(s, acts[n - 1]);
        case _ => ResponseKeeps(s, acts[n - 1]);
      }
    } else {
      StartIsValid(invite, reliable, now);
    }
    FailedHasIt(Run(invite, reliable, now, acts, n));
  }

  lemma StartIsValid(invite: Headers, reliable: bool, now: int)
    requires invite.verb == Invite
    ensures Inv(Start(invite, reliable, now))
  {
  }

  lemma {:induction false} SomeFailure(rs: seq<Response>, n: nat)
    requires n <= |rs| && Failures(rs, n) > 0
    ensures exists r :: r in rs && IsFailure(r)
  {
    if !IsFailure(rs[n - 1]) {
      SomeFailure(rs, n - 1);
    } else {
      assert rs[n - 1] in rs;
    }
  }

  lemma FailedHasIt(s: System)
    requires Inv(s)
    ensures HasFailed(s.client) ==> s.server.response.Some? && s.server.response.value in s.client.delivered
  {
    if HasFailed(s.client) {
      SomeFailure(s.client.delivered, |s.client.delivered|);
    }
  }

  /** Every later copy of a response does nothing but repeat the ACK, and that only over an unreliable transport. */
  lemma LateCopiesOnlyReAck(s: System, a: Action)
    requires Inv(s) && HasFailed(s.client) && (a.ClientWakes? || a.LateCopy?)
    ensures var t := Step(s, a);
            && t == s.(client := t.client, toServer := t.toServer)
            && t.client == s.client.(sent := t.client.sent)
            && (t.client.sent == s.client.sent || (s.client.acking && t.client.sent == s.client.sent + [CreateAck(s.client.invite)]))
            && t.toServer <= s.toServer + {CreateAck(s.client.invite)}
  {
  }

  /**
   Over every such run, of all that is sent to the server exactly the INVITE and its ACK have the key of the
   server transaction, and of all that is sent to the client exactly the server's responses have its key.
   */
  lemma OnlyItsOwnMessagesArrive(invite: Headers, reliable: bool, now: int, acts: seq<Action>, n: nat)
    requires n <= |acts| && invite.verb == Invite
    ensures var s := Run(invite, reliable, now, acts, n);
            && (forall r :: r in s.toServer && !s.server.phase.Absent? ==>
                  (FromHeaders(r.headers, ServerSide) == s.server.key <==> r == Request(invite) || r == CreateAck(invite)))
            && (forall r :: r in s.toClient ==> (Arrives(s, r) <==> IsOwn(s, r)))
  {
    hide FromHeaders, ClientInv;
    AtMostOneFailure(invite, reliable, now, acts, n);
    var s := Run(invite, reliable, now, acts, n);
    AckSharesKey(invite, ServerSide);
    SameInvite(invite, reliable, now, acts, n);
    SentIsOwn(s.client, s.server.response);
  }

  lemma SentIsOwn(c: Client, response: Option<Response>)
    requires ClientInv(c, response)
    ensures forall r :: r in c.sent ==> r == Request(c.invite) || r == CreateAck(c.invite)
  {
  }

  lemma {:induction false} SameInvite(invite: Headers, reliable: bool, now: int, acts: seq<Action>, n: nat)
    requires n <= |acts|
    ensures Run(invite, reliable, now, acts, n).client.invite == invite
  {
    if n > 0 {
      SameInvite(invite, reliable, now, acts, n - 1);
    }
  }
}
