/**
 Two ICE agents settle which of them controls the session, over a network that drops, duplicates and
 reorders their connectivity checks.
 */
module IceRoles {

  import opened Wrappers

  /** The role attribute of a message, with the tie-breaker of its sender. */
  datatype Role = Controlling(tie: nat) | Controlled(tie: nat)

  datatype Class = Request | Success | Error

  /** What matters of a STUN message: the password it is signed with, its role attribute and error code. */
  datatype Packet = Packet(kind: Class, key: string, role: Option<Role>, code: Option<nat>)

  datatype Agent = Agent(controlling: bool, tie: nat, pwd: string, remotePwd: string)

  const ROLE_CONFLICT: nat := 487

  // ---------- the messages ----------

  function RoleOf(a: Agent): (r: Role) {
    if a.controlling then Controlling(a.tie) else Controlled(a.tie)
  }

  function BindingRequest(a: Agent): (r: Packet) {
    Packet(Request, a.remotePwd, Some(RoleOf(a)), None)
  }

  function SuccessResponse(a: Agent): (r: Packet) {
    Packet(Success, a.pwd, None, None)
  }

  /** The reply to a conflict; the source gives it the success class and signs it with the remote password. */
  function RoleError(a: Agent): (r: Packet) {
    Packet(Success, a.remotePwd, Some(RoleOf(a)), Some(ROLE_CONFLICT))
  }

  predicate VerifyIntegrity(a: Agent, p: Packet) {
    p.key == if p.kind.Request? then a.pwd else a.remotePwd
  }

  // ---------- receiving ----------

  datatype Verdict = Keep | Switch | Refuse

  /** What an agent does about the role attribute of a request. */
  function Decide(controlling: bool, tie: nat, role: Option<Role>): (r: Verdict) {
    if role.None? || controlling != role.value.Controlling? then Keep
    else if tie >= role.value.tie then Refuse
    else Switch
  }

  function ReceiveRequest(a: Agent, p: Packet): (r: (Agent, Option<Packet>)) {
    match Decide(a.controlling, a.tie, p.role)
    case Refuse => (a, Some(RoleError(a)))
    case Switch => (a.(controlling := !a.controlling), Some(SuccessResponse(a)))
    case Keep => (a, Some(SuccessResponse(a)))
  }

  /** An error response answers a check in progress; code 487 makes the agent take the role it is told. */
  function ReceiveError(a: Agent, p: Packet): (r: Agent) {
    if p.code != Some(ROLE_CONFLICT) || p.role.None? then a
    else a.(controlling := p.role.value.Controlled?)
  }

  /** known: the transaction belongs to a check in progress. */
  function Receive(a: Agent, p: Packet, known: bool): (r: (Agent, Option<Packet>)) {
    if !VerifyIntegrity(a, p) then (a, None)
    else match p.kind
      case Request => ReceiveRequest(a, p)
      case Success => (a, None)
      case Error => (if known then ReceiveError(a, p) else a, None)
  }

  /** A conflict reply reaches the peer's handler exactly when both agents have the same password. */
  lemma RoleErrorIsDiscarded(a: Agent, peer: Agent)
    requires a.remotePwd == peer.pwd && peer.remotePwd == a.pwd
    ensures VerifyIntegrity(peer, RoleError(a)) <==> a.pwd == peer.pwd
    ensures VerifyIntegrity(peer, SuccessResponse(a)) && VerifyIntegrity(peer, BindingRequest(a))
  {
  }

  // ---------- two agents and a network ----------

  datatype Side = Left | Right {
    function Peer(): (r: Side) {
      if Left? then Right else Left
    }
  }

  /** Everything ever sent to each side can still arrive, any number of times and in any order. */
  datatype System = System(left: Agent, right: Agent, toLeft: set<Packet>, toRight: set<Packet>,
                           heardLeft: bool, heardRight: bool, switchesLeft: nat, switchesRight: nat)
  {
    function At(s: Side): (r: Agent) {
      if s.Left? then left else right
    }

    function Inbox(s: Side): (r: set<Packet>) {
      if s.Left? then toLeft else toRight
    }

    /** The side has processed a request of its peer. */
    predicate Heard(s: Side) {
      if s.Left? then heardLeft else heardRight
    }

    function Switches(s: Side): (r: nat) {
      if s.Left? then switchesLeft else switchesRight
    }

    predicate Opposite() {
      left.controlling != right.controlling
    }

    function Send(s: Side, p: Option<Packet>): (r: System) {
      if s.Left? then this.(toRight := Plus(toRight, p)) else this.(toLeft := Plus(toLeft, p))
    }

    function Update(s: Side, a: Agent, heard: bool): (r: System) {
      var n := if a.controlling != At(s).controlling then 1 else 0;
      if s.Left? then this.(left := a, heardLeft := heardLeft || heard, switchesLeft := switchesLeft + n)
      else this.(right := a, heardRight := heardRight || heard, switchesRight := switchesRight + n)
    }
  }

  function Plus(ps: set<Packet>, p: Option<Packet>): (r: set<Packet>) {
    if p.None? then ps else ps + {p.value}
  }

  datatype Action = Check(side: Side) | Deliver(side: Side, packet: Packet, known: bool)

  function Step(s: System, act: Action): (r: System) {
    match act
    case Check(side) => s.Send(side, Some(BindingRequest(s.At(side))))
    case Deliver(side, p, known) =>
      if p !in s.Inbox(side) then s
      else
        var (a, reply) := Receive(s.At(side), p, known);
        s.Update(side, a, p.kind.Request?).Send(side, reply)
  }

  function Start(left: Agent, right: Agent): (r: System) {
    System(left, right, {}, {}, false, false, 0, 0)
  }

  function Run(left: Agent, right: Agent, acts: seq<Action>, n: nat): (r: System)
    requires n <= |acts|
  {
    if n == 0 then Start(left, right) else Step(Run(left, right, acts, n - 1), acts[n - 1])
  }

  /** Each agent knows the password of the other. */
  ghost predicate Paired(left: Agent, right: Agent) {
    left.remotePwd == right.pwd && right.remotePwd == left.pwd
  }

  // ---------- the same role ----------

  /**
   Both agents start in role `controlling`. The one with the larger tie-breaker keeps its role and says so
   in all it sends; the other has switched, once, exactly if it has heard a request.
   */
  ghost predicate SameRole(s: System, controlling: bool, winner: Side, loser: Agent) {
    var l, w := s.At(winner.Peer()), s.At(winner);
    && w.tie > l.tie && w.controlling == controlling && s.Switches(winner) == 0
    && l == loser.(controlling := controlling != s.Heard(winner.Peer()))
    && s.Switches(winner.Peer()) == (if s.Heard(winner.Peer()) then 1 else 0)
    && w.remotePwd == l.pwd && l.remotePwd == w.pwd
    && AllSent(s.Inbox(winner.Peer()), w) && AllSentBySome(s.Inbox(winner), l)
  }

  ghost predicate AllSent(ps: set<Packet>, a: Agent) {
    forall p <- ps :: Sent(p, a)
  }

  ghost predicate AllSentBySome(ps: set<Packet>, a: Agent) {
    forall p <- ps :: SentBySome(p, a)
  }

  /** The packet is one that the agent, in its present role, sends. */
  ghost predicate Sent(p: Packet, a: Agent) {
    p == BindingRequest(a) || p == RoleError(a) || p == SuccessResponse(a)
  }

  /** The packet is one that the agent sends in one role or the other. */
  ghost predicate SentBySome(p: Packet, a: Agent) {
    Sent(p, a.(controlling := true)) || Sent(p, a.(controlling := false))
  }

  lemma WinnerKeeps(w: Agent, l: Agent, inbox: set<Packet>, p: Packet, known: bool)
    requires w.tie > l.tie && SentBySome(p, l) && AllSent(inbox, w)
    ensures var (a, reply) := Receive(w, p, known); a == w && AllSent(Plus(inbox, reply), w)
  {
  }

  lemma LoserYields(w: Agent, l: Agent, inbox: set<Packet>, p: Packet, known: bool, controlling: bool, heard: bool)
    requires w.tie > l.tie && w.controlling == controlling && Sent(p, w) && AllSentBySome(inbox, l)
    requires w.remotePwd == l.pwd && l.remotePwd == w.pwd && l.controlling == (controlling != heard)
    ensures var (a, reply) := Receive(l, p, known);
            a == l.(controlling := controlling != (heard || p.kind.Request?)) && AllSentBySome(Plus(inbox, reply), a)
  {
  }

  lemma OwnRequest(w: Agent, l: Agent, toL: set<Packet>, toW: set<Packet>)
    requires AllSent(toL, w) && AllSentBySome(toW, l)
    ensures AllSent(Plus(toL, Some(BindingRequest(w))), w) && AllSentBySome(Plus(toW, Some(BindingRequest(l))), l)
  {
    assert l == l.(controlling := l.controlling);
  }

  lemma SameRoleStep(s: System, act: Action, controlling: bool, winner: Side, loser: Agent)
    requires SameRole(s, controlling, winner, loser)
    ensures SameRole(Step(s, act), controlling, winner, loser)
  {
    hide Receive, AllSent, AllSentBySome, Plus, BindingRequest;
    var l, w := s.At(winner.Peer()), s.At(winner);
    var toL, toW := s.Inbox(winner.Peer()), s.Inbox(winner);
    match act {
      case Check(side) =>
        OwnRequest(w, l, toL, toW);
      case Deliver(side, p, known) =>
        if p in s.Inbox(side) {
          if side == winner {
            assert SentBySome(p, l) by {
              AllSentBySomeAt(toW, l, p);
            }
            WinnerKeeps(w, l, toL, p, known);
          } else {
            assert Sent(p, w) by {
              AllSentAt(toL, w, p);
            }
            LoserYields(w, l, toW, p, known, controlling, s.Heard(side));
          }
        }
    }
  }

  lemma AllSentAt(ps: set<Packet>, a: Agent, p: Packet)
    requires AllSent(ps, a) && p in ps
    ensures Sent(p, a)
  {
  }

  lemma AllSentBySomeAt(ps: set<Packet>, a: Agent, p: Packet)
    requires AllSentBySome(ps, a) && p in ps
    ensures SentBySome(p, a)
  {
  }

  /**
   Agents with different tie-breakers that start in the same role: over every run the one with the larger
   tie-breaker never switches, the other switches at most once, and the roles are opposite exactly from the
   moment it has processed a request of its peer.
   */
  lemma {:induction false} ConflictIsResolved(left: Agent, right: Agent, acts: seq<Action>, n: nat)
    requires n <= |acts| && Paired(left, right)
    requires left.controlling == right.controlling && left.tie != right.tie
    ensures var s := Run(left, right, acts, n);
            var winner := if left.tie > right.tie then Left else Right;
            && SameRole(s, left.controlling, winner, if winner.Left? then right else left)
            && s.Switches(winner) == 0 && s.Switches(winner.Peer()) <= 1
            && (s.Opposite() <==> s.Heard(winner.Peer()))
  {
    var winner := if left.tie > right.tie then Left else Right;
    var loser := if winner.Left? then right else left;
    if n > 0 {
      ConflictIsResolved(left, right, acts, n - 1);
      SameRoleStep(Run(left, right, acts, n - 1), acts[n - 1], left.controlling, winner, loser);
    }
  }

  /** Two controlled agents: the smaller tie-breaker takes control, where RFC 8445 section 7.3.1.1 wants the larger. */
  lemma SmallerTakesControl(left: Agent, right: Agent, acts: seq<Action>, n: nat)
    requires n <= |acts| && Paired(left, right)
    requires !left.controlling && !right.controlling && left.tie < right.tie
    requires Run(left, right, acts, n).Heard(Left)
    ensures var s := Run(left, right, acts, n); s.left.controlling && !s.right.controlling
  {
    ConflictIsResolved(left, right, acts, n);
  }

  /** Once opposite, the roles stay opposite, whatever still arrives. */
  lemma {:induction false} StaysResolved(left: Agent, right: Agent, acts: seq<Action>, m: nat, n: nat)
    requires m <= n <= |acts| && Paired(left, right)
    requires left.controlling == right.controlling && left.tie != right.tie
    requires Run(left, right, acts, m).Opposite()
    ensures Run(left, right, acts, n).Opposite()
    decreases n
  {
    if m < n {
      StaysResolved(left, right, acts, m, n - 1);
      ConflictIsResolved(left, right, acts, n - 1);
      ConflictIsResolved(left, right, acts, n);
    }
  }

  // ---------- opposite roles, and equal tie-breakers ----------

  /** Nobody has switched, and whatever is in the network was sent in the roles of the start. */
  ghost predicate Settled(s: System, left: Agent, right: Agent) {
    && s.left == left && s.right == right && s.switchesLeft == 0 && s.switchesRight == 0
    && AllSent(s.toLeft, right) && AllSent(s.toRight, left)
  }

  /** Neither agent gives way to a request of the other. */
  ghost predicate NobodyYields(left: Agent, right: Agent) {
    left.controlling != right.controlling || left.tie == right.tie
  }

  /**
   Nobody ever switches if the agents start in opposite roles, or with equal tie-breakers: then two agents in
   the same role answer each other's checks with conflicts for ever.
   */
  lemma {:induction false} NobodySwitches(left: Agent, right: Agent, acts: seq<Action>, n: nat)
    requires n <= |acts| && Paired(left, right) && NobodyYields(left, right)
    ensures Settled(Run(left, right, acts, n), left, right)
  {
    if n > 0 {
      NobodySwitches(left, right, acts, n - 1);
      SettledStep(Run(left, right, acts, n - 1), acts[n - 1], left, right);
    }
  }

  lemma Settles(a: Agent, b: Agent, inbox: set<Packet>, p: Packet, known: bool)
    requires NobodyYields(a, b) && Sent(p, b) && AllSent(inbox, a)
    ensures var (c, reply) := Receive(a, p, known); c == a && AllSent(Plus(inbox, reply), a)
  {
  }

  lemma SettledStep(s: System, act: Action, left: Agent, right: Agent)
    requires Paired(left, right) && NobodyYields(left, right) && Settled(s, left, right)
    ensures Settled(Step(s, act), left, right)
  {
    hide Receive, AllSent, Plus, BindingRequest;
    match act {
      case Check(side) =>
        SettledCheck(left, s.toRight);
        SettledCheck(right, s.toLeft);
      case Deliver(side, p, known) =>
        if p in s.Inbox(side) {
          AllSentAt(s.Inbox(side), s.At(side.Peer()), p);
          Settles(s.At(side), s.At(side.Peer()), s.Inbox(side.Peer()), p, known);
        }
    }
  }

  lemma SettledCheck(a: Agent, ps: set<Packet>)
    requires AllSent(ps, a)
    ensures AllSent(Plus(ps, Some(BindingRequest(a))), a)
  {
  }

  /**
   Some run brings two agents from the same role into opposite roles exactly when their tie-breakers differ:
   one check of the larger one is enough.
   */
  lemma ResolvableExactly(left: Agent, right: Agent)
    requires Paired(left, right) && left.controlling == right.controlling
    ensures (exists acts: seq<Action> :: Run(left, right, acts, |acts|).Opposite()) <==> left.tie != right.tie
  {
    if left.tie == right.tie {
      forall acts: seq<Action>
        ensures !Run(left, right, acts, |acts|).Opposite()
      {
        NobodySwitches(left, right, acts, |acts|);
      }
    } else {
      var (winner, a) := if left.tie > right.tie then (Left, left) else (Right, right);
      var acts := [Check(winner), Deliver(winner.Peer(), BindingRequest(a), false)];
      assert Run(left, right, acts, 1) == Start(left, right).Send(winner, Some(BindingRequest(a)));
      assert Run(left, right, acts, 2).Opposite();
    }
  }
}
