/** The retransmission schedule of STUN requests: when a request is sent again, and when it is given up. */
module StunTimer {

  import opened Wrappers

  datatype Config = Config(initialRto: nat, maxRetransmits: nat, maxRto: nat)

  /** Milliseconds, as in the source. */
  const DEFAULTS := Config(250, 7, 3000)

  function Doubled(n: nat, times: nat): (r: nat)
    decreases times, n
  {
    if times == 0 then n else Doubled(2 * n, times - 1)
  }

  function RetransmitDelta(c: Config, attempts: nat): (r: nat) {
    var rto := Doubled(c.initialRto, attempts);
    if rto <= c.maxRto then rto else c.maxRto
  }

  datatype Timer = Running(retransmitAt: int, retransmits: nat) | GivenUp

  type Active = t: Timer | t.Running? witness Running(0, 0)

  function Started(c: Config, now: int): (r: Timer) {
    Running(now + RetransmitDelta(c, 0), 0)
  }

  predicate IsDue(t: Timer, now: int) {
    t.Running? && t.retransmitAt <= now
  }

  /** Whether a poll sends the request again. */
  predicate Resends(c: Config, t: Timer, now: int) {
    IsDue(t, now) && t.retransmits < c.maxRetransmits
  }

  function Poll(c: Config, t: Timer, now: int): (r: Timer) {
    if !IsDue(t, now) then t
    else if t.retransmits >= c.maxRetransmits then GivenUp
    else Running(t.retransmitAt + RetransmitDelta(c, t.retransmits + 1), t.retransmits + 1)
  }

  // ---------- the schedule, told without timers ----------

  /** The k-th deadline: the start and the first k + 1 capped, doubling deltas. */
  function Deadline(c: Config, start: int, k: nat): (r: int) {
    if k == 0 then start + RetransmitDelta(c, 0) else Deadline(c, start, k - 1) + RetransmitDelta(c, k)
  }

  /** How many of the first n polls reach the deadline that is then the next one. */
  function DuePolls(c: Config, start: int, polls: seq<int>, n: nat): (d: nat)
    requires n <= |polls|
    ensures d <= n && d <= c.maxRetransmits + 1
  {
    if n == 0 then 0
    else
      var d := DuePolls(c, start, polls, n - 1);
      if d <= c.maxRetransmits && Deadline(c, start, d) <= polls[n - 1] then d + 1 else d
  }

  function TimerAfter(c: Config, start: int, polls: seq<int>, n: nat): (r: Timer)
    requires n <= |polls|
  {
    if n == 0 then Started(c, start) else Poll(c, TimerAfter(c, start, polls, n - 1), polls[n - 1])
  }

  /** How often the request has been sent: once at the start, and once for each poll that resends it. */
  function Sends(c: Config, start: int, polls: seq<int>, n: nat): (r: nat)
    requires n <= |polls|
  {
    if n == 0 then 1
    else Sends(c, start, polls, n - 1) + if Resends(c, TimerAfter(c, start, polls, n - 1), polls[n - 1]) then 1 else 0
  }

  /**
   After any polls at any times, d of them due: the timer runs to the d-th deadline while d is at most the
   number of retransmits, and the request has been sent 1 + d times; at the next due poll it is given up.
   */
  lemma {:induction false} ScheduleIsExact(c: Config, start: int, polls: seq<int>, n: nat)
    requires n <= |polls|
    ensures var d := DuePolls(c, start, polls, n);
            && TimerAfter(c, start, polls, n) == (if d <= c.maxRetransmits then Running(Deadline(c, start, d), d) else GivenUp)
            && Sends(c, start, polls, n) == 1 + (if d <= c.maxRetransmits then d else c.maxRetransmits)
  {
    if n > 0 {
      ScheduleIsExact(c, start, polls, n - 1);
    }
  }

  /** A request is never given up before its last deadline. */
  lemma {:induction false} NotGivenUpEarly(c: Config, start: int, polls: seq<int>, n: nat)
    requires n <= |polls| && forall i :: 0 <= i < n ==> polls[i] < Deadline(c, start, c.maxRetransmits)
    ensures TimerAfter(c, start, polls, n).Running?
  {
    ScheduleIsExact(c, start, polls, n);
    if n > 0 {
      NotGivenUpEarly(c, start, polls, n - 1);
      ScheduleIsExact(c, start, polls, n - 1);
    }
  }

  /** The number of polls, among the first n, that come at or after the last deadline. */
  function LatePolls(c: Config, start: int, polls: seq<int>, n: nat): (r: nat)
    requires n <= |polls|
  {
    if n == 0 then 0
    else LatePolls(c, start, polls, n - 1) + if Deadline(c, start, c.maxRetransmits) <= polls[n - 1] then 1 else 0
  }

  lemma {:induction false} DeadlinesAscend(c: Config, start: int, k: nat, m: nat)
    requires k <= m
    ensures Deadline(c, start, k) <= Deadline(c, start, m)
  {
    if k < m {
      DeadlinesAscend(c, start, k, m - 1);
    }
  }

  lemma {:induction false} LatePollsAreDue(c: Config, start: int, polls: seq<int>, n: nat)
    requires n <= |polls|
    ensures var late := LatePolls(c, start, polls, n);
            DuePolls(c, start, polls, n) >= (if late <= c.maxRetransmits + 1 then late else c.maxRetransmits + 1)
  {
    if n > 0 {
      LatePollsAreDue(c, start, polls, n - 1);
      var d := DuePolls(c, start, polls, n - 1);
      if d <= c.maxRetransmits {
        DeadlinesAscend(c, start, d, c.maxRetransmits);
      }
    }
  }

  /** Enough polls after the last deadline give the request up, at whatever times they come. */
  lemma GivenUpInTheEnd(c: Config, start: int, polls: seq<int>, n: nat)
    requires n <= |polls| && LatePolls(c, start, polls, n) > c.maxRetransmits
    ensures TimerAfter(c, start, polls, n).GivenUp?
  {
    LatePollsAreDue(c, start, polls, n);
    ScheduleIsExact(c, start, polls, n);
  }

  /** With the defaults the last deadline comes 15.75 seconds after the start. */
  lemma DefaultLastDeadline(start: int)
    ensures Deadline(DEFAULTS, start, DEFAULTS.maxRetransmits) == start + 15750
  {
    var c := DEFAULTS;
    assert Doubled(250, 1) == 500 && Doubled(250, 2) == 1000 && Doubled(250, 3) == 2000;
    assert Doubled(250, 4) == 4000 && Doubled(250, 5) == 8000 && Doubled(250, 6) == 16000 && Doubled(250, 7) == 32000;
    assert Deadline(c, start, 0) == start + 250 && Deadline(c, start, 1) == start + 750;
    assert Deadline(c, start, 2) == start + 1750 && Deadline(c, start, 3) == start + 3750;
    assert Deadline(c, start, 4) == start + 6750 && Deadline(c, start, 5) == start + 9750;
    assert Deadline(c, start, 6) == start + 12750;
  }

  // ---------- the binding to a STUN server ----------

  datatype BindingState = Waiting | InProgress(tid: nat, timer: Timer) | WaitingForRefresh(refreshAt: int) | Failed

  /** The mapped address in a response, which can be missing or not decodable. */
  datatype Mapping<+A> = Missing | Malformed | Mapped(address: A)

  datatype Discovery<+A> = NotWanted | NoAddress | Discovered(address: A) | Panicked

  /** The binding to a STUN server; the requests it sends are told by their transaction id. */
  class StunServerBinding<A> {
    var state: BindingState
    var lastMapped: Option<A>

    constructor ()
      ensures state == Waiting && lastMapped == None
    {
      state, lastMapped := Waiting, None;
    }

    predicate Valid()
      reads this
    {
      && (state.InProgress? ==> state.timer.Running?)
      && (state.WaitingForRefresh? ==> lastMapped.Some?) && (state.Failed? ==> lastMapped.None?)
    }

    /** A transaction runs on its timer; it fails when that is given up, and then the mapped address is gone. */
    method PollBinding(now: int, c: Config, tid: nat) returns (sent: bool)
      requires Valid()
      modifies this
      ensures Valid()
      ensures old(state).InProgress? ==>
                var t := Poll(c, old(state).timer, now);
                && sent == Resends(c, old(state).timer, now)
                && state == (if t.GivenUp? then Failed else InProgress(old(state).tid, t))
                && lastMapped == (if t.GivenUp? then None else old(lastMapped))
      ensures !old(state).InProgress? ==>
                && lastMapped == old(lastMapped)
                && sent == (old(state).Waiting? || (old(state).WaitingForRefresh? && now > old(state).refreshAt))
                && state == (if sent then InProgress(tid, Started(c, now)) else old(state))
    {
      sent := false;
      match state {
        case Waiting =>
          state, sent := InProgress(tid, Started(c, now)), true;
        case InProgress(id, timer) =>
          if timer.retransmitAt > now {
            return;
          }
          if timer.retransmits >= c.maxRetransmits {
            state, lastMapped := Failed, None;
            return;
          }
          var n := timer.retransmits + 1;
          state, sent := InProgress(id, Running(timer.retransmitAt + RetransmitDelta(c, n), n)), true;
        case WaitingForRefresh(refreshAt) =>
          if now > refreshAt {
            state, sent := InProgress(tid, Started(c, now)), true;
          }
        case Failed =>
      }
    }

    /** A response: if it answers the request in progress and carries an address, that is kept until the next one, or the failure. */
    method ReceiveResponse(tid: nat, mapped: Mapping<A>, now: int, refreshInterval: nat) returns (found: Discovery<A>)
      requires Valid()
      modifies this
      ensures Valid() && (found.NotWanted? <==> !(old(state).InProgress? && old(state).tid == tid))
      ensures !found.NotWanted? ==> found == match mapped case Missing => NoAddress case Malformed => Panicked case Mapped(a) => Discovered(a)
      ensures state == if found.Discovered? then WaitingForRefresh(now + refreshInterval) else old(state)
      ensures lastMapped == if found.Discovered? then Some(found.address) else old(lastMapped)
    {
      if !state.InProgress? || state.tid != tid {
        return NotWanted;
      }
      match mapped {
        case Missing => found := NoAddress;
        case Malformed => found := Panicked;
        case Mapped(address) =>
          state, lastMapped := WaitingForRefresh(now + refreshInterval), Some(address);
          found := Discovered(address);
      }
    }
  }
}
