/**
 The RTP jitter buffer: a deque in sequence number order whose gaps are held open by vacant entries.
 It stands for a map from sequence number to packet, delivered in order.
 */
module JitterBuffer {

  import opened Wrappers

  const MAX_ENTRIES: nat := 1000

  datatype Entry<+P> = Vacant(number: nat) | Occupied(timestamp: nat, number: nat, packet: P)

  datatype State<+P> = State(queue: seq<Entry<P>>, last: Option<nat>, dropped: nat, lost: nat)

  /** What a pop does; the source asserts that it skips only vacant entries. */
  datatype Popped<+P> = Nothing | Packet(packet: P) | AssertionFailed

  // ---------- push and pop as functions ----------

  predicate Late<P>(s: State<P>, number: nat) {
    s.last.Some? && s.last.value >= number
  }

  /** The last entry with this number, searched from the back; the length of the queue if there is none. */
  function FindBack<P>(q: seq<Entry<P>>, number: nat, n: nat): (r: nat)
    requires n <= |q|
    ensures r <= |q| && (r < |q| ==> r < n && q[r].number == number)
  {
    if n == 0 then |q| else if q[n - 1].number == number then n - 1 else FindBack(q, number, n - 1)
  }

  function Vacancies<P>(from: nat, to: nat): (r: seq<Entry<P>>)
    ensures |r| == (if from < to then to - from else 0)
    ensures forall i :: 0 <= i < |r| ==> r[i] == Vacant(from + i)
  {
    seq(if from < to then to - from else 0, i requires i >= 0 => Vacant(from + i))
  }

  function Trim<P>(s: State<P>): (r: State<P>) {
    if |s.queue| > MAX_ENTRIES then s.(queue := s.queue[1..], dropped := s.dropped + 1) else s
  }

  /** The packet takes a vacant entry; an occupied one makes it a duplicate. */
  function Fill<P>(s: State<P>, i: nat, entry: Entry<P>): (r: State<P>)
    requires i < |s.queue|
  {
    if s.queue[i].Vacant? then s.(queue := s.queue[i := entry]) else s.(dropped := s.dropped + 1)
  }

  function Push<P>(s: State<P>, timestamp: nat, number: nat, packet: P): (r: State<P>) {
    var entry := Occupied(timestamp, number, packet);
    var n := |s.queue|;
    if Late(s, number) then s.(dropped := s.dropped + 1)
    else if n == 0 then s.(queue := [entry])
    else if s.queue[n - 1].number > number then
      var i := FindBack(s.queue, number, n);
      if i < n then Fill(s, i, entry) else Trim(s)
    else if s.queue[n - 1].number == number then Trim(Fill(s, n - 1, entry))
    else Trim(s.(queue := s.queue + Vacancies(s.queue[n - 1].number + 1, number) + [entry]))
  }

  predicate Due<P>(e: Entry<P>, max: nat) {
    e.Occupied? && e.timestamp <= max
  }

  function FirstDue<P>(q: seq<Entry<P>>, max: nat, i: nat): (r: nat)
    requires i <= |q|
    ensures i <= r <= |q| && (r < |q| ==> Due(q[r], max)) && forall k :: i <= k < r ==> !Due(q[k], max)
    decreases |q| - i
  {
    if i == |q| || Due(q[i], max) then i else FirstDue(q, max, i + 1)
  }

  function FirstOccupied<P>(q: seq<Entry<P>>, i: nat): (r: nat)
    requires i <= |q|
    ensures i <= r <= |q| && (r < |q| ==> q[r].Occupied?) && forall k :: i <= k < r ==> q[k].Vacant?
    decreases |q| - i
  {
    if i == |q| || q[i].Occupied? then i else FirstOccupied(q, i + 1)
  }

  function Pop<P>(s: State<P>, max: nat): (r: (State<P>, Popped<P>)) {
    var due, occupied := FirstDue(s.queue, max, 0), FirstOccupied(s.queue, 0);
    if due == |s.queue| then (s, Nothing)
    else if occupied < due then (s.(queue := s.queue[occupied + 1..]), AssertionFailed)
    else
      var e := s.queue[due];
      (State(s.queue[due + 1..], Some(e.number), s.dropped, s.lost + due), Packet(e.packet))
  }

  // ---------- the buffer object ----------

  class JitterBuffer<P> {
    var queue: seq<Entry<P>>
    var last: Option<nat>
    var dropped: nat
    var lost: nat

    function Contents(): (r: State<P>)
      reads this
    {
      State(queue, last, dropped, lost)
    }

    constructor ()
      ensures Contents() == State([], None, 0, 0)
    {
      queue, last, dropped, lost := [], None, 0, 0;
    }

    method PushPacket(timestamp: nat, number: nat, packet: P)
      modifies this
      ensures Contents() == Push(old(Contents()), timestamp, number, packet)
    {
      if last.Some? && last.value >= number {
        dropped := dropped + 1;
        return;
      }
      var n := |queue|;
      if n == 0 {
        queue := [Occupied(timestamp, number, packet)];
        return;
      }
      if queue[n - 1].number > number {
        var i := n;
        while i > 0
          invariant 0 <= i <= n && FindBack(queue, number, i) == FindBack(queue, number, n)
          invariant Contents() == old(Contents())
        {
          i := i - 1;
          if queue[i].number == number {
            if queue[i].Vacant? {
              queue := queue[i := Occupied(timestamp, number, packet)];
            } else {
              dropped := dropped + 1;
            }
            return;
          }
        }
      } else if queue[n - 1].number == number {
        if queue[n - 1].Vacant? {
          queue := queue[n - 1 := Occupied(timestamp, number, packet)];
        } else {
          dropped := dropped + 1;
        }
      } else {
        AppendWithGap(timestamp, number, packet);
      }
      if |queue| > MAX_ENTRIES {
        queue := queue[1..];
        dropped := dropped + 1;
      }
    }

    /** Holds the gap open with vacant entries, then appends the packet. */
    method AppendWithGap(timestamp: nat, number: nat, packet: P)
      requires |queue| > 0 && queue[|queue| - 1].number < number
      modifies this`queue
      ensures queue == old(queue) + Vacancies(old(queue)[|old(queue)| - 1].number + 1, number)
                       + [Occupied(timestamp, number, packet)]
    {
      var from := queue[|queue| - 1].number;
      var gap := number - from;
      var i := 1;
      while i < gap
        invariant 1 <= i <= gap && queue == old(queue) + Vacancies(from + 1, from + i)
      {
        assert Vacancies<P>(from + 1, from + i + 1) == Vacancies(from + 1, from + i) + [Vacant(from + i)];
        queue := queue + [Vacant(from + i)];
        i := i + 1;
      }
      queue := queue + [Occupied(timestamp, number, packet)];
    }

    /** Takes n entries off the front; false if one is occupied, which ends it. */
    method SkipVacant(n: nat) returns (ok: bool)
      requires n <= |queue|
      modifies this`queue
      ensures var i := FirstOccupied(old(queue), 0); ok == (n <= i) && queue == old(queue)[if n <= i then n else i + 1..]
    {
      var i := 0;
      while i < n
        invariant 0 <= i <= n && queue == old(queue)[i..] && FirstOccupied(old(queue), 0) == FirstOccupied(old(queue), i)
      {
        var front := queue[0];
        queue := queue[1..];
        if front.Occupied? {
          return false;
        }
        i := i + 1;
      }
      ok := true;
    }

    method PopPacket(max: nat) returns (r: Popped<P>)
      modifies this
      ensures (Contents(), r) == Pop(old(Contents()), max)
    {
      var due := 0;
      while due < |queue| && !Due(queue[due], max)
        invariant 0 <= due <= |queue| && FirstDue(queue, max, 0) == FirstDue(queue, max, due)
      {
        due := due + 1;
      }
      if due == |queue| {
        return Nothing;
      }
      var ok := SkipVacant(due);
      if !ok {
        return AssertionFailed;
      }
      lost := lost + due;
      var front := queue[0];
      queue := queue[1..];
      last := Some(front.number);
      r := Packet(front.packet);
    }

    method TimestampOfEarliestPacket() returns (r: Option<nat>)
      ensures r == match FirstOccupied(queue, 0) case i => if i == |queue| then None else Some(queue[i].timestamp)
    {
      var i := 0;
      while i < |queue|
        invariant 0 <= i <= |queue| && FirstOccupied(queue, 0) == FirstOccupied(queue, i)
      {
        if queue[i].Occupied? {
          return Some(queue[i].timestamp);
        }
        i := i + 1;
      }
      r := None;
    }
  }

  // ---------- the invariant ----------

  ghost predicate Numbered<P>(q: seq<Entry<P>>, first: nat) {
    forall i :: 0 <= i < |q| ==> q[i].number == first + i
  }

  /** Numbers without holes, a packet at the back, and nothing that was delivered already. */
  ghost predicate Valid<P>(s: State<P>) {
    s.queue != [] ==>
      && Numbered(s.queue, Front(s))
      && s.queue[|s.queue| - 1].Occupied?
      && (s.last.Some? ==> s.last.value < Front(s))
  }

  /** The first number the queue can hold. */
  ghost function Front<P>(s: State<P>): (r: nat)
    requires s.queue != []
  {
    s.queue[0].number
  }

  /** The buffer as a map from sequence number to timestamp and packet. */
  ghost function Lookup<P>(s: State<P>, n: nat): (r: Option<(nat, P)>) {
    if s.queue == [] || n < Front(s) || n - Front(s) >= |s.queue| then None
    else match s.queue[n - Front(s)]
      case Vacant(_) => None
      case Occupied(timestamp, _, packet) => Some((timestamp, packet))
  }

  lemma {:induction false} FindBackIsIndex<P>(s: State<P>, number: nat, n: nat)
    requires Valid(s) && n <= |s.queue| && s.queue != []
    ensures FindBack(s.queue, number, n) == if Front(s) <= number < Front(s) + n then number - Front(s) else |s.queue|
  {
    if n > 0 {
      FindBackIsIndex(s, number, n - 1);
    }
  }

  // ---------- push refines an update of the map ----------

  /** A packet that is neither late, nor a duplicate, nor older than the front. */
  ghost predicate Accepts<P>(s: State<P>, number: nat) {
    !Late(s, number) && Lookup(s, number).None? && (s.queue != [] ==> Front(s) <= number)
  }

  /** The map after adding a packet. */
  ghost function Added<P>(s: State<P>, timestamp: nat, number: nat, packet: P, n: nat): (r: Option<(nat, P)>) {
    if n == number && Accepts(s, number) then Some((timestamp, packet)) else Lookup(s, n)
  }

  lemma TrimKeeps<P>(s: State<P>)
    requires Valid(s)
    ensures var t := Trim(s);
            && Valid(t) && t.last == s.last && (s.queue != [] ==> t.queue != [] && Front(s) <= Front(t) <= Front(s) + 1)
            && forall n: nat :: Lookup(t, n) == if s.queue != [] && n < Front(t) then None else Lookup(s, n)
  {
    if |s.queue| > MAX_ENTRIES {
      assert s.queue[1..][0].number == Front(s) + 1;
    }
  }

  lemma FillKeeps<P>(s: State<P>, i: nat, timestamp: nat, number: nat, packet: P)
    requires Valid(s) && !Late(s, number) && i < |s.queue| && number == Front(s) + i
    ensures var t := Fill(s, i, Occupied(timestamp, number, packet));
            && Valid(t) && t.last == s.last && t.queue != [] && Front(t) == Front(s)
            && forall n: nat :: Lookup(t, n) == Added(s, timestamp, number, packet, n)
  {
    hide Numbered;
    assert Numbered(Fill(s, i, Occupied(timestamp, number, packet)).queue, Front(s)) by {
      NumberedFill(s.queue, Front(s), i, timestamp, packet);
    }
    assert s.queue[i].number == number by {
      NumberedAt(s.queue, Front(s), i);
    }
  }

  lemma NumberedAt<P>(q: seq<Entry<P>>, first: nat, i: nat)
    requires Numbered(q, first) && i < |q|
    ensures q[i].number == first + i
  {
  }

  lemma NumberedFill<P>(q: seq<Entry<P>>, first: nat, i: nat, timestamp: nat, packet: P)
    requires Numbered(q, first) && i < |q|
    ensures Numbered(q[i := Occupied(timestamp, first + i, packet)], first)
  {
  }

  lemma AppendKeeps<P>(s: State<P>, timestamp: nat, number: nat, packet: P)
    requires Valid(s) && !Late(s, number) && s.queue != [] && Front(s) + |s.queue| <= number
    ensures var back := s.queue[|s.queue| - 1].number;
            var t := s.(queue := s.queue + Vacancies(back + 1, number) + [Occupied(timestamp, number, packet)]);
            && Valid(t) && t.last == s.last && t.queue != [] && Front(t) == Front(s)
            && forall n: nat :: Lookup(t, n) == Added(s, timestamp, number, packet, n)
  {
    var back := s.queue[|s.queue| - 1].number;
    assert back == Front(s) + |s.queue| - 1;
    var q := s.queue + Vacancies(back + 1, number) + [Occupied(timestamp, number, packet)];
    assert Numbered(q, Front(s));
  }

  /**
   A push keeps the invariant, adds the packet if it is accepted, and loses nothing but what lies before
   the new front, which moves by at most one entry.
   */
  lemma PushRefines<P>(s: State<P>, timestamp: nat, number: nat, packet: P)
    requires Valid(s)
    ensures var t := Push(s, timestamp, number, packet);
            && Valid(t) && t.last == s.last
            && (s.queue != [] ==> t.queue != [] && Front(s) <= Front(t) <= Front(s) + 1)
            && forall n: nat :: Lookup(t, n) ==
                 if s.queue != [] && n < Front(t) then None else Added(s, timestamp, number, packet, n)
  {
    hide Numbered, Trim, Fill;
    var n := |s.queue|;
    if Late(s, number) {
    } else if n == 0 {
      assert Numbered([Occupied(timestamp, number, packet)], number) by {
        NumberedOne(Occupied(timestamp, number, packet));
      }
    } else {
      NumberedAt(s.queue, Front(s), n - 1);
      FindBackIsIndex(s, number, n);
      if number < Front(s) {
        TrimKeeps(s);
      } else if number < Front(s) + n {
        FillKeeps(s, number - Front(s), timestamp, number, packet);
        TrimKeeps(Fill(s, number - Front(s), Occupied(timestamp, number, packet)));
      } else {
        var back := s.queue[n - 1].number;
        AppendKeeps(s, timestamp, number, packet);
        TrimKeeps(s.(queue := s.queue + Vacancies(back + 1, number) + [Occupied(timestamp, number, packet)]));
      }
    }
  }

  lemma NumberedOne<P>(e: Entry<P>)
    ensures Numbered([e], e.number)
  {
  }

  /** A packet that lies behind the back of the queue, and how many entries it adds. */
  function Growth<P>(s: State<P>, number: nat): (r: nat) {
    var n := |s.queue|;
    if Late(s, number) then 0 else if n == 0 then 1
    else if number <= s.queue[n - 1].number then 0 else number - s.queue[n - 1].number
  }

  /**
   A push drops at most one entry, so that a buffer within its limit stays within it exactly when the
   packet does not open a gap of more than one entry over the limit.
   */
  lemma LimitIsKeptExactly<P>(s: State<P>, timestamp: nat, number: nat, packet: P)
    requires Valid(s) && |s.queue| <= MAX_ENTRIES
    ensures |Push(s, timestamp, number, packet).queue| <= MAX_ENTRIES <==> |s.queue| + Growth(s, number) <= MAX_ENTRIES + 1
  {
    hide Numbered;
    if s.queue != [] && !Late(s, number) {
      FindBackIsIndex(s, number, |s.queue|);
    }
  }

  /** Two packets, 1002 numbers apart: the second one makes a buffer of a thousand and two entries. */
  lemma LimitIsExceeded<P>(packet: P)
    ensures var s := Push(State([], None, 0, 0), 0, 1, packet);
            Valid(s) && |s.queue| == 1 && |Push(s, 0, 1003, packet).queue| == MAX_ENTRIES + 2
  {
    var s := Push(State([], None, 0, 0), 0, 1, packet);
    assert s.queue == [Occupied(0, 1, packet)];
    assert |s.queue + Vacancies<P>(2, 1003) + [Occupied(0, 1003, packet)]| == MAX_ENTRIES + 3;
  }

  // ---------- pop takes the least packet of the map ----------

  /** The packet with this number is stored, and its time has come. */
  ghost predicate DueAt<P>(s: State<P>, n: nat, max: nat) {
    Lookup(s, n).Some? && Lookup(s, n).value.0 <= max
  }

  ghost predicate NotDueAt<P>(s: State<P>, n: nat, max: nat) {
    Lookup(s, n).Some? && Lookup(s, n).value.0 > max
  }

  /** The entry at index i is the packet with number Front + i. */
  lemma EntryAt<P>(s: State<P>, i: nat)
    requires Valid(s) && i < |s.queue|
    ensures s.queue[i].number == Front(s) + i
    ensures Lookup(s, Front(s) + i) == match s.queue[i]
                                       case Vacant(_) => None
                                       case Occupied(timestamp, _, packet) => Some((timestamp, packet))
  {
  }

  /** The earliest packet that is stored. */
  ghost predicate Earliest<P>(s: State<P>, n: nat) {
    Lookup(s, n).Some? && forall k: nat :: k < n ==> Lookup(s, k).None?
  }

  lemma FirstOccupiedIsEarliest<P>(s: State<P>, i: nat)
    requires Valid(s) && i == FirstOccupied(s.queue, 0) < |s.queue|
    ensures Earliest(s, Front(s) + i)
  {
    hide Numbered, FirstOccupied;
    EntryAt(s, i);
    forall k: nat | k < Front(s) + i
      ensures Lookup(s, k).None?
    {
      if Front(s) <= k {
        EntryAt(s, k - Front(s));
      }
    }
  }

  /** The source's assertion fails exactly when the earliest packet is not due but a later one is. */
  lemma PopFailsExactly<P>(s: State<P>, max: nat)
    requires Valid(s)
    ensures Pop(s, max).1.AssertionFailed? <==>
              exists n: nat, m: nat :: Earliest(s, n) && NotDueAt(s, n, max) && n < m && DueAt(s, m, max)
  {
    hide Numbered, Earliest, FirstDue, FirstOccupied;
    var due, occupied := FirstDue(s.queue, max, 0), FirstOccupied(s.queue, 0);
    if occupied < due < |s.queue| {
      EntryAt(s, occupied);
      EntryAt(s, due);
      FirstOccupiedIsEarliest(s, occupied);
      assert NotDueAt(s, Front(s) + occupied, max) && DueAt(s, Front(s) + due, max);
    }
    forall n: nat, m: nat | Earliest(s, n) && NotDueAt(s, n, max) && n < m && DueAt(s, m, max)
      ensures occupied < due < |s.queue|
    {
      FailsWhen(s, max, n, m);
    }
  }

  lemma FailsWhen<P>(s: State<P>, max: nat, n: nat, m: nat)
    requires Valid(s) && Earliest(s, n) && NotDueAt(s, n, max) && n < m && DueAt(s, m, max)
    ensures FirstOccupied(s.queue, 0) < FirstDue(s.queue, max, 0) < |s.queue|
  {
    hide Numbered, FirstDue, FirstOccupied;
    var due, occupied := FirstDue(s.queue, max, 0), FirstOccupied(s.queue, 0);
    EntryAt(s, n - Front(s));
    EntryAt(s, m - Front(s));
    assert due < |s.queue| && occupied < |s.queue|;
    FirstOccupiedIsEarliest(s, occupied);
    EntryAt(s, occupied);
    assert occupied == n - Front(s);
    EntryAt(s, due);
    assert forall k :: 0 <= k < occupied ==> s.queue[k].Vacant?;
  }

  /** What a pop does when the assertion holds. */
  lemma PopRefines<P>(s: State<P>, max: nat)
    requires Valid(s) && !Pop(s, max).1.AssertionFailed?
    ensures var (t, r) := Pop(s, max);
            && Valid(t)
            && (r.Nothing? ==> t == s && forall n: nat :: !DueAt(s, n, max))
            && (r.Packet? ==> s.queue != [] && t.last.Some? && Takes(s, t, max, t.last.value, r.packet))
  {
    hide Numbered;
    var due := FirstDue(s.queue, max, 0);
    if due == |s.queue| {
      forall n: nat
        ensures !DueAt(s, n, max)
      {
        if Lookup(s, n).Some? {
          EntryAt(s, n - Front(s));
        }
      }
    } else {
      PopRest(s, due);
      EntryAt(s, due);
      forall n: nat | n < Front(s) + due
        ensures Lookup(s, n).None?
      {
        if Front(s) <= n {
          EntryAt(s, n - Front(s));
        }
      }
    }
  }

  /**
   Number n, the least one stored, is due, and is taken out with its packet; all numbers up to it are
   gone, those after it stay, and the numbers skipped before it count as lost.
   */
  ghost predicate Takes<P>(s: State<P>, t: State<P>, max: nat, n: nat, packet: P)
    requires s.queue != []
  {
    && Front(s) <= n && DueAt(s, n, max) && Lookup(s, n).value.1 == packet
    && (forall k: nat :: k < n ==> Lookup(s, k).None?)
    && (forall k: nat :: Lookup(t, k) == if k <= n then None else Lookup(s, k))
    && t.lost == s.lost + (n - Front(s)) && t.dropped == s.dropped
  }

  /** The queue behind an index. */
  lemma PopRest<P>(s: State<P>, i: nat)
    requires Valid(s) && i < |s.queue|
    ensures var t := State(s.queue[i + 1..], Some(s.queue[i].number), s.dropped, s.lost + i);
            && Valid(t) && s.queue[i].number == Front(s) + i
            && forall k: nat :: Lookup(t, k) == if k <= Front(s) + i then None else Lookup(s, k)
  {
    var q := s.queue[i + 1..];
    if q != [] {
      assert q[0] == s.queue[i + 1];
      assert Numbered(q, Front(s) + i + 1);
    }
  }

  // ---------- runs ----------

  datatype Op<+P> = PushOp(timestamp: nat, number: nat, packet: P) | PopOp(max: nat)

  /** The buffer, the numbers delivered so far, and whether an assertion has failed. */
  datatype Trace<+P> = Trace(state: State<P>, delivered: seq<nat>, failed: bool)

  function Step<P>(t: Trace<P>, op: Op<P>): (r: Trace<P>) {
    match op
    case PushOp(timestamp, number, packet) => t.(state := Push(t.state, timestamp, number, packet))
    case PopOp(max) =>
      var (s, r) := Pop(t.state, max);
      match r
      case Nothing => t
      case AssertionFailed => t.(state := s, failed := true)
      case Packet(_) => t.(state := s, delivered := t.delivered + [s.last.GetOr(0)])
  }

  /** The first n operations on an empty buffer. */
  function Run<P>(ops: seq<Op<P>>, n: nat): (r: Trace<P>)
    requires n <= |ops|
  {
    if n == 0 then Trace(State([], None, 0, 0), [], false) else Step(Run(ops, n - 1), ops[n - 1])
  }

  /** Timestamps do not decrease with the sequence number. */
  ghost predicate InOrder<P>(ops: seq<Op<P>>) {
    forall i, j :: 0 <= i < |ops| && 0 <= j < |ops| && ops[i].PushOp? && ops[j].PushOp? && ops[i].number <= ops[j].number ==>
      ops[i].timestamp <= ops[j].timestamp
  }

  /** The packet was pushed among the first n operations. */
  ghost predicate WasPushed<P>(ops: seq<Op<P>>, n: nat, number: nat, timestamp: nat, packet: P)
    requires n <= |ops|
  {
    exists i :: 0 <= i < n && ops[i] == PushOp(timestamp, number, packet)
  }

  ghost predicate StrictlyIncreasing(s: seq<nat>) {
    forall i, j :: 0 <= i < j < |s| ==> s[i] < s[j]
  }

  ghost predicate Inv<P>(ops: seq<Op<P>>, n: nat, t: Trace<P>)
    requires n <= |ops|
  {
    && Valid(t.state) && !t.failed && StrictlyIncreasing(t.delivered)
    && t.state.last == (if t.delivered == [] then None else Some(t.delivered[|t.delivered| - 1]))
    && forall k: nat :: Lookup(t.state, k).Some? ==>
         WasPushed(ops, n, k, Lookup(t.state, k).value.0, Lookup(t.state, k).value.1)
  }

  /** Packets that were pushed in order are stored in order, so that no assertion fails. */
  lemma PushedInOrder<P>(ops: seq<Op<P>>, n: nat, t: Trace<P>, max: nat)
    requires n <= |ops| && InOrder(ops) && Inv(ops, n, t)
    ensures !Pop(t.state, max).1.AssertionFailed?
  {
    hide Valid;
    PopFailsExactly(t.state, max) by {
      assert Valid(t.state);
    }
  }

  lemma PushKeeps<P>(ops: seq<Op<P>>, n: nat, t: Trace<P>, timestamp: nat, number: nat, packet: P)
    requires n < |ops| && Inv(ops, n, t) && ops[n] == PushOp(timestamp, number, packet)
    ensures Inv(ops, n + 1, t.(state := Push(t.state, timestamp, number, packet)))
  {
    hide Push, Valid;
    var u := Push(t.state, timestamp, number, packet);
    PushRefines(t.state, timestamp, number, packet);
    assert forall k: nat :: Lookup(u, k).Some? ==>
      Lookup(u, k) == Lookup(t.state, k) || (k == number && Lookup(u, k) == Some((timestamp, packet)));
  }

  lemma PopKeeps<P>(ops: seq<Op<P>>, n: nat, t: Trace<P>, max: nat)
    requires n < |ops| && InOrder(ops) && Inv(ops, n, t) && ops[n] == PopOp(max)
    ensures Inv(ops, n + 1, Step(t, PopOp(max)))
  {
    hide Pop;
    PushedInOrder(ops, n, t, max);
    PopRefines(t.state, max);
  }

  /**
   Over every run in which timestamps do not decrease with the sequence number, no assertion fails, the
   numbers delivered strictly increase, and the buffer holds nothing but pushed packets.
   */
  lemma {:induction false} DeliveryIsOrdered<P>(ops: seq<Op<P>>, n: nat)
    requires n <= |ops| && InOrder(ops)
    ensures Inv(ops, n, Run(ops, n))
  {
    hide Inv, InOrder, Push, Pop;
    if n == 0 {
      EmptyIsValid(ops);
    } else {
      DeliveryIsOrdered(ops, n - 1);
      var t := Run(ops, n - 1);
      match ops[n - 1] {
        case PushOp(timestamp, number, packet) => PushKeeps(ops, n - 1, t, timestamp, number, packet);
        case PopOp(max) => PopKeeps(ops, n - 1, t, max);
      }
    }
  }

  lemma EmptyIsValid<P>(ops: seq<Op<P>>)
    ensures Inv(ops, 0, Trace(State([], None, 0, 0), [], false))
  {
  }

  /** No number is counted twice: delivered and lost numbers together fit below the next number. */
  lemma {:induction false} LossesAreBounded<P>(ops: seq<Op<P>>, n: nat)
    requires n <= |ops| && InOrder(ops)
    ensures var t := Run(ops, n);
            |t.delivered| + t.state.lost <= if t.state.last.None? then 0 else t.state.last.value + 1
  {
    if n > 0 {
      var t := Run(ops, n - 1);
      LossesAreBounded(ops, n - 1);
      DeliveryIsOrdered(ops, n - 1);
      LossesStep(ops, n - 1, t);
    }
  }

  lemma LossesStep<P>(ops: seq<Op<P>>, n: nat, t: Trace<P>)
    requires n < |ops| && InOrder(ops) && Inv(ops, n, t)
    requires |t.delivered| + t.state.lost <= if t.state.last.None? then 0 else t.state.last.value + 1
    ensures var u := Step(t, ops[n]);
            |u.delivered| + u.state.lost <= if u.state.last.None? then 0 else u.state.last.value + 1
  {
    match ops[n] {
      case PushOp(timestamp, number, packet) =>
        PushCounts(t.state, timestamp, number, packet);
      case PopOp(max) =>
        PushedInOrder(ops, n, t, max);
        if Pop(t.state, max).1.Packet? {
          PopCounts(t.state, max);
        }
    }
  }

  lemma PushCounts<P>(s: State<P>, timestamp: nat, number: nat, packet: P)
    ensures var t := Push(s, timestamp, number, packet); t.last == s.last && t.lost == s.lost
  {
  }

  lemma PopCounts<P>(s: State<P>, max: nat)
    requires Valid(s) && Pop(s, max).1.Packet?
    ensures var t := Pop(s, max).0;
            && s.queue != [] && t.last.Some? && t.last.value == Front(s) + (t.lost - s.lost)
            && (s.last.Some? ==> s.last.value < Front(s))
  {
    EntryAt(s, FirstDue(s.queue, max, 0));
  }

  /** Timestamps that go back make the assertion fail. */
  lemma OutOfOrderFails(packet: int)
    ensures Run([PushOp(200, 1, packet), PushOp(100, 2, packet), PopOp(150)], 3).failed
  {
    var ops := [PushOp(200, 1, packet), PushOp(100, 2, packet), PopOp(150)];
    var s := Run(ops, 2).state;
    assert Run(ops, 1).state.queue == [Occupied(200, 1, packet)];
    assert Vacancies<int>(2, 2) == [];
    assert s.queue == [Occupied(200, 1, packet), Occupied(100, 2, packet)];
    assert FirstDue(s.queue, 150, 0) == FirstDue(s.queue, 150, 1) == 1;
    assert FirstOccupied(s.queue, 0) == 0;
  }
}
