/**
 The checklist of an ICE agent: how candidate pairs are formed, ordered, pruned and re-prioritised, and the
 invariant that each of these steps keeps.

 The unstable sort of the standard library is an arbitrary function that sorts by priority.
 */
module IceChecklist {

  import opened IcePriority
  import opened Wrappers
  import StunTimer

  datatype Component = Rtp | Rtcp

  datatype Kind = Host | PeerReflexive | ServerReflexive

  datatype Ip = Ip(v6: bool, linkLocal: bool, bits: nat)

  datatype Addr = Addr(ip: Ip, port: nat)

  datatype Candidate = Candidate(addr: Addr, kind: Kind, priority: nat, component: Component, base: Addr)

  /** What a connectivity check says. */
  datatype Request = Request(tid: nat, priority: nat, controlling: bool, tie: nat, useCandidate: bool)

  datatype Check = Check(request: Request, timer: StunTimer.Active, source: Ip, target: Addr)

  datatype PairState = Waiting | InProgress(check: Check) | Succeeded | Failed

  datatype Pair = Pair(local: nat, remote: nat, priority: nat, state: PairState, component: Component,
                       receivedUse: bool, nominated: bool)

  /** The candidates that ids refer to, and the role, on which priorities depend. A removed candidate leaves None. */
  datatype Table = Table(locals: seq<Option<Candidate>>, remotes: seq<Candidate>, controlling: bool) {
    predicate Live(l: nat, r: nat) {
      l < |locals| && locals[l].Some? && r < |remotes|
    }

    function PriorityOf(l: nat, r: nat): (result: nat)
      requires Live(l, r)
    {
      PairPriority(locals[l].value.priority, remotes[r].priority, controlling)
    }
  }

  type Sort = seq<Pair> -> seq<Pair>

  // ---------- the invariant ----------

  predicate SameIds(p: Pair, q: Pair) {
    p.local == q.local && p.remote == q.remote
  }

  /** Two entries of one checklist: different pairs, and not both nominated for the same component. */
  predicate Apart(p: Pair, q: Pair) {
    !SameIds(p, q) && !(p.nominated && q.nominated && p.component == q.component)
  }

  /** The entry names live candidates, and has their component and their priority under the present role. */
  predicate Fits(t: Table, p: Pair) {
    && t.Live(p.local, p.remote)
    && p.component == t.locals[p.local].value.component
    && p.priority == t.PriorityOf(p.local, p.remote)
  }

  ghost predicate AllFit(t: Table, ps: seq<Pair>) {
    forall i :: 0 <= i < |ps| ==> Fits(t, ps[i])
  }

  ghost predicate AllApart(ps: seq<Pair>) {
    forall i, j :: 0 <= i < j < |ps| ==> Apart(ps[i], ps[j])
  }

  ghost predicate Ascending(ps: seq<Pair>) {
    forall i, j :: 0 <= i < j < |ps| ==> ps[i].priority <= ps[j].priority
  }

  ghost predicate Entries(t: Table, ps: seq<Pair>) {
    AllFit(t, ps) && AllApart(ps)
  }

  ghost predicate Checklist(t: Table, ps: seq<Pair>) {
    Entries(t, ps) && Ascending(ps)
  }

  // ---------- sorting ----------

  ghost predicate SortsByPriority(sort: Sort) {
    forall ps: seq<Pair> :: Ascending(sort(ps)) && multiset(sort(ps)) == multiset(ps)
  }

  lemma {:induction false} TwiceMeansTwoIndices(ps: seq<Pair>, p: Pair) returns (i: nat, j: nat)
    requires multiset(ps)[p] >= 2
    ensures i < j < |ps| && ps[i] == p && ps[j] == p
  {
    var n := |ps| - 1;
    assert ps == ps[..n] + [ps[n]];
    if ps[n] == p {
      j := n;
      assert p in multiset(ps[..n]);
      i :| 0 <= i < n && ps[i] == p;
    } else {
      i, j := TwiceMeansTwoIndices(ps[..n], p);
    }
  }

  lemma TwoIndicesMeanTwice(ps: seq<Pair>, i: nat, j: nat)
    requires i < j < |ps| && ps[i] == ps[j]
    ensures multiset(ps)[ps[i]] >= 2
  {
    var a, b := ps[..j], ps[j..];
    assert ps == a + b;
    assert a[i] == ps[i] && b[0] == ps[j];
    assert ps[i] in multiset(a) && ps[i] in multiset(b);
  }

  /** Whatever holds between any two entries still does in any other order. */
  lemma ReorderingKeepsApart(ps: seq<Pair>, qs: seq<Pair>)
    requires multiset(ps) == multiset(qs) && AllApart(ps)
    ensures AllApart(qs)
  {
    forall i, j | 0 <= i < j < |qs|
      ensures Apart(qs[i], qs[j])
    {
      assert qs[i] in multiset(ps) && qs[j] in multiset(ps);
      if qs[i] == qs[j] {
        TwoIndicesMeanTwice(qs, i, j);
        var a, b := TwiceMeansTwoIndices(ps, qs[i]);
        assert Apart(ps[a], ps[b]);
      } else {
        var a :| 0 <= a < |ps| && ps[a] == qs[i];
        var b :| 0 <= b < |ps| && ps[b] == qs[j];
        assert a < b ==> Apart(ps[a], ps[b]);
        assert b < a ==> Apart(ps[b], ps[a]);
      }
    }
  }

  lemma ReorderingKeepsFit(t: Table, ps: seq<Pair>, qs: seq<Pair>)
    requires multiset(ps) == multiset(qs) && AllFit(t, ps)
    ensures AllFit(t, qs)
  {
    forall i | 0 <= i < |qs|
      ensures Fits(t, qs[i])
    {
      assert qs[i] in multiset(ps);
    }
  }

  /** Sorting makes a checklist of its entries: the same pairs, in ascending order of priority. */
  lemma SortKeeps(t: Table, sort: Sort, ps: seq<Pair>)
    requires SortsByPriority(sort) && Entries(t, ps)
    ensures Checklist(t, sort(ps)) && multiset(sort(ps)) == multiset(ps)
  {
    ReorderingKeepsApart(ps, sort(ps));
    ReorderingKeepsFit(t, ps, sort(ps));
  }

  // ---------- forming pairs ----------

  predicate HasPair(ps: seq<Pair>, l: nat, r: nat) {
    exists i :: 0 <= i < |ps| && ps[i].local == l && ps[i].remote == r
  }

  function NewPair(t: Table, l: nat, r: nat): (result: Pair)
    requires t.Live(l, r)
  {
    Pair(l, r, t.PriorityOf(l, r), Waiting, t.locals[l].value.component, false, false)
  }

  function AddPair(t: Table, sort: Sort, ps: seq<Pair>, l: nat, r: nat): (result: seq<Pair>)
    requires t.Live(l, r)
  {
    if HasPair(ps, l, r) then ps else sort(ps + [NewPair(t, l, r)])
  }

  /** Candidates that are paired: the same component, IP version and link locality, and no peer-reflexive remote. */
  predicate Eligible(local: Candidate, remote: Candidate) {
    && !remote.kind.PeerReflexive? && local.component == remote.component
    && local.addr.ip.v6 == remote.addr.ip.v6 && local.addr.ip.linkLocal == remote.addr.ip.linkLocal
  }

  predicate Pairable(t: Table, l: nat, r: nat) {
    t.Live(l, r) && Eligible(t.locals[l].value, t.remotes[r])
  }

  /** The pairs after local candidate l has met the first n remote ones. */
  function FormRow(t: Table, sort: Sort, ps: seq<Pair>, l: nat, n: nat): (r: seq<Pair>) {
    if n == 0 then ps
    else
      var qs := FormRow(t, sort, ps, l, n - 1);
      if Pairable(t, l, n - 1) then AddPair(t, sort, qs, l, n - 1) else qs
  }

  /** The pairs after the first n local candidates have met all remote ones. */
  function FormRows(t: Table, sort: Sort, ps: seq<Pair>, n: nat): (r: seq<Pair>) {
    if n == 0 then ps else FormRow(t, sort, FormRows(t, sort, ps, n - 1), n - 1, |t.remotes|)
  }

  /** Pairs are popped off the end, where the highest priorities are. */
  function Prune(ps: seq<Pair>, max: nat): (r: seq<Pair>) {
    if |ps| > max then ps[..max] else ps
  }

  function FormPairs(t: Table, sort: Sort, ps: seq<Pair>, max: nat): (r: seq<Pair>) {
    Prune(sort(FormRows(t, sort, ps, |t.locals|)), max)
  }

  /** All pairs of ps are still there, as they were. */
  ghost predicate Keeps(ps: seq<Pair>, qs: seq<Pair>) {
    forall p :: p in ps ==> p in qs
  }

  /** A pair that was not there before is fresh: waiting, and not nominated. */
  ghost predicate OthersAreNew(t: Table, ps: seq<Pair>, qs: seq<Pair>) {
    forall q :: q in qs && q !in ps ==> Pairable(t, q.local, q.remote) && q == NewPair(t, q.local, q.remote)
  }

  ghost predicate Grows(t: Table, ps: seq<Pair>, qs: seq<Pair>) {
    Entries(t, qs) && Keeps(ps, qs) && OthersAreNew(t, ps, qs)
  }

  lemma SortedMembers(sort: Sort, ps: seq<Pair>, p: Pair)
    requires SortsByPriority(sort)
    ensures p in sort(ps) <==> p in ps
  {
    assert p in sort(ps) <==> p in multiset(sort(ps));
  }

  /** Adding a pair keeps the entries and has the pair, fresh if it was not there. */
  lemma AddPairKeeps(t: Table, sort: Sort, ps: seq<Pair>, l: nat, r: nat)
    requires SortsByPriority(sort) && Entries(t, ps) && t.Live(l, r)
    ensures var qs := AddPair(t, sort, ps, l, r);
            && Entries(t, qs) && HasPair(qs, l, r) && (HasPair(ps, l, r) ==> qs == ps)
            && (!HasPair(ps, l, r) ==> Ascending(qs) && forall p :: p in qs <==> p in ps || p == NewPair(t, l, r))
  {
    if !HasPair(ps, l, r) {
      var n := NewPair(t, l, r);
      var more := ps + [n];
      assert Entries(t, more);
      SortKeeps(t, sort, more);
      forall p
        ensures p in sort(more) <==> p in ps || p == n
      {
        SortedMembers(sort, more, p);
      }
      assert n in sort(more);
    }
  }

  lemma KeepsHasPair(ps: seq<Pair>, qs: seq<Pair>, l: nat, r: nat)
    requires Keeps(ps, qs) && HasPair(ps, l, r)
    ensures HasPair(qs, l, r)
  {
    var i :| 0 <= i < |ps| && ps[i].local == l && ps[i].remote == r;
    assert ps[i] in qs;
  }

  lemma KeepsItself(ps: seq<Pair>)
    ensures Keeps(ps, ps)
  {
  }

  lemma AddPairGrows(t: Table, sort: Sort, ps: seq<Pair>, qs: seq<Pair>, l: nat, r: nat)
    requires SortsByPriority(sort) && Grows(t, ps, qs) && Pairable(t, l, r)
    ensures var more := AddPair(t, sort, qs, l, r);
            Grows(t, ps, more) && Keeps(qs, more) && HasPair(more, l, r)
  {
    hide SortsByPriority, AllFit, AllApart, HasPair;
    AddPairKeeps(t, sort, qs, l, r);
  }

  lemma {:induction false} FormRowKeeps(t: Table, sort: Sort, ps: seq<Pair>, l: nat, n: nat)
    requires SortsByPriority(sort) && Entries(t, ps) && n <= |t.remotes|
    ensures Grows(t, ps, FormRow(t, sort, ps, l, n))
    ensures forall r: nat :: r < n && Pairable(t, l, r) ==> HasPair(FormRow(t, sort, ps, l, n), l, r)
  {
    hide SortsByPriority, AllFit, AllApart, HasPair, Eligible, AddPair, Keeps;
    if n == 0 {
      KeepsItself(ps);
    } else {
      FormRowKeeps(t, sort, ps, l, n - 1);
      var qs := FormRow(t, sort, ps, l, n - 1);
      if Pairable(t, l, n - 1) {
        AddPairGrows(t, sort, ps, qs, l, n - 1);
        forall r: nat | r < n && Pairable(t, l, r)
          ensures HasPair(AddPair(t, sort, qs, l, n - 1), l, r)
        {
          if r < n - 1 {
            KeepsHasPair(qs, AddPair(t, sort, qs, l, n - 1), l, r);
          }
        }
      }
    }
  }

  lemma {:induction false} FormRowsKeep(t: Table, sort: Sort, ps: seq<Pair>, n: nat)
    requires SortsByPriority(sort) && Entries(t, ps) && n <= |t.locals|
    ensures Grows(t, ps, FormRows(t, sort, ps, n))
    ensures forall l: nat, r: nat :: l < n && Pairable(t, l, r) ==> HasPair(FormRows(t, sort, ps, n), l, r)
  {
    if n > 0 {
      FormRowsKeep(t, sort, ps, n - 1);
      var qs := FormRows(t, sort, ps, n - 1);
      FormRowKeeps(t, sort, qs, n - 1, |t.remotes|);
      var more := FormRow(t, sort, qs, n - 1, |t.remotes|);
      forall l: nat, r: nat | l < n && Pairable(t, l, r)
        ensures HasPair(more, l, r)
      {
        if l < n - 1 {
          KeepsHasPair(qs, more, l, r);
        }
      }
    }
  }

  /**
   Forming pairs keeps the checklist. It has the old pairs, and one for any two eligible candidates, unless
   there are more than the limit: then those that go have the highest priorities.
   */
  lemma FormPairsKeeps(t: Table, sort: Sort, ps: seq<Pair>, max: nat)
    requires SortsByPriority(sort) && Entries(t, ps)
    ensures var all, qs := sort(FormRows(t, sort, ps, |t.locals|)), FormPairs(t, sort, ps, max);
            && Checklist(t, qs) && |qs| <= max && qs <= all && OthersAreNew(t, ps, qs)
            && (|all| <= max ==> Keeps(ps, qs) && forall l: nat, r: nat :: Pairable(t, l, r) ==> HasPair(qs, l, r))
            && (forall i, j :: 0 <= i < |qs| <= j < |all| ==> all[i].priority <= all[j].priority)
  {
    var some := FormRows(t, sort, ps, |t.locals|);
    FormRowsKeep(t, sort, ps, |t.locals|);
    SortKeeps(t, sort, some);
    forall p
      ensures p in sort(some) <==> p in some
    {
      SortedMembers(sort, some, p);
    }
    assert Keeps(some, sort(some)) && Keeps(ps, sort(some));
    if |sort(some)| <= max {
      forall l: nat, r: nat | Pairable(t, l, r)
        ensures HasPair(sort(some), l, r)
      {
        KeepsHasPair(some, sort(some), l, r);
      }
    }
  }

  // ---------- recomputing priorities ----------

  function Recomputed(t: Table, ps: seq<Pair>): (r: seq<Pair>)
    requires forall i :: 0 <= i < |ps| ==> t.Live(ps[i].local, ps[i].remote)
    ensures |r| == |ps|
    ensures forall i :: 0 <= i < |ps| ==> r[i] == ps[i].(priority := t.PriorityOf(ps[i].local, ps[i].remote))
  {
    seq(|ps|, i requires 0 <= i < |ps| => ps[i].(priority := t.PriorityOf(ps[i].local, ps[i].remote)))
  }

  /** After a change of role the same pairs make a checklist under the new priorities. */
  lemma RecomputeKeeps(t: Table, sort: Sort, ps: seq<Pair>, controlling: bool)
    requires SortsByPriority(sort) && Entries(t, ps)
    ensures var u := t.(controlling := controlling);
            && (forall i :: 0 <= i < |ps| ==> u.Live(ps[i].local, ps[i].remote))
            && Checklist(u, sort(Recomputed(u, ps))) && multiset(sort(Recomputed(u, ps))) == multiset(Recomputed(u, ps))
  {
    var u := t.(controlling := controlling);
    assert forall i :: 0 <= i < |ps| ==> Fits(t, ps[i]);
    var qs := Recomputed(u, ps);
    assert AllFit(u, qs);
    assert AllApart(qs) by {
      forall i, j | 0 <= i < j < |qs|
        ensures Apart(qs[i], qs[j])
      {
        assert Apart(ps[i], ps[j]);
      }
    }
    SortKeeps(u, sort, qs);
  }

  /** Two pairs that both agents have: in opposite roles both rank them alike. */
  lemma PeersRankAlike(mine: Table, theirs: Table, l: nat, r: nat, l': nat, r': nat, m: nat, s: nat, m': nat, s': nat)
    requires mine.Live(l, r) && mine.Live(l', r') && theirs.Live(m, s) && theirs.Live(m', s')
    requires mine.controlling != theirs.controlling
    requires mine.locals[l].value.priority == theirs.remotes[s].priority
    requires mine.remotes[r].priority == theirs.locals[m].value.priority
    requires mine.locals[l'].value.priority == theirs.remotes[s'].priority
    requires mine.remotes[r'].priority == theirs.locals[m'].value.priority
    ensures mine.PriorityOf(l, r) < mine.PriorityOf(l', r') <==> theirs.PriorityOf(m, s) < theirs.PriorityOf(m', s')
  {
  }

  // ---------- changing one pair ----------

  /** A pair changes its state, and is nominated only if no other pair of its component is. */
  lemma UpdateKeeps(t: Table, ps: seq<Pair>, i: nat, p: Pair)
    requires Checklist(t, ps) && i < |ps|
    requires SameIds(p, ps[i]) && p.component == ps[i].component && p.priority == ps[i].priority
    requires p.nominated ==> ps[i].nominated || forall j :: 0 <= j < |ps| ==> !(ps[j].nominated && ps[j].component == p.component)
    ensures Checklist(t, ps[i := p])
  {
    var qs := ps[i := p];
    forall j, k | 0 <= j < k < |qs|
      ensures Apart(qs[j], qs[k])
    {
      assert Apart(ps[j], ps[k]);
    }
    forall j | 0 <= j < |qs|
      ensures Fits(t, qs[j])
    {
      assert Fits(t, ps[j]);
    }
  }
}
