/** The priority of a candidate pair, RFC 8445 section 6.1.2.3. */
module IcePriority {

  const TWO_31: nat := 0x8000_0000
  const TWO_32: nat := 0x1_0000_0000
  const TWO_63: nat := 0x8000_0000_0000_0000
  const TWO_64: nat := 0x1_0000_0000_0000_0000

  function Min(a: int, b: int): (r: int) {
    if a <= b then a else b
  }

  function Max(a: int, b: int): (r: int) {
    if a <= b then b else a
  }

  /** g is the priority of the controlling agent's candidate, d that of the controlled one's. */
  function Weight(g: nat, d: nat): (r: nat) {
    TWO_32 * Min(g, d) + 2 * Max(g, d) + if g > d then 1 else 0
  }

  function PairPriority(local: nat, remote: nat, controlling: bool): (r: nat) {
    if controlling then Weight(local, remote) else Weight(remote, local)
  }

  /** Both agents, in opposite roles, give a pair the same priority. */
  lemma PeersAgree(mine: nat, theirs: nat, controlling: bool)
    ensures PairPriority(mine, theirs, controlling) == PairPriority(theirs, mine, !controlling)
  {
  }

  /** For two 32-bit priorities the result fits into 64 bits unless both are the largest there is. */
  lemma FitsExactly(g: nat, d: nat)
    requires g < TWO_32 && d < TWO_32
    ensures Weight(g, d) < TWO_64 <==> !(g == TWO_32 - 1 && d == TWO_32 - 1)
    ensures g < TWO_31 && d < TWO_31 ==> Weight(g, d) < TWO_63
  {
  }

  /** The order that the formula encodes: first the smaller priority, then the larger, then who has it. */
  predicate Before(g: nat, d: nat, g': nat, d': nat) {
    || Min(g, d) < Min(g', d')
    || (Min(g, d) == Min(g', d') && (|| Max(g, d) < Max(g', d')
                                     || (Max(g, d) == Max(g', d') && g <= d && g' > d')))
  }

  /** The order of pairs is lexicographic, and different pairs have different priorities. */
  lemma IsLexicographic(g: nat, d: nat, g': nat, d': nat)
    requires g < TWO_31 && d < TWO_31 && g' < TWO_31 && d' < TWO_31
    ensures Weight(g, d) < Weight(g', d') <==> Before(g, d, g', d')
    ensures Weight(g, d) == Weight(g', d') <==> g == g' && d == d'
  {
  }

  /** What the formula adds to the smaller priority: more than 32 bits, if the larger one has 32. */
  function Low(g: nat, d: nat): (r: nat) {
    2 * Max(g, d) + if g > d then 1 else 0
  }

  /** The smaller priority is the next one, and what the first pair adds to its own makes up for that. */
  predicate RunsOver(g: nat, d: nat, g': nat, d': nat) {
    Min(g', d') == Min(g, d) + 1 && Low(g, d) >= TWO_32 + Low(g', d')
  }

  /** For 32-bit priorities the order of two pairs is the one encoded exactly if neither runs over into the other. */
  lemma OrderIsKeptExactly(g: nat, d: nat, g': nat, d': nat)
    requires g < TWO_32 && d < TWO_32 && g' < TWO_32 && d' < TWO_32
    ensures (Weight(g, d) < Weight(g', d') <==> Before(g, d, g', d')) && (Weight(g', d') < Weight(g, d) <==> Before(g', d', g, d))
            <==> !RunsOver(g, d, g', d') && !RunsOver(g', d', g, d)
  {
    if Before(g, d, g', d') {
      RunsOverExactly(g, d, g', d');
    } else if Before(g', d', g, d) {
      RunsOverExactly(g', d', g, d);
    } else {
      assert Min(g, d) == Min(g', d') && Low(g, d) == Low(g', d');
    }
  }

  lemma RunsOverExactly(g: nat, d: nat, g': nat, d': nat)
    requires g < TWO_32 && d < TWO_32 && g' < TWO_32 && d' < TWO_32 && Before(g, d, g', d')
    ensures Weight(g, d) < Weight(g', d') <==> !RunsOver(g, d, g', d')
  {
  }

  /** Above 31 bits that happens. */
  lemma OverflowsAbove31Bits()
    ensures Before(0, TWO_31 + 2, 1, 1) && RunsOver(0, TWO_31 + 2, 1, 1) && Weight(0, TWO_31 + 2) > Weight(1, 1)
  {
  }
}
