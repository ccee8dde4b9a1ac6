/**
 Splitting a SIP message head into lines (RFC 3261, section 7.3.1) while it is still arriving: a
 resumable scanner with line folding and up to three bytes of lookahead.
 */
module SipFraming {
  import opened Bytes

  const LF: Byte := 10

  const CR: Byte := 13

  predicate IsNewline(c: Byte) {
    c == LF || c == CR
  }

  predicate IsBlank(c: Byte) {
    c == 32 || c == 9
  }

  /** A newline followed by white space does not end a line. */
  predicate IsFold(b: Bytes, i: nat)
    requires i < |b|
  {
    || (b[i] == LF && i + 1 < |b| && IsBlank(b[i + 1]))
    || (b[i] == CR && i + 2 < |b| && b[i + 1] == LF && IsBlank(b[i + 2]))
  }

  /** One step of the parser: more input needed, an empty line, or a line and where the next one begins. */
  datatype Step = Incomplete | HeadEnds | Line(end: nat, next: nat)

  /** The decision at a newline that is no fold. */
  function AtNewline(b: Bytes, begin: nat, i: nat): (r: Step)
    requires begin <= i < |b|
  {
    if b[i] == LF && i + 1 < |b| then
      if i == begin then HeadEnds else Line(i, if b[i + 1] == LF then i else i + 1)
    else if b[i] == CR && i + 3 < |b| && b[i + 1] == LF then
      if i == begin then HeadEnds else Line(i, if b[i + 2] == CR && b[i + 3] == LF then i else i + 2)
    else Incomplete
  }

  /** The line that begins at `begin`, scanned from i on. */
  function Scan(b: Bytes, begin: nat, i: nat): (r: Step)
    requires begin <= i <= |b|
    ensures r.Line? ==> begin < r.end <= r.next <= |b| && i <= r.end
    decreases |b| - i
  {
    if i == |b| then Incomplete
    else if !IsNewline(b[i]) || IsFold(b, i) then Scan(b, begin, i + 1)
    else AtNewline(b, begin, i)
  }

  /** Where the head ends, asked after the parser has finished. */
  function HeadEnd(b: Bytes, progress: nat): (r: nat)
    requires progress <= |b|
    ensures progress <= r <= |b|
  {
    if progress + 4 <= |b| && b[progress..progress + 4] == [CR, LF, CR, LF] then progress + 4
    else if progress + 2 <= |b| && b[progress..progress + 2] == [LF, LF] then progress + 2
    else progress
  }

  /** All lines from a position on, whether the head was complete, and the progress reached. */
  datatype Run = Run(lines: seq<Bytes>, complete: bool, progress: nat)

  function RunFrom(b: Bytes, progress: nat): (r: Run)
    requires progress <= |b|
    ensures progress <= r.progress <= |b|
    decreases |b| - progress
  {
    match Scan(b, progress, progress)
    case Incomplete => Run([], false, progress)
    case HeadEnds => Run([], true, progress)
    case Line(end, next) => Prepend(b[progress..end], RunFrom(b, next))
  }

  function Prepend(line: Bytes, rest: Run): (r: Run) {
    Run([line] + rest.lines, rest.complete, rest.progress)
  }

  function Continue(first: Run, rest: Run): (r: Run) {
    Run(first.lines + rest.lines, rest.complete, rest.progress)
  }

  lemma PrependContinue(line: Bytes, first: Run, rest: Run)
    ensures Prepend(line, Continue(first, rest)) == Continue(Prepend(line, first), rest)
  {
    assert [line] + (first.lines + rest.lines) == [line] + first.lines + rest.lines;
  }

  lemma ContinueNothing(p: nat, complete: bool, rest: Run)
    ensures Continue(Run([], complete, p), rest) == rest
  {
    assert [] + rest.lines == rest.lines;
  }

  // ---------- the parser object ----------

  datatype Next = Finished | Missing | Slice(line: Bytes)

  class PullParser {
    const input: Bytes
    var progress: nat

    constructor (input: Bytes, progress: nat)
      requires progress <= |input|
      ensures this.input == input && this.progress == progress
    {
      this.input := input;
      this.progress := progress;
    }

    /** The first newline byte from position i on. */
    method FindNewline(i: nat) returns (r: int)
      requires i <= |input|
      ensures r == -1 ==> forall k :: i <= k < |input| ==> !IsNewline(input[k])
      ensures r != -1 ==> i <= r < |input| && IsNewline(input[r]) && forall k :: i <= k < r ==> !IsNewline(input[k])
    {
      r := i;
      while r < |input|
        invariant i <= r <= |input|
        invariant forall k :: i <= k < r ==> !IsNewline(input[k])
      {
        if IsNewline(input[r]) {
          return;
        }
        r := r + 1;
      }
      r := -1;
    }

    /** The next line, if it is complete. The progress moves only past complete lines. */
    method Next() returns (r: Next)
      requires progress <= |input|
      modifies this`progress
      ensures progress <= |input|
      ensures match Scan(input, old(progress), old(progress))
              case Incomplete => r == Missing && progress == old(progress)
              case HeadEnds => r == Finished && progress == old(progress)
              case Line(end, next) => r == Slice(input[old(progress)..end]) && progress == next
    {
      var begin := progress;
      var skip := 0;
      while true
        invariant begin + skip <= |input| && progress == begin
        invariant Scan(input, begin, begin) == Scan(input, begin, begin + skip)
        decreases |input| - skip
      {
        var pos := FindNewline(begin + skip);
        SkipToNewline(input, begin, begin + skip, if pos == -1 then |input| else pos);
        if pos == -1 {
          return Missing;
        }
        if IsFold(input, pos) {
          skip := pos - begin + 1;
        } else if input[pos] == LF && pos + 1 < |input| {
          if pos == begin {
            return Finished;
          }
          progress := if input[pos + 1] == LF then pos else pos + 1;
          return Slice(input[begin..pos]);
        } else if input[pos] == CR && pos + 3 < |input| && input[pos + 1] == LF {
          if pos == begin {
            return Finished;
          }
          progress := if input[pos + 2] == CR && input[pos + 3] == LF then pos else pos + 2;
          return Slice(input[begin..pos]);
        } else {
          return Missing;
        }
      }
    }
  }

  lemma {:induction false} SkipToNewline(b: Bytes, begin: nat, i: nat, j: nat)
    requires begin <= i <= j <= |b| && forall k :: i <= k < j ==> !IsNewline(b[k])
    ensures Scan(b, begin, i) == Scan(b, begin, j)
    decreases j - i
  {
    if i < j {
      SkipToNewline(b, begin, i + 1, j);
    }
  }

  // ---------- prefixes and extensions ----------

  /** How many bytes from position i on decide what a newline there means. */
  function Lookahead(b: Bytes, i: nat): (r: nat)
    requires i < |b|
  {
    if b[i] == LF then 2 else 4
  }

  /** The first position past every byte a decided step looked at. */
  function Decided(b: Bytes, begin: nat, s: Step): (r: nat)
    requires begin < |b| && (s.Line? ==> s.end < |b|)
  {
    if s.Line? then s.end + Lookahead(b, s.end) else begin + Lookahead(b, begin)
  }

  lemma {:induction false} ScanDecided(b: Bytes, begin: nat, i: nat)
    requires begin <= i <= |b| && !Scan(b, begin, i).Incomplete?
    ensures begin < |b| && (Scan(b, begin, i).Line? ==> Scan(b, begin, i).end < |b|)
    ensures Decided(b, begin, Scan(b, begin, i)) <= |b| && i < Decided(b, begin, Scan(b, begin, i))
    ensures Scan(b, begin, i).HeadEnds? ==> i == begin && IsNewline(b[begin])
    decreases |b| - i
  {
    if !IsNewline(b[i]) || IsFold(b, i) {
      ScanDecided(b, begin, i + 1);
    }
  }

  /** A decided step stays decided, the same way, when more bytes arrive. */
  lemma {:induction false} ScanExtended(a: Bytes, b: Bytes, begin: nat, i: nat)
    requires a <= b && begin <= i <= |a| && !Scan(a, begin, i).Incomplete?
    ensures Scan(b, begin, i) == Scan(a, begin, i)
    decreases |a| - i
  {
    if !IsNewline(a[i]) || IsFold(a, i) {
      ScanExtended(a, b, begin, i + 1);
    }
  }

  /** A step is decided by every prefix that holds the bytes it looks at. */
  lemma {:induction false} ScanShortened(a: Bytes, b: Bytes, begin: nat, i: nat)
    requires a <= b && begin <= i <= |b| && !Scan(b, begin, i).Incomplete?
    requires begin < |b| && (Scan(b, begin, i).Line? ==> Scan(b, begin, i).end < |b|)
    requires Decided(b, begin, Scan(b, begin, i)) <= |a|
    ensures i <= |a| && Scan(a, begin, i) == Scan(b, begin, i)
    decreases |b| - i
  {
    ScanDecided(b, begin, i);
    if !IsNewline(b[i]) || IsFold(b, i) {
      ScanDecided(b, begin, i + 1);
      ScanShortened(a, b, begin, i + 1);
    }
  }

  // ---------- chunks ----------

  /** An undecided parser stands still until more bytes arrive. */
  lemma {:induction false} RunStops(b: Bytes, p: nat)
    requires p <= |b|
    ensures !RunFrom(b, p).complete ==> RunFrom(b, RunFrom(b, p).progress) == Run([], false, RunFrom(b, p).progress)
    ensures RunFrom(b, p).complete ==> Scan(b, RunFrom(b, p).progress, RunFrom(b, p).progress).HeadEnds?
    decreases |b| - p
  {
    if Scan(b, p, p).Line? {
      RunStops(b, Scan(b, p, p).next);
    }
  }

  /**
   Lines found on a prefix are found again on every extension; what the extension adds is what the
   parser finds from the saved progress on. A complete head stays as it is.
   */
  lemma {:induction false} RunExtended(a: Bytes, b: Bytes, p: nat)
    requires a <= b && p <= |a|
    ensures RunFrom(a, p).complete ==> RunFrom(b, p) == RunFrom(a, p)
    ensures RunFrom(b, p) == Continue(RunFrom(a, p), RunFrom(b, RunFrom(a, p).progress))
    decreases |a| - p
  {
    hide Scan, Continue;
    match Scan(a, p, p) {
      case Incomplete =>
        ContinueNothing(p, false, RunFrom(b, p));
      case HeadEnds =>
        ScanExtended(a, b, p, p);
        ContinueNothing(p, true, RunFrom(b, p));
      case Line(end, next) =>
        ScanExtended(a, b, p, p);
        RunExtended(a, b, next);
        assert a[p..end] == b[p..end];
        PrependContinue(a[p..end], RunFrom(a, next), RunFrom(b, RunFrom(a, p).progress));
    }
  }

  /** The end of a complete head does not depend on the bytes behind it. */
  lemma HeadEndStays(a: Bytes, b: Bytes, p: nat)
    requires a <= b && p <= |a| && Scan(a, p, p).HeadEnds?
    ensures HeadEnd(b, p) == HeadEnd(a, p)
  {
    ScanDecided(a, p, p);
    assert forall k :: p <= k < |a| ==> a[k] == b[k];
    if a[p] == LF {
      assert a[p..p + 2] == b[p..p + 2];
    } else {
      assert a[p..p + 4] == b[p..p + 4];
    }
  }

  function Concat(chunks: seq<Bytes>): (r: Bytes) {
    if chunks == [] then [] else chunks[0] + Concat(chunks[1..])
  }

  /** A caller that appends each chunk to its buffer and parses on from the saved progress. */
  function Feed(buffer: Bytes, progress: nat, chunks: seq<Bytes>): (r: Run)
    requires progress <= |buffer|
    decreases |chunks|
  {
    if chunks == [] then Run([], false, progress)
    else
      var b := buffer + chunks[0];
      var run := RunFrom(b, progress);
      if run.complete then run else Continue(run, Feed(b, run.progress, chunks[1..]))
  }

  /** However the bytes are cut into chunks, the lines and the progress are those of one parse of all bytes. */
  lemma {:induction false} ChunksDoNotMatter(buffer: Bytes, p: nat, chunks: seq<Bytes>)
    requires p <= |buffer| && RunFrom(buffer, p) == Run([], false, p)
    ensures Feed(buffer, p, chunks) == RunFrom(buffer + Concat(chunks), p)
    decreases |chunks|
  {
    var all := buffer + Concat(chunks);
    if chunks == [] {
      assert all == buffer;
    } else {
      var b := buffer + chunks[0];
      assert all == b + Concat(chunks[1..]);
      RunExtended(b, all, p);
      RunStops(b, p);
      if !RunFrom(b, p).complete {
        ChunksDoNotMatter(b, RunFrom(b, p).progress, chunks[1..]);
      }
    }
  }

  // ---------- truncation ----------

  /** The shortest prefix on which a complete head is still seen to be complete. */
  function Needed(b: Bytes, p: nat): (r: nat)
    requires p <= |b| && RunFrom(b, p).complete
    ensures RunFrom(b, p).progress < r <= |b|
  {
    RunStops(b, p);
    var end := RunFrom(b, p).progress;
    ScanDecided(b, end, end);
    end + Lookahead(b, end)
  }

  /** The parser sees a truncated head as complete exactly when the lookahead at its end is still there. */
  lemma RunTruncated(b: Bytes, p: nat, n: nat)
    requires p <= n <= |b| && RunFrom(b, p).complete
    ensures RunFrom(b[..n], p).complete <==> Needed(b, p) <= n
    ensures Needed(b, p) <= n ==> RunFrom(b[..n], p) == RunFrom(b, p)
  {
    var a := b[..n];
    if RunFrom(a, p).complete {
      RunExtended(a, b, p);
      RunStops(a, p);
      var end := RunFrom(a, p).progress;
      ScanDecided(a, end, end);
    }
    if Needed(b, p) <= n {
      RunShortened(a, b, p);
    }
  }

  lemma {:induction false} RunShortened(a: Bytes, b: Bytes, p: nat)
    requires a <= b && p <= |b| && RunFrom(b, p).complete && Needed(b, p) <= |a|
    ensures p <= |a| && RunFrom(a, p) == RunFrom(b, p)
    decreases |b| - p
  {
    ScanDecided(b, p, p);
    if Scan(b, p, p).Line? {
      LineBeforeEnd(b, p);
      ScanShortened(a, b, p, p);
      RunShortened(a, b, Scan(b, p, p).next);
      assert a[p..Scan(b, p, p).end] == b[p..Scan(b, p, p).end];
    } else {
      ScanShortened(a, b, p, p);
    }
  }

  /** The lookahead of a line never reaches past the lookahead at the end of the head. */
  lemma LineBeforeEnd(b: Bytes, p: nat)
    requires p <= |b| && Scan(b, p, p).Line? && RunFrom(b, p).complete
    ensures Scan(b, p, p).end < |b| && Decided(b, p, Scan(b, p, p)) <= Needed(b, p)
  {
    ScanDecided(b, p, p);
    LineFacts(b, p, p);
    var next := Scan(b, p, p).next;
    ScanDecided(b, next, next);
  }

  lemma {:induction false} LineFacts(b: Bytes, begin: nat, i: nat)
    requires begin <= i <= |b| && Scan(b, begin, i).Line?
    ensures var s := Scan(b, begin, i);
            s.end < |b| && IsNewline(b[s.end]) && !IsFold(b, s.end) && s == AtNewline(b, begin, s.end)
    decreases |b| - i
  {
    if !IsNewline(b[i]) || IsFold(b, i) {
      LineFacts(b, begin, i + 1);
    }
  }

  // ---------- where the head ends ----------

  /** The length of a line terminator. */
  function Terminator(b: Bytes, i: nat): (r: nat)
    requires i < |b|
  {
    if b[i] == LF then 1 else 2
  }

  /** The first byte behind the empty line that follows the line ending at e. */
  function BehindEmptyLine(b: Bytes, e: nat): (r: nat)
    requires e < |b| && e + Terminator(b, e) < |b|
  {
    var empty := e + Terminator(b, e);
    empty + Terminator(b, empty)
  }

  /**
   After the last line, the reported end of the head is the end of the empty line exactly when both
   lines end alike, in LF LF or in CR LF CR LF.
   */
  lemma HeadEndExact(b: Bytes, p: nat)
    requires p <= |b| && Scan(b, p, p).Line?
    requires Scan(b, Scan(b, p, p).next, Scan(b, p, p).next).HeadEnds?
    ensures var e := Scan(b, p, p).end;
            && e < |b| && e + Terminator(b, e) < |b|
            && (HeadEnd(b, Scan(b, p, p).next) == BehindEmptyLine(b, e) <==> b[e] == b[e + Terminator(b, e)])
  {
    LineFacts(b, p, p);
    var e, next := Scan(b, p, p).end, Scan(b, p, p).next;
    ScanDecided(b, next, next);
    assert next + 4 <= |b| ==> b[next..next + 4] == [b[next], b[next + 1], b[next + 2], b[next + 3]];
    assert next + 2 <= |b| ==> b[next..next + 2] == [b[next], b[next + 1]];
  }
}
