/**
 SIP messages on a byte stream (RFC 3261, section 18.3): find the end of the head and the content
 length, wait for the whole message, cut it off, and parse it a second time on its own.

 What the standard library and the header parsers decide about single lines are arbitrary functions.
 */
module StreamingDecoder {
  import opened Bytes
  import opened SipFraming
  import opened Wrappers

  const MAX_SIZE: nat := 65535

  const COLON: Byte := 58

  /** The parsers of single lines. */
  datatype LineParsers = LineParsers(
    readNumber: Bytes -> Option<nat>,
    isText: Bytes -> bool,
    isMessageLine: Bytes -> bool)

  // ---------- content length ----------

  function Lower(c: Byte): (r: Byte) {
    if 65 <= c <= 90 then (c as int + 32) as Byte else c
  }

  predicate SameIgnoringCase(a: Bytes, b: Bytes) {
    |a| == |b| && forall i :: 0 <= i < |a| ==> Lower(a[i]) == Lower(b[i])
  }

  /** "content-length" and its short form "l". */
  const LENGTH_NAMES: seq<Bytes> :=
    [[99, 111, 110, 116, 101, 110, 116, 45, 108, 101, 110, 103, 116, 104], [108]]

  function IndexOf(b: Bytes, c: Byte, i: nat): (r: nat)
    requires i <= |b|
    ensures i <= r <= |b| && (r < |b| ==> b[r] == c)
    decreases |b| - i
  {
    if i == |b| || b[i] == c then i else IndexOf(b, c, i + 1)
  }

  datatype Announcement = Length(n: nat) | Bad | Huge

  /** What a line says about the length of the body, if it is the right header. */
  function LineLength(p: LineParsers, line: Bytes): (r: Option<Announcement>) {
    var colon := IndexOf(line, COLON, 0);
    if exists name :: name in LENGTH_NAMES && SameIgnoringCase(line[..colon], name) then
      if colon == |line| then Some(Bad)
      else match p.readNumber(line[colon + 1..])
        case None => Some(Bad)
        case Some(n) => if n > MAX_SIZE then Some(Huge) else Some(Length(n))
    else None
  }

  /** The last length wins; the first line that cannot be read ends the search. */
  function Announced(p: LineParsers, lines: seq<Bytes>, n: nat): (r: Announcement) {
    if lines == [] then Length(n)
    else match LineLength(p, lines[0])
      case None => Announced(p, lines[1..], n)
      case Some(Length(m)) => Announced(p, lines[1..], m)
      case Some(error) => error
  }

  // ---------- decoding as a function ----------

  datatype Outcome =
    | NeedMore
    | KeepAliveRequest
    | KeepAliveResponse
    | Message(lines: seq<Bytes>, body: Bytes, buffer: Bytes)
    | TooLarge
    | Malformed
    | Panicked

  /** The outcome, the bytes left in the stream, and the progress saved for the next call. */
  datatype Decoded = Decoded(outcome: Outcome, rest: Bytes, progress: nat)

  predicate IsWhitespace(c: Byte) {
    c == 9 || c == 10 || c == 12 || c == 13 || c == 32
  }

  function Strip(b: Bytes): (r: Bytes)
    ensures |r| <= |b|
  {
    if b != [] && IsWhitespace(b[0]) then Strip(b[1..]) else b
  }

  predicate LinesAccepted(p: LineParsers, lines: seq<Bytes>) {
    && (forall i :: 0 <= i < |lines| ==> p.isText(lines[i]))
    && (lines != [] ==> p.isMessageLine(lines[0]))
  }

  /** The second pass, over the bytes of one message. */
  function ParseMessage(p: LineParsers, message: Bytes, contentLen: nat): (r: Outcome) {
    var run := RunFrom(message, 0);
    var headEnd := HeadEnd(message, run.progress);
    if !LinesAccepted(p, run.lines) then Malformed
    else if !run.complete then Panicked
    else if headEnd + contentLen > |message| then Panicked
    else if run.lines == [] then Malformed
    else Message(run.lines, message[headEnd..headEnd + contentLen], message)
  }

  /** What the first pass finds in a stream stripped of leading white space. */
  function DecodeStripped(p: LineParsers, progress: nat, s: Bytes): (r: Decoded)
    requires progress <= |s|
  {
    var run := RunFrom(s, progress);
    match Announced(p, run.lines, 0)
    case Bad => Decoded(Malformed, s, progress)
    case Huge => Decoded(TooLarge, s, progress)
    case Length(n) =>
      if !run.complete then Decoded(NeedMore, s, run.progress)
      else
        var size := HeadEnd(s, run.progress) + n;
        if |s| < size then Decoded(NeedMore, s, progress)
        else Decoded(ParseMessage(p, s[..size], n), s[size..], 0)
  }

  /** One call. A saved progress beyond the stream makes the source panic. */
  function DecodeStream(p: LineParsers, progress: nat, src: Bytes): (r: Decoded) {
    var s := Strip(src);
    if |s| < |src| && [CR, LF, CR, LF] <= src then Decoded(KeepAliveRequest, s, progress)
    else if |s| < |src| && [CR, LF] <= src then Decoded(KeepAliveResponse, s, progress)
    else if |s| > MAX_SIZE then Decoded(TooLarge, [], progress)
    else if progress > |s| then Decoded(Panicked, s, progress)
    else DecodeStripped(p, progress, s)
  }

  // ---------- the decoder object ----------

  class StreamingDecoder {
    const parsers: LineParsers
    var headProgress: nat

    constructor (parsers: LineParsers)
      ensures this.parsers == parsers && headProgress == 0
    {
      this.parsers := parsers;
      headProgress := 0;
    }

    /** The two passes with one parser object each; the stream is what the caller has buffered. */
    method Decode(src: Bytes) returns (outcome: Outcome, rest: Bytes)
      modifies this`headProgress
      ensures Decoded(outcome, rest, headProgress) == DecodeStream(parsers, old(headProgress), src)
    {
      rest := Strip(src);
      if |rest| < |src| {
        if [CR, LF, CR, LF] <= src {
          return KeepAliveRequest, rest;
        } else if [CR, LF] <= src {
          return KeepAliveResponse, rest;
        }
      }
      if |rest| > MAX_SIZE {
        return TooLarge, [];
      }
      if headProgress > |rest| {
        return Panicked, rest;
      }
      var complete, progress, length := FirstPass(rest);
      match length {
        case Bad => return Malformed, rest;
        case Huge => return TooLarge, rest;
        case Length(n) =>
          if !complete {
            headProgress := progress;
            return NeedMore, rest;
          }
          var size := HeadEnd(rest, progress) + n;
          if |rest| < size {
            return NeedMore, rest;
          }
          var message := rest[..size];
          rest := rest[size..];
          headProgress := 0;
          outcome := SecondPass(message, n);
      }
    }

    /** Reads lines until the head ends, bytes are missing, or a length cannot be read. */
    method FirstPass(s: Bytes) returns (complete: bool, progress: nat, length: Announcement)
      requires headProgress <= |s|
      ensures var run := RunFrom(s, headProgress);
              length == Announced(parsers, run.lines, 0)
              && (length.Length? ==> complete == run.complete && progress == run.progress)
    {
      var parser := new PullParser(s, headProgress);
      var contentLen: nat := 0;
      complete, progress := false, headProgress;
      while true
        invariant fresh(parser) && parser.input == s && headProgress <= parser.progress <= |s|
        invariant var run := RunFrom(s, headProgress);
                  var later := RunFrom(s, parser.progress);
                  && Announced(parsers, run.lines, 0) == Announced(parsers, later.lines, contentLen)
                  && run.complete == later.complete && run.progress == later.progress
        decreases |s| - parser.progress
      {
        var item := parser.Next();
        match item {
          case Finished =>
            return true, parser.progress, Length(contentLen);
          case Missing =>
            return false, parser.progress, Length(contentLen);
          case Slice(line) =>
            match LineLength(parsers, line) {
              case None =>
              case Some(announcement) =>
                if !announcement.Length? {
                  length := announcement;
                  return;
                }
                contentLen := announcement.n;
            }
        }
      }
    }

    /** Checks every line of the message, then takes the body. */
    method SecondPass(message: Bytes, contentLen: nat) returns (outcome: Outcome)
      ensures outcome == ParseMessage(parsers, message, contentLen)
    {
      var parser := new PullParser(message, 0);
      var lines: seq<Bytes> := [];
      while true
        invariant fresh(parser) && parser.input == message && parser.progress <= |message|
        invariant LinesAccepted(parsers, lines)
        invariant RunFrom(message, 0) == Continue(Run(lines, false, 0), RunFrom(message, parser.progress))
        decreases |message| - parser.progress
      {
        ghost var before := parser.progress;
        var item := parser.Next();
        match item {
          case Finished =>
            break;
          case Missing =>
            return Panicked;
          case Slice(line) =>
            LineMoved(lines, line, RunFrom(message, parser.progress));
            ghost var all := RunFrom(message, 0).lines;
            assert all[|lines|] == line;
            if !parsers.isText(line) || (lines == [] && !parsers.isMessageLine(line)) {
              return Malformed;
            }
            lines := lines + [line];
        }
      }
      var headEnd := HeadEnd(message, parser.progress);
      if headEnd + contentLen > |message| {
        return Panicked;
      }
      var body := message[headEnd..headEnd + contentLen];
      outcome := if lines == [] then Malformed else Message(lines, body, message);
    }
  }

  lemma LineMoved(lines: seq<Bytes>, line: Bytes, rest: Run)
    ensures Continue(Run(lines, false, 0), Prepend(line, rest)) == Continue(Run(lines + [line], false, 0), rest)
  {
    assert lines + ([line] + rest.lines) == lines + [line] + rest.lines;
  }

  // ---------- the next call ----------

  /** The stream is over the limit, and is thrown away. */
  predicate IsCleared(src: Bytes) {
    |Strip(src)| > MAX_SIZE && !(|Strip(src)| < |src| && [CR, LF] <= src)
  }

  lemma {:induction false} StripOnlyOnce(b: Bytes, more: Bytes)
    ensures Strip(b) != [] ==> Strip(Strip(b) + more) == Strip(b) + more
    decreases |b|
  {
    if b != [] && IsWhitespace(b[0]) {
      StripOnlyOnce(b[1..], more);
    }
  }

  /**
   Whatever arrives next, the saved progress lies inside the buffer of the next call, except when a stream
   over the limit was thrown away in the middle of a head: its progress is not.
   */
  lemma NextCallIsSafeExactly(p: LineParsers, progress: nat, src: Bytes)
    requires progress <= |Strip(src)|
    ensures var r := DecodeStream(p, progress, src);
            (forall more: Bytes :: r.progress <= |Strip(r.rest + more)|) <==> !IsCleared(src) || progress == 0
  {
    hide RunFrom, HeadEnd, Announced, ParseMessage, Strip;
    var r := DecodeStream(p, progress, src);
    forall more: Bytes | !IsCleared(src) || progress == 0
      ensures r.progress <= |Strip(r.rest + more)|
    {
      StripOnlyOnce(src, more);
    }
    if IsCleared(src) {
      var nothing: Bytes := [];
      assert |Strip(r.rest + nothing)| <= |r.rest + nothing| == 0;
    }
  }

  /** What is kept of a connection between two calls; an error closes it. */
  datatype Connection = Open(progress: nat, buffer: Bytes) | Closed

  predicate IsError(o: Outcome) {
    o.TooLarge? || o.Malformed? || o.Panicked?
  }

  /** The connection after n calls, each on the bytes that are left and those that have arrived since, if any. */
  function Calls(p: LineParsers, chunks: seq<Bytes>, n: nat): (c: Connection)
    requires n <= |chunks|
  {
    if n == 0 then Open(0, [])
    else match Calls(p, chunks, n - 1)
      case Closed => Closed
      case Open(progress, buffer) =>
        var r := DecodeStream(p, progress, buffer + chunks[n - 1]);
        if IsError(r.outcome) then Closed else Open(r.progress, r.rest)
  }

  /** A caller that stops at the first error never calls with a progress beyond the buffer, whatever the chunks. */
  lemma {:induction false} ProgressStaysInside(p: LineParsers, chunks: seq<Bytes>, n: nat, more: Bytes)
    requires n <= |chunks| && Calls(p, chunks, n).Open?
    ensures var c := Calls(p, chunks, n); c.progress <= |Strip(c.buffer + more)|
  {
    hide DecodeStripped, Strip;
    if n > 0 {
      var c := Calls(p, chunks, n - 1);
      ProgressStaysInside(p, chunks, n - 1, chunks[n - 1]);
      NextCallIsSafeExactly(p, c.progress, c.buffer + chunks[n - 1]);
    }
  }

  /**
   A head that has begun, then so much that the stream is thrown away, then one byte: the third call panics, if
   the caller goes on after the error of the second one.
   */
  lemma ClearedStreamFails(p: LineParsers, flood: Bytes)
    requires |flood| == MAX_SIZE
    ensures DecodeStream(p, 0, [65, 10, 66]) == Decoded(NeedMore, [65, 10, 66], 2)
    ensures DecodeStream(p, 2, [65, 10, 66] + flood) == Decoded(TooLarge, [], 2)
    ensures DecodeStream(p, 2, [65]) == Decoded(Panicked, [65], 2)
  {
    var s: Bytes := [65, 10, 66];
    assert Scan(s, 2, 2) == Scan(s, 2, 3) == Incomplete && RunFrom(s, 2) == Run([], false, 2);
    assert Scan(s, 0, 0) == Scan(s, 0, 1) == Line(1, 2);
    assert s[0..1] == [65];
    assert RunFrom(s, 0) == Run([[65]], false, 2);
    OneCharacterIsNoLength(p, 65);
    assert Strip(s) == s && Strip(s + flood) == s + flood && |s + flood| > MAX_SIZE;
    var one: Bytes := [65];
    assert Strip(one) == one;
  }

  // ---------- the second pass sees what the first one saw ----------

  /** A stream whose head has arrived completely, with the announced length and size of the message. */
  ghost predicate Complete(p: LineParsers, s: Bytes, n: nat, size: nat) {
    var run := RunFrom(s, 0);
    && run.complete && Announced(p, run.lines, 0) == Length(n)
    && size == HeadEnd(s, run.progress) + n && size <= |s| <= MAX_SIZE
  }

  lemma MessageHoldsItsBytes(p: LineParsers, message: Bytes, n: nat)
    ensures var o := ParseMessage(p, message, n);
            (o.Message? ==> o.buffer == message) && !o.NeedMore? && !o.KeepAliveRequest? && !o.KeepAliveResponse?
  {
    hide HeadEnd, RunFrom, LinesAccepted;
  }

  lemma CutOff(s: Bytes, size: nat)
    requires size <= |s|
    ensures |s| - |s[size..]| == size && s[..size] + s[size..] == s && s[0..] == s
  {
  }

  /** All bytes stay until the stream fails or a message is cut off. */
  ghost predicate Conserves(r: Decoded, s: Bytes) {
    && |r.rest| <= |s| && s[|s| - |r.rest|..] == r.rest
    && (r.outcome.Message? ==> r.outcome.buffer + r.rest == s)
    && (r.outcome.NeedMore? || r.outcome.KeepAliveRequest? || r.outcome.KeepAliveResponse? ==> r.rest == s)
  }

  lemma StrippedIsConserved(p: LineParsers, progress: nat, s: Bytes)
    requires progress <= |s|
    ensures Conserves(DecodeStripped(p, progress, s), s)
  {
    hide HeadEnd, RunFrom, Announced, ParseMessage;
    CutOff(s, 0);
    var run := RunFrom(s, progress);
    if run.complete && Announced(p, run.lines, 0).Length? {
      var n := Announced(p, run.lines, 0).n;
      var size := HeadEnd(s, run.progress) + n;
      if size <= |s| {
        CutOff(s, size);
        MessageHoldsItsBytes(p, s[..size], n);
      }
    }
  }

  /** Cutting the message off the stream conserves every byte behind the leading white space. */
  lemma NothingIsLost(p: LineParsers, progress: nat, src: Bytes)
    ensures Conserves(DecodeStream(p, progress, src), Strip(src))
  {
    hide DecodeStripped, Strip;
    var s := Strip(src);
    if progress <= |s| {
      StrippedIsConserved(p, progress, s);
    }
  }

  /**
   When the message has arrived, the second pass finds the end of the head exactly if the lookahead
   there was not cut off. Then it finds the lines of the first pass, and the body has the announced
   length; otherwise it fails on input that was checked before.
   */
  lemma {:induction false} SecondPassAgrees(p: LineParsers, s: Bytes, n: nat, size: nat)
    requires Complete(p, s, n, size) && LinesAccepted(p, RunFrom(s, 0).lines)
    ensures var run, outcome := RunFrom(s, 0), ParseMessage(p, s[..size], n);
            && (outcome.Panicked? <==> size < Needed(s, 0))
            && (Needed(s, 0) <= size && run.lines != [] ==>
                  && outcome.Message? && outcome.lines == run.lines && |outcome.body| == n
                  && outcome.body == s[HeadEnd(s, run.progress)..size])
  {
    hide HeadEnd, Scan;
    var run, message := RunFrom(s, 0), s[..size];
    RunTruncated(s, 0, size);
    RunExtended(message, s, 0);
    var cut := RunFrom(message, 0);
    assert run.lines == cut.lines + RunFrom(s, cut.progress).lines;
    assert forall i :: 0 <= i < |cut.lines| ==> cut.lines[i] == run.lines[i];
    if Needed(s, 0) <= size {
      RunStops(message, 0);
      HeadEndStays(message, s, cut.progress);
      var headEnd := HeadEnd(s, run.progress);
      assert message[headEnd..headEnd + n] == s[headEnd..size];
    }
  }

  /** The parser stopped at CR LF CR LF or LF LF, so that the reported end of the head is behind them. */
  ghost predicate DoubleNewline(s: Bytes, p: nat)
    requires p <= |s| && RunFrom(s, p).complete
  {
    var end := RunFrom(s, p).progress;
    HeadEnd(s, end) != end
  }

  /** A head that ends in CR LF CR LF or LF LF never loses its lookahead, whatever the length of the body. */
  lemma DoubleNewlineIsNeeded(s: Bytes, p: nat)
    requires p <= |s| && RunFrom(s, p).complete
    ensures DoubleNewline(s, p) <==> HeadEnd(s, RunFrom(s, p).progress) == Needed(s, p)
  {
    RunStops(s, p);
    var end := RunFrom(s, p).progress;
    ScanDecided(s, end, end);
    assert end + 4 <= |s| ==> s[end..end + 4] == [s[end], s[end + 1], s[end + 2], s[end + 3]];
    assert end + 2 <= |s| ==> s[end..end + 2] == [s[end], s[end + 1]];
  }

  /**
   A whole message in the buffer is decoded in one call: if its head ends in CR LF CR LF or LF LF, it is
   cut off with the announced body and never fails. With other endings it fails exactly when the body is
   shorter than the bytes the parser looks at behind the head.
   */
  lemma WholeMessage(p: LineParsers, s: Bytes, n: nat, size: nat)
    requires Complete(p, s, n, size) && LinesAccepted(p, RunFrom(s, 0).lines)
    requires Strip(s) == s && RunFrom(s, 0).lines != []
    ensures var r, run := DecodeStream(p, 0, s), RunFrom(s, 0);
            && r.rest == s[size..] && r.progress == 0
            && (DoubleNewline(s, 0) ==> r.outcome == Message(run.lines, s[HeadEnd(s, run.progress)..size], s[..size]))
            && (!DoubleNewline(s, 0) ==> (r.outcome.Panicked? <==> n < Needed(s, 0) - run.progress))
  {
    hide RunFrom, Announced, Strip, ParseMessage;
    SecondPassAgrees(p, s, n, size);
    MessageHoldsItsBytes(p, s[..size], n);
    DoubleNewlineIsNeeded(s, 0);
  }

  /** A line of one character says nothing about a length. */
  lemma OneCharacterIsNoLength(p: LineParsers, c: Byte)
    requires c != 58 && Lower(c) != 108
    ensures LineLength(p, [c]) == None && Announced(p, [[c]], 0) == Length(0)
  {
    assert IndexOf([c], COLON, 0) == IndexOf([c], COLON, 1) == 1;
    assert [c][..1] == [c];
    assert Lower(108) == 108;
    assert forall name :: name in LENGTH_NAMES ==> name == LENGTH_NAMES[0] || name == LENGTH_NAMES[1];
  }

  /** A head that ends in CR LF LF, with no body: the second pass misses its lookahead, whatever the line says. */
  lemma MixedEndingFails(p: LineParsers)
    ensures DecodeStream(p, 0, [65, 13, 10, 10, 66]) == Decoded(Panicked, [10, 66], 0)
  {
    var s: Bytes := [65, 13, 10, 10, 66];
    assert Scan(s, 3, 3) == HeadEnds && RunFrom(s, 3) == Run([], true, 3);
    assert Scan(s, 0, 0) == Scan(s, 0, 1) == Line(1, 3);
    assert s[0..1] == [65];
    assert RunFrom(s, 0) == Run([[65]], true, 3);
    OneCharacterIsNoLength(p, 65);
    assert s[3..5] == [10, 66];
    assert HeadEnd(s, 3) == 3;
    assert s[..3] == [65, 13, 10] && s[3..] == [10, 66];
    var message: Bytes := [65, 13, 10];
    assert Scan(message, 0, 0) == Scan(message, 0, 1) == Incomplete;
    assert RunFrom(message, 0) == Run([], false, 0);
  }

  // ---------- decoding in several calls ----------

  ghost predicate HasLength(p: LineParsers, lines: seq<Bytes>) {
    exists i :: 0 <= i < |lines| && LineLength(p, lines[i]).Some?
  }

  lemma {:induction false} AnnouncedAppend(p: LineParsers, a: seq<Bytes>, b: seq<Bytes>, n: nat)
    ensures Announced(p, a + b, n)
         == match Announced(p, a, n) { case Length(m) => Announced(p, b, m) case error => error }
    decreases |a|
  {
    if a == [] {
      assert a + b == b;
    } else {
      assert (a + b)[1..] == a[1..] + b;
      match LineLength(p, a[0]) {
        case None => AnnouncedAppend(p, a[1..], b, n);
        case Some(Length(m)) => AnnouncedAppend(p, a[1..], b, m);
        case Some(_) =>
      }
    }
  }

  /** Lines without a length keep the length known before; lines with one forget it. */
  lemma {:induction false} AnnouncedStart(p: LineParsers, lines: seq<Bytes>, n: nat, m: nat)
    ensures HasLength(p, lines) ==> Announced(p, lines, n) == Announced(p, lines, m)
    ensures !HasLength(p, lines) ==> Announced(p, lines, n) == Length(n)
    decreases |lines|
  {
    if lines != [] {
      AnnouncedStart(p, lines[1..], n, m);
      assert forall i :: 0 <= i < |lines| - 1 ==> lines[1..][i] == lines[i + 1];
      if HasLength(p, lines) && LineLength(p, lines[0]).None? {
        var i :| 0 <= i < |lines| && LineLength(p, lines[i]).Some?;
        assert lines[1..][i - 1] == lines[i];
      }
    }
  }

  /**
   A call that stops inside the head saves its progress, and the next call reads only the lines from
   there on. It agrees with decoding everything in one call exactly if those lines hold a length or the
   earlier ones announced no body: a length read in an earlier call is forgotten.
   */
  lemma ResumedCall(p: LineParsers, a: Bytes, b: Bytes, first: nat, n: nat, size: nat)
    requires a <= b && Strip(b) == b && !RunFrom(a, 0).complete
    requires Announced(p, RunFrom(a, 0).lines, 0) == Length(first)
    requires Complete(p, b, n, size)
    ensures var q := RunFrom(a, 0).progress;
            && q <= |b|
            && (DecodeStream(p, q, b) == DecodeStream(p, 0, b) <==> HasLength(p, RunFrom(b, q).lines) || first == 0)
  {
    hide HeadEnd, RunFrom, Announced, HasLength, DecodeStream, Scan;
    var q := RunFrom(a, 0).progress;
    var later := RunFrom(b, q);
    RunExtended(a, b, 0);
    AnnouncedAppend(p, RunFrom(a, 0).lines, later.lines, 0);
    AnnouncedStart(p, later.lines, first, 0);
    AnnouncedStart(p, later.lines, 0, 0);
    BodySizes(p, q, b, if HasLength(p, later.lines) then n else 0, n);
  }

  /** Two calls that find the same end of the head leave the same bytes only if they found the same length. */
  lemma BodySizes(p: LineParsers, q: nat, b: Bytes, n: nat, m: nat)
    requires q <= |b| <= MAX_SIZE && Strip(b) == b && RunFrom(b, q).complete && RunFrom(b, 0).complete
    requires RunFrom(b, 0).progress == RunFrom(b, q).progress
    requires Announced(p, RunFrom(b, q).lines, 0) == Length(n) && Announced(p, RunFrom(b, 0).lines, 0) == Length(m)
    requires HeadEnd(b, RunFrom(b, 0).progress) + n <= |b| && HeadEnd(b, RunFrom(b, 0).progress) + m <= |b|
    ensures DecodeStream(p, q, b) == DecodeStream(p, 0, b) <==> n == m
  {
    hide ParseMessage, HeadEnd, RunFrom, Announced;
    var end := HeadEnd(b, RunFrom(b, 0).progress);
    assert DecodeStream(p, q, b) == Decoded(ParseMessage(p, b[..end + n], n), b[end + n..], 0);
    assert DecodeStream(p, 0, b) == Decoded(ParseMessage(p, b[..end + m], m), b[end + m..], 0);
    assert |b[end + n..]| == |b| - end - n && |b[end + m..]| == |b| - end - m;
  }

  /** "l:1", a line feed, and the first byte of the next line. */
  const FIRST_PART: Bytes := [108, 58, 49, 10, 65]

  /** The same head complete, and its body of one byte. */
  const WHOLE: Bytes := [108, 58, 49, 10, 65, 10, 10, 66]

  /**
   A length read in the first call and a head completed in the second: the body is left in the stream, where
   one call would have taken it.
   */
  lemma LengthIsForgotten(p: LineParsers)
    requires p.readNumber([49]) == Some(1)
    ensures DecodeStream(p, 0, FIRST_PART) == Decoded(NeedMore, FIRST_PART, 4)
    ensures DecodeStream(p, 4, WHOLE).rest == [66]
    ensures DecodeStream(p, 0, WHOLE).rest == []
  {
    FirstCall(p);
    hide LineLength, ParseMessage, Scan, RunFrom, HeadEnd;
    var line: Bytes := [108, 58, 49];
    ShortLength(p);
    OneCharacterIsNoLength(p, 65);
    RestOfHead(WHOLE);
    LengthThenLine(p, line, [65]);
    assert WHOLE[7..] == [66] && WHOLE[8..] == [];
    assert Strip(WHOLE) == WHOLE;
  }

  lemma LengthThenLine(p: LineParsers, line: Bytes, other: Bytes)
    requires LineLength(p, line) == Some(Length(1)) && LineLength(p, other) == None
    ensures Announced(p, [line, other], 0) == Length(1) == Announced(p, [line], 0)
  {
    var lines := [line, other];
    assert lines[1..] == [other] && [other][1..] == [] && [line][1..] == [];
    assert Announced(p, [other], 1) == Length(1);
  }

  lemma FirstCall(p: LineParsers)
    requires p.readNumber([49]) == Some(1)
    ensures DecodeStream(p, 0, FIRST_PART) == Decoded(NeedMore, FIRST_PART, 4)
  {
    var a := FIRST_PART;
    ShortLength(p);
    OneCharacterIsNoLength(p, 65);
    LengthThenLine(p, [108, 58, 49], [65]);
    assert Scan(a, 4, 4) == Scan(a, 4, 5) == Incomplete && RunFrom(a, 4) == Run([], false, 4);
    assert Scan(a, 0, 0) == Scan(a, 0, 1) == Scan(a, 0, 2) == Scan(a, 0, 3) == Line(3, 4);
    assert a[0..3] == [108, 58, 49];
    assert RunFrom(a, 0) == Run([[108, 58, 49]], false, 4);
  }

  lemma RestOfHead(b: Bytes)
    requires b == WHOLE
    ensures RunFrom(b, 4) == Run([[65]], true, 5) && HeadEnd(b, 5) == 7
    ensures RunFrom(b, 0) == Run([[108, 58, 49], [65]], true, 5)
  {
    assert Scan(b, 5, 5) == HeadEnds && RunFrom(b, 5) == Run([], true, 5);
    assert Scan(b, 4, 4) == Scan(b, 4, 5) == Line(5, 5);
    assert b[4..5] == [65];
    assert b[5..7] == [10, 10];
    assert b[5..8] == [10, 10, 66];
    assert Scan(b, 0, 0) == Scan(b, 0, 1) == Scan(b, 0, 2) == Scan(b, 0, 3) == Line(3, 4);
    assert b[0..3] == [108, 58, 49];
  }

  lemma ShortLength(p: LineParsers)
    requires p.readNumber([49]) == Some(1)
    ensures LineLength(p, [108, 58, 49]) == Some(Length(1))
  {
    var line: Bytes := [108, 58, 49];
    assert IndexOf(line, COLON, 0) == IndexOf(line, COLON, 1) == 1;
    assert line[..1] == [108] && line[2..] == [49];
    assert LENGTH_NAMES[1] in LENGTH_NAMES && SameIgnoringCase([108], LENGTH_NAMES[1]);
  }
}
