/** The SDP session as an object that offers update in place, proved to do what SdpExchange says. */
module SdpSession {

  import opened Wrappers
  import X = SdpExchange

  class SdpSession {
    var nextId: nat
    var nextPt: nat
    var locals: seq<X.LocalMedia>
    var media: seq<X.Active>
    var transports: seq<Option<X.Transport>>
    var pending: seq<X.Pending>
    var removals: seq<nat>
    var events: seq<X.Event>

    function Contents(): (r: X.Session)
      reads this
    {
      X.Session(nextId, nextPt, locals, media, transports, pending, removals, events)
    }

    constructor ()
      ensures Contents() == X.NEW_SESSION && X.Valid(Contents())
    {
      nextId, nextPt, locals, media := 0, X.FIRST_DYNAMIC_PT, [], [];
      transports, pending, removals, events := [], [], [], [];
      new;
      X.NewIsValid();
    }

    /** Numbers the codecs; the next payload type is unchanged if there are not enough. */
    method AddLocalMedia(mediaType: string, codecs: seq<X.NewCodec>, limit: nat, flow: X.Flow) returns (id: Option<nat>)
      modifies this
      ensures Contents() == X.AddLocalMedia(old(Contents()), mediaType, codecs, limit, flow)
      ensures id == if X.AssignPts(codecs, old(nextPt), |codecs|).Some? then Some(|old(locals)|) else None
    {
      var numbered: seq<X.Codec> := [];
      var pt := nextPt;
      for i := 0 to |codecs|
        invariant X.AssignPts(codecs, nextPt, i) == Some((numbered, pt))
      {
        if codecs[i].pt.Some? {
          numbered := numbered + [X.Codec(codecs[i].name, codecs[i].clockRate, codecs[i].pt.value, codecs[i].isStatic)];
        } else {
          numbered := numbered + [X.Codec(codecs[i].name, codecs[i].clockRate, pt, codecs[i].isStatic)];
          pt := pt + 1;
          if pt > X.LAST_PT {
            X.NotEnoughPts(codecs, nextPt, i + 1, |codecs|);
            return None;
          }
        }
      }
      nextPt := pt;
      id := Some(|locals|);
      locals := locals + [X.LocalMedia(mediaType, numbered, limit, flow, 0)];
    }

    /** Puts the removal of every transport that nothing uses among the changes. */
    method RemoveUnusedTransports()
      modifies this
      ensures Contents() == X.RemoveUnused(old(Contents()))
    {
      for t := 0 to |transports|
        invariant |transports| == |old(transports)| && Contents() == X.Cleaned(old(Contents()), t)
      {
        if transports[t].Some? && !X.InUse(Contents(), t) {
          transports := transports[t := None];
          removals := removals + [t];
        }
      }
    }

    /** Gives back the uses of removed media, and announces their end. */
    method Release(removed: seq<X.Active>)
      requires X.Covers(locals, removed, |removed|)
      modifies this`locals, this`events
      ensures locals == X.Released(old(locals), removed, |removed|)
      ensures events == old(events) + X.RemovedEvents(removed)
    {
      hide X.Uses, X.Covers, X.Released;
      X.ReleaseNone(locals, removed);
      for i := 0 to |removed|
        invariant X.Covers(old(locals), removed, i) && locals == X.Released(old(locals), removed, i)
        invariant events == old(events) + X.RemovedEvents(removed)[..i]
      {
        X.ReleaseOne(old(locals), removed, i);
        var l := removed[i].local;
        locals := locals[l := locals[l].(useCount := locals[l].useCount - 1)];
        events := events + [X.MediaRemoved(removed[i].id)];
      }
      assert X.RemovedEvents(removed)[..|removed|] == X.RemovedEvents(removed);
    }

    /** The media at position k of the old state, with the direction of the m-line. */
    method UpdateActiveMedia(k: nat, flow: X.Flow)
      requires k < |media|
      modifies this`media, this`events
      ensures media == old(media)[k := old(media)[k].(flow := flow)]
      ensures events == old(events) + if old(media)[k].flow != flow then [X.MediaChanged(media[k].id, old(media)[k].flow, flow)] else []
    {
      if media[k].flow != flow {
        events := events + [X.MediaChanged(media[k].id, media[k].flow, flow)];
        media := media[k := media[k].(flow := flow)];
      }
    }

    method ReceiveLine(groups: seq<X.Group>, line: X.MediaLine, made: seq<X.Active>, response: seq<X.Entry>)
      returns (ok: bool, made': seq<X.Active>, response': seq<X.Entry>)
      modifies this
      ensures var o := X.ProcessLine(X.Work(old(Contents()), made, response), groups, line);
              ok == o.Next? && o.work == X.Work(Contents(), made', response')
    {
      ok, made', response' := true, made, response;
      var k := X.FindMatch(media, transports, line, 0);
      if k < |media| {
        UpdateActiveMedia(k, line.flow.Flipped());
        response' := response + [X.Accepted(media[k].id)];
        made' := made + [media[k]];
        media := X.Without(media, k);
        return;
      }
      var l := X.ChooseLocal(locals, line, 0);
      if l == |locals| {
        response' := response + [X.Rejected(line.mediaType, line.mid)];
        return;
      }
      var pt := X.MaybeUse(locals[l], line).value;
      locals := locals[l := locals[l].(useCount := locals[l].useCount + 1)];
      var id := nextId;
      nextId := nextId + 1;
      var transport := X.FindBundled(X.Work(Contents(), made, response), groups, line.mid);
      if transport.None? {
        match line.creation {
          case Creates(kind, port) =>
            transport := Some(|transports|);
            transports := transports + [Some(X.Built(kind, port))];
          case Unsupported =>
            response' := response + [X.Rejected(line.mediaType, line.mid)];
            return;
          case Fails =>
            ok := false;
            return;
        }
      }
      var flow := X.FlowFor(locals[l], line);
      events := events + [X.MediaAdded(id, transport.value, l, flow, pt)];
      response' := response + [X.Accepted(id)];
      made' := made + [X.Active(id, l, line.mediaType, line.mid, flow, transport.value, pt)];
    }

    /** All m-lines in turn, up to the first one that fails. */
    method ReceiveLines(offer: X.Offer) returns (ok: bool, made: seq<X.Active>, response: seq<X.Entry>)
      modifies this
      ensures var o := X.ProcessLines(old(Contents()), offer, |offer.lines|);
              ok == o.Next? && o.work == X.Work(Contents(), made, response)
    {
      hide X.ProcessLine;
      ok, made, response := true, [], [];
      ghost var start := Contents();
      for i := 0 to |offer.lines|
        invariant ok && X.ProcessLines(start, offer, i) == X.Next(X.Work(Contents(), made, response))
      {
        ok, made, response := ReceiveLine(offer.groups, offer.lines[i], made, response);
        if !ok {
          X.StaysBroken(start, offer, i + 1, |offer.lines|);
          return;
        }
      }
    }

    /** The new state replaces the old one, and what is left there is removed. */
    method FinishOffer(made: seq<X.Active>)
      requires X.Covers(locals, media, |media|)
      modifies this
      ensures Contents() == X.Finish(X.Work(old(Contents()), made, []))
    {
      var removed := media;
      media := made;
      Release(removed);
      RemoveUnusedTransports();
    }

    /** None if the transport of an m-line cannot be created: the media made so far is dropped. */
    method ReceiveSdpOffer(offer: X.Offer) returns (answer: Option<seq<X.Entry>>)
      requires X.Valid(Contents())
      modifies this
      ensures match X.ReceiveOffer(old(Contents()), offer)
              case Answerable(s, response) => Contents() == s && X.Valid(s) && answer == Some(response)
              case Failed(s) => Contents() == s && answer == None
    {
      hide X.Valid, X.Covers, X.Inv, X.ProcessLines, X.RemoveUnused;
      ghost var start := Contents();
      var ok, made, response := ReceiveLines(offer);
      X.LinesInv(start, offer, |offer.lines|);
      if !ok {
        return None;
      }
      X.FinishInv(X.Work(Contents(), made, response));
      FinishOffer(made);
      answer := Some(response);
    }
  }
}
