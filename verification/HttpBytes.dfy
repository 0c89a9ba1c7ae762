/**
 Which part of the switch a state belongs to, and what a byte that needs a single pass does.
 */
module HttpBytes {
  import opened HttpTypes
  import opened HttpSwitch
  import opened HttpRun

  /** The parser has room for `n` more bytes under the header limit. */
  predicate Room(p: Parser, n: nat) {
    p.nread + n <= MAX_HEADER_SIZE
  }

  /** A byte that is done in one pass. */
  lemma OnePass(cb: Callbacks, p: Parser, ch: char)
    requires ParsingHeader(p.state) ==> Room(p, 1)
    ensures var o := Handle(cb, Counted(p), ch);
            !o.next.Again? ==> Byte(cb, p, ch) == Step(o.p, PassEvents(o, ch), o.next)
  {
    hide Handle;
  }

  /** A byte that is done in two passes. */
  lemma TwoPasses(cb: Callbacks, p: Parser, ch: char)
    requires ParsingHeader(p.state) ==> Room(p, 1)
    ensures var o := Handle(cb, Counted(p), ch);
            var o' := Handle(cb, o.p, ch);
            o.next.Again? && !o'.next.Again? ==>
              Byte(cb, p, ch) == Step(o'.p, PassEvents(o, ch) + PassEvents(o', ch), o'.next)
  {
    hide Handle;
    var o := Handle(cb, Counted(p), ch);
    var o' := Handle(cb, o.p, ch);
    if !o'.next.Again? {
      assert Passes(cb, o.p, ch) == Step(o'.p, PassEvents(o', ch), o'.next);
    }
  }

  lemma InStartPart(cb: Callbacks, p: Parser, ch: char)
    requires InStart(p.state)
    ensures Handle(cb, p, ch) == HandleStart(p, ch)
  {
    hide HandleStart, HandleStatusLine, HandleMethod, HandleUrl, HandleRequestVersion, HandleField,
      HandleValue, HandleHeadersEnd, HandleBody, HandleChunk;
  }

  lemma InStatusLinePart(cb: Callbacks, p: Parser, ch: char)
    requires InStatusLine(p.state)
    ensures Handle(cb, p, ch) == HandleStatusLine(p, ch)
  {
    hide HandleStart, HandleStatusLine, HandleMethod, HandleUrl, HandleRequestVersion, HandleField,
      HandleValue, HandleHeadersEnd, HandleBody, HandleChunk;
  }

  lemma InMethodPart(cb: Callbacks, p: Parser, ch: char)
    requires p.state.ReqMethod?
    ensures Handle(cb, p, ch) == HandleMethod(p, ch)
  {
    hide HandleStart, HandleStatusLine, HandleMethod, HandleUrl, HandleRequestVersion, HandleField,
      HandleValue, HandleHeadersEnd, HandleBody, HandleChunk;
  }

  lemma InUrlPart(cb: Callbacks, p: Parser, ch: char)
    requires p.state.ReqSpacesBeforeUrl? || InUrl(p.state)
    ensures Handle(cb, p, ch) == HandleUrl(p, ch)
  {
    hide HandleStart, HandleStatusLine, HandleMethod, HandleUrl, HandleRequestVersion, HandleField,
      HandleValue, HandleHeadersEnd, HandleBody, HandleChunk;
  }

  lemma InRequestVersionPart(cb: Callbacks, p: Parser, ch: char)
    requires InRequestVersion(p.state)
    ensures Handle(cb, p, ch) == HandleRequestVersion(p, ch)
  {
    hide HandleStart, HandleStatusLine, HandleMethod, HandleUrl, HandleRequestVersion, HandleField,
      HandleValue, HandleHeadersEnd, HandleBody, HandleChunk;
  }

  lemma InFieldPart(cb: Callbacks, p: Parser, ch: char)
    requires p.state.HeaderFieldStart? || p.state.HeaderField?
    ensures Handle(cb, p, ch) == HandleField(p, ch)
  {
    hide HandleStart, HandleStatusLine, HandleMethod, HandleUrl, HandleRequestVersion, HandleField,
      HandleValue, HandleHeadersEnd, HandleBody, HandleChunk;
  }

  lemma InValuePart(cb: Callbacks, p: Parser, ch: char)
    requires InValue(p.state)
    ensures Handle(cb, p, ch) == HandleValue(p, ch)
  {
    hide HandleStart, HandleStatusLine, HandleMethod, HandleUrl, HandleRequestVersion, HandleField,
      HandleValue, HandleHeadersEnd, HandleBody, HandleChunk;
  }

  lemma InHeadersEndPart(cb: Callbacks, p: Parser, ch: char)
    requires p.state.HeadersAlmostDone? || p.state.HeadersDone?
    ensures Handle(cb, p, ch) == HandleHeadersEnd(cb, p, ch)
  {
    hide HandleStart, HandleStatusLine, HandleMethod, HandleUrl, HandleRequestVersion, HandleField,
      HandleValue, HandleHeadersEnd, HandleBody, HandleChunk;
  }

  lemma InBodyPart(cb: Callbacks, p: Parser, ch: char)
    requires InBody(p.state)
    ensures Handle(cb, p, ch) == HandleBody(cb, p)
  {
    hide HandleStart, HandleStatusLine, HandleMethod, HandleUrl, HandleRequestVersion, HandleField,
      HandleValue, HandleHeadersEnd, HandleBody, HandleChunk;
  }

  lemma InChunkPart(cb: Callbacks, p: Parser, ch: char)
    requires InChunk(p.state)
    ensures Handle(cb, p, ch) == HandleChunk(p, ch)
  {
    hide HandleStart, HandleStatusLine, HandleMethod, HandleUrl, HandleRequestVersion, HandleField,
      HandleValue, HandleHeadersEnd, HandleBody, HandleChunk;
  }
}
