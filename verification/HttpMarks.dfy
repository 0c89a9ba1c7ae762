/**
 The marks of http_parser_execute: which data callback is open in which state.
 */
module HttpMarks {
  import opened HttpTypes
  import opened HttpSwitch

  /** How a pass treats the URL, field and value marks: the mark that belongs to the new state is
      open afterwards and no other, and a mark that closes is flushed. */
  predicate KeepsMarks(p: Parser, o: Out) {
    var before, after := OpenKind(p.state), OpenKind(o.p.state);
    if ReadsBody(p.state) then o.mark == Some(Body) && o.note == [] && before == after == None
    else if o.next.Fail? then true
    else if p.state.ChunkDataAlmostDone? then
      o.next.Advance? && before == after == None && o.mark == None && o.flush == Some(Body) && o.note == []
    else if o.next.Again? then
      && after == None && o.mark == None && o.flush == before && !ReadsBody(o.p.state)
      && (before.Some? ==> o.note == [])
    else if after.Some? then
      && o.flush == None && o.note == []
      && (if before.Some? then before == after && o.mark == None else o.mark == after)
    else if before.Some? then o.flush == before && o.mark == None && o.note == []
    else
      || (o.mark == None && o.flush == None)
      || (o.mark == Some(Value) && o.flush == Some(Value) && o.note == [])
  }

  /** The parser has a type, and is in a state that goes with it. */
  predicate OfType(p: Parser) {
    && !p.kind.Both?
    && (if p.kind.Request? then !InStatusLine(p.state) && !p.state.StartRes?
        else !InRequestVersion(p.state) && !InUrl(p.state) && !p.state.ReqMethod?
             && !p.state.ReqSpacesBeforeUrl? && !p.state.StartReq?)
  }

  /** The type of the parser changes only while it is being settled. */
  predicate KeepsKind(p: Parser, o: Out) {
    p.state.StartReqOrRes? || p.state.ResOrRespH? || o.p.kind == p.kind
  }

  lemma MarksStart(p: Parser, ch: char)
    requires InStart(p.state)
    ensures KeepsMarks(p, HandleStart(p, ch)) && KeepsKind(p, HandleStart(p, ch))
  {
  }

  lemma MarksStatusLine(p: Parser, ch: char)
    requires InStatusLine(p.state)
    ensures KeepsMarks(p, HandleStatusLine(p, ch)) && KeepsKind(p, HandleStatusLine(p, ch))
  {
    hide HandleStatusLine;
  }

  lemma MarksMethod(p: Parser, ch: char)
    requires p.state.ReqMethod?
    ensures KeepsMarks(p, HandleMethod(p, ch)) && KeepsKind(p, HandleMethod(p, ch))
  {
  }

  lemma MarksUrl(p: Parser, ch: char)
    requires p.state.ReqSpacesBeforeUrl? || InUrl(p.state)
    ensures KeepsMarks(p, HandleUrl(p, ch)) && KeepsKind(p, HandleUrl(p, ch))
  {
  }

  lemma MarksRequestVersion(p: Parser, ch: char)
    requires InRequestVersion(p.state)
    ensures KeepsMarks(p, HandleRequestVersion(p, ch)) && KeepsKind(p, HandleRequestVersion(p, ch))
  {
    hide HandleRequestVersion;
  }

  lemma FieldStays(p: Parser, c: char)
    requires p.state.HeaderField?
    ensures MatchField(p, c).state == p.state && MatchField(p, c).kind == p.kind
  {
  }

  lemma MarksField(p: Parser, ch: char)
    requires p.state.HeaderFieldStart? || p.state.HeaderField?
    ensures KeepsMarks(p, HandleField(p, ch)) && KeepsKind(p, HandleField(p, ch))
  {
    hide MatchField, Token, FirstFieldState;
    if p.state.HeaderField? {
      FieldStays(p, Token(ch));
    }
  }

  predicate Quiet(p: Parser, o: Out) {
    o.p.state == p.state && o.p.kind == p.kind && o.mark == None && o.flush == None && o.note == [] && !o.next.Again?
  }

  lemma ValueStays(p: Parser, ch: char)
    ensures Quiet(p, FirstValueByte(p, ch)) && Quiet(p, NextValueByte(p, ch))
  {
    hide Accumulate;
  }

  lemma MarksValue(p: Parser, ch: char)
    requires InValue(p.state)
    ensures KeepsMarks(p, HandleValue(p, ch)) && KeepsKind(p, HandleValue(p, ch))
  {
    hide FirstValueByte, NextValueByte;
    ValueStays(p.(index := 0, state := HeaderValue), ch);
    ValueStays(p, ch);
  }

  lemma MarksHeadersEnd(cb: Callbacks, p: Parser, ch: char)
    requires p.state.HeadersAlmostDone? || p.state.HeadersDone?
    ensures KeepsMarks(p, HandleHeadersEnd(cb, p, ch)) && KeepsKind(p, HandleHeadersEnd(cb, p, ch))
  {
  }

  lemma MarksBody(cb: Callbacks, p: Parser)
    requires InBody(p.state)
    ensures KeepsMarks(p, HandleBody(cb, p)) && KeepsKind(p, HandleBody(cb, p))
  {
  }

  lemma MarksChunk(p: Parser, ch: char)
    requires InChunk(p.state)
    ensures KeepsMarks(p, HandleChunk(p, ch)) && KeepsKind(p, HandleChunk(p, ch))
  {
  }

  /** In every state and on every byte, the marks are kept as `KeepsMarks` says, and the type of the parser. */
  lemma MarksKept(cb: Callbacks, p: Parser, ch: char)
    ensures KeepsMarks(p, Handle(cb, p, ch)) && KeepsKind(p, Handle(cb, p, ch))
  {
    hide HandleStart, HandleStatusLine, HandleMethod, HandleUrl, HandleRequestVersion, HandleField,
      HandleValue, HandleHeadersEnd, HandleBody, HandleChunk, KeepsMarks, KeepsKind;
    if InStart(p.state) {
      MarksStart(p, ch);
    } else if InStatusLine(p.state) {
      MarksStatusLine(p, ch);
    } else if p.state.ReqMethod? {
      MarksMethod(p, ch);
    } else if p.state.ReqSpacesBeforeUrl? || InUrl(p.state) {
      MarksUrl(p, ch);
    } else if InRequestVersion(p.state) {
      MarksRequestVersion(p, ch);
    } else if p.state.HeaderFieldStart? || p.state.HeaderField? {
      MarksField(p, ch);
    } else if InValue(p.state) {
      MarksValue(p, ch);
    } else if p.state.HeadersAlmostDone? || p.state.HeadersDone? {
      MarksHeadersEnd(cb, p, ch);
    } else if InBody(p.state) {
      MarksBody(cb, p);
    } else {
      MarksChunk(p, ch);
    }
  }
}
