/**
 http_parser_parse_url: a URL is cut into its parts.  The parts are disjoint, in order and not empty,
 and what is left over between them are single delimiters.
 */
module HttpUrl {
  import opened HttpTypes
  import opened HttpSwitch
  import opened HttpNumbers

  datatype UrlField = Schema | Userinfo | Host | Port | Path | Query | Fragment

  /** A field of the result: where it starts and how long it is. */
  datatype Span = Span(off: nat, len: nat)

  predicate Within(sp: Span, k: int) { sp.off <= k < sp.off + sp.len }

  // ---------------------------------------------------------------- the URL states

  /** The order in which a URL goes through its states. */
  function Stage(s: State): nat {
    if s.ReqSpacesBeforeUrl? then 0
    else if s.ReqSchema? then 1
    else if s.ReqSchemaSlash? then 2
    else if s.ReqSchemaSlashSlash? then 3
    else if s.ReqServerStart? then 4
    else if s.ReqServer? || s.ReqServerWithAt? then 5
    else if s.ReqPath? then 6
    else if s.ReqQueryStringStart? then 7
    else if s.ReqQueryString? then 8
    else if s.ReqFragmentStart? then 9
    else 10
  }

  /** The field that a byte belongs to, by the state after it; the host is divided further later. */
  function FieldOf(s: State): Option<UrlField> {
    if s.ReqSchema? then Some(Schema)
    else if s.ReqServer? || s.ReqServerWithAt? then Some(Host)
    else if s.ReqPath? then Some(Path)
    else if s.ReqQueryString? then Some(Query)
    else if s.ReqFragment? then Some(Fragment)
    else None
  }

  function StageOf(f: UrlField): nat {
    match f
    case Schema => 1
    case Userinfo => 5
    case Host => 5
    case Port => 5
    case Path => 6
    case Query => 8
    case Fragment => 10
  }

  function StartOf(connect: bool): State {
    if connect then ReqServerStart else ReqSpacesBeforeUrl
  }

  /** The state after the first k bytes. */
  function StateAt(buf: string, connect: bool, k: nat): State
    requires k <= |buf|
  {
    if k == 0 then StartOf(connect) else ParseUrlChar(StateAt(buf, connect, k - 1), buf[k - 1])
  }

  predicate UrlState(s: State) {
    s.ReqSpacesBeforeUrl? || InUrl(s)
  }

  lemma UrlCharAdvances(s: State, ch: char)
    requires UrlState(s)
    ensures var t := ParseUrlChar(s, ch);
            || t.Dead?
            || (&& InUrl(t) && Stage(s) <= Stage(t)
                && (FieldOf(t).None? ==> ch == ':' || ch == '/' || ch == '?' || ch == '#'))
  {
  }

  lemma DeadStaysDead(ch: char)
    ensures ParseUrlChar(Dead, ch).Dead?
  {
  }

  /** While the URL is accepted its states only advance. */
  lemma {:induction false} StateAdvances(buf: string, connect: bool, j: nat, k: nat)
    requires j <= k <= |buf| && !StateAt(buf, connect, k).Dead?
    ensures UrlState(StateAt(buf, connect, j)) && UrlState(StateAt(buf, connect, k))
    ensures Stage(StateAt(buf, connect, j)) <= Stage(StateAt(buf, connect, k))
    decreases k
  {
    hide ParseUrlChar, Stage;
    if k > 0 {
      var s := StateAt(buf, connect, k - 1);
      if s.Dead? {
        DeadStaysDead(buf[k - 1]);
      }
      if j < k {
        StateAdvances(buf, connect, j, k - 1);
        UrlCharAdvances(s, buf[k - 1]);
      } else {
        StateAdvances(buf, connect, k - 1, k - 1);
        UrlCharAdvances(s, buf[k - 1]);
      }
    }
  }

  lemma FieldByStage(s: State, f: UrlField)
    requires UrlState(s) && !f.Userinfo? && !f.Port?
    ensures FieldOf(s) == Some(f) <==> Stage(s) == StageOf(f)
  {
  }

  // ---------------------------------------------------------------- the host states

  datatype HostState =
    | HostDead | UserinfoStart | InUserinfo | HostStart | V6Start | InHost | InV6 | V6End | PortStart | InPort

  predicate IsHostChar(c: char) { IsAlphaNum(c) || c == '.' || c == '-' }

  /** http_parse_host_char */
  function ParseHostChar(s: HostState, ch: char): HostState {
    if s.InUserinfo? || s.UserinfoStart? then
      if ch == '@' then HostStart else if IsUserinfoChar(ch) then InUserinfo else HostDead
    else if s.HostStart? then
      if ch == '[' then V6Start else if IsHostChar(ch) then InHost else HostDead
    else if s.InHost? && IsHostChar(ch) then InHost
    else if s.InHost? || s.V6End? then if ch == ':' then PortStart else HostDead
    else if s.InV6? && ch == ']' then V6End
    else if s.InV6? || s.V6Start? then if IsHex(ch) || ch == ':' then InV6 else HostDead
    else if s.InPort? || s.PortStart? then if IsNum(ch) then InPort else HostDead
    else HostDead
  }

  function HostStage(s: HostState): nat {
    match s
    case UserinfoStart => 0
    case InUserinfo => 1
    case HostStart => 2
    case V6Start => 3
    case InHost => 4
    case InV6 => 4
    case V6End => 5
    case PortStart => 6
    case InPort => 7
    case HostDead => 8
  }

  function HostFieldOf(s: HostState): Option<UrlField> {
    match s
    case InUserinfo => Some(Userinfo)
    case InHost => Some(Host)
    case InV6 => Some(Host)
    case InPort => Some(Port)
    case _ => None
  }

  function HostStageOf(f: UrlField): nat {
    if f.Userinfo? then 1 else if f.Host? then 4 else 7
  }

  /** The state after the first k bytes of the authority. */
  function HostStateAt(w: string, foundAt: bool, k: nat): HostState
    requires k <= |w|
  {
    if k == 0 then (if foundAt then UserinfoStart else HostStart)
    else ParseHostChar(HostStateAt(w, foundAt, k - 1), w[k - 1])
  }

  lemma HostCharAdvances(s: HostState, ch: char)
    ensures var t := ParseHostChar(s, ch);
            && (s.HostDead? ==> t.HostDead?)
            && (!t.HostDead? ==>
                  && HostStage(s) <= HostStage(t)
                  && (s.InHost? ==> !t.InV6?) && (s.InV6? ==> !t.InHost?)
                  && (HostFieldOf(t).None? ==> ch == '@' || ch == ':' || ch == '[' || ch == ']')
                  && (t.InPort? <==> IsNum(ch) && HostStage(s) >= 6))
  {
  }

  lemma {:induction false} HostStateAdvances(w: string, foundAt: bool, j: nat, k: nat)
    requires j <= k <= |w| && !HostStateAt(w, foundAt, k).HostDead?
    ensures !HostStateAt(w, foundAt, j).HostDead?
    ensures HostStage(HostStateAt(w, foundAt, j)) <= HostStage(HostStateAt(w, foundAt, k))
    decreases k
  {
    hide ParseHostChar, HostStage;
    if j < k {
      HostCharAdvances(HostStateAt(w, foundAt, k - 1), w[k - 1]);
      HostStateAdvances(w, foundAt, j, k - 1);
    }
  }

  lemma HostFieldByStage(s: HostState, f: UrlField)
    requires !s.HostDead? && (f.Userinfo? || f.Host? || f.Port?)
    ensures HostFieldOf(s) == Some(f) <==> HostStage(s) == HostStageOf(f)
  {
  }

  // ---------------------------------------------------------------- labels

  /** The field of byte k, before the authority is divided. */
  function LabelAt(buf: string, connect: bool, k: nat): Option<UrlField>
    requires k < |buf|
  {
    FieldOf(StateAt(buf, connect, k + 1))
  }

  /** The field of byte k of the authority. */
  function HostLabelAt(w: string, foundAt: bool, k: nat): Option<UrlField>
    requires k < |w|
  {
    HostFieldOf(HostStateAt(w, foundAt, k + 1))
  }

  predicate SeesAt(buf: string, connect: bool, n: nat)
    requires n <= |buf|
  {
    exists k :: 0 < k <= n && StateAt(buf, connect, k).ReqServerWithAt?
  }

  /** Field f of the result holds exactly the bytes labelled f among the first n. */
  ghost predicate Holds(fields: map<UrlField, Span>, buf: string, connect: bool, f: UrlField, n: nat)
    requires n <= |buf|
  {
    && (f in fields ==> 0 < fields[f].len && fields[f].off + fields[f].len <= n)
    && forall k :: 0 <= k < n ==> ((f in fields && Within(fields[f], k)) <==> LabelAt(buf, connect, k) == Some(f))
  }

  /** The same for the fields of the authority `w`, which starts at `base`. */
  ghost predicate HoldsHost(fields: map<UrlField, Span>, w: string, foundAt: bool, base: nat, f: UrlField, n: nat)
    requires n <= |w|
  {
    && (f in fields ==> base <= fields[f].off && fields[f].off + fields[f].len <= base + n)
    && forall k :: 0 <= k < n ==>
       ((f in fields && Within(fields[f], base + k)) <==> HostLabelAt(w, foundAt, k) == Some(f))
  }

  predicate Whole(f: UrlField) { !f.Userinfo? && !f.Port? }

  /** Two bytes with the same label have only that label between them. */
  lemma LabelsContiguous(buf: string, connect: bool, j: nat, m: nat, k: nat, f: UrlField)
    requires j <= m <= k < |buf| && !StateAt(buf, connect, k + 1).Dead? && Whole(f)
    requires LabelAt(buf, connect, j) == Some(f) && LabelAt(buf, connect, k) == Some(f)
    ensures LabelAt(buf, connect, m) == Some(f)
  {
    hide ParseUrlChar, Stage, FieldOf;
    StateAdvances(buf, connect, m + 1, k + 1);
    StateAdvances(buf, connect, j + 1, m + 1);
    FieldByStage(StateAt(buf, connect, j + 1), f);
    FieldByStage(StateAt(buf, connect, m + 1), f);
    FieldByStage(StateAt(buf, connect, k + 1), f);
  }

  lemma HostLabelsContiguous(w: string, foundAt: bool, j: nat, m: nat, k: nat, f: UrlField)
    requires j <= m <= k < |w| && !HostStateAt(w, foundAt, k + 1).HostDead? && (f.Userinfo? || f.Host? || f.Port?)
    requires HostLabelAt(w, foundAt, j) == Some(f) && HostLabelAt(w, foundAt, k) == Some(f)
    ensures HostLabelAt(w, foundAt, m) == Some(f)
  {
    hide ParseHostChar, HostStage, HostFieldOf;
    HostStateAdvances(w, foundAt, m + 1, k + 1);
    HostStateAdvances(w, foundAt, j + 1, m + 1);
    HostFieldByStage(HostStateAt(w, foundAt, j + 1), f);
    HostFieldByStage(HostStateAt(w, foundAt, m + 1), f);
    HostFieldByStage(HostStateAt(w, foundAt, k + 1), f);
  }

  // ---------------------------------------------------------------- the parts of a URL

  /** What the loop of http_parser_parse_url knows after n bytes. */
  ghost predicate PartsSoFar(fields: map<UrlField, Span>, last: Option<UrlField>, buf: string, connect: bool, n: nat)
    requires n <= |buf|
  {
    && (forall f :: f in fields ==> Whole(f))
    && (forall f :: Whole(f) ==> Holds(fields, buf, connect, f, n))
    && (last.None? ==> fields == map[])
    && (last.Some? ==> last.value in fields && forall f :: f in fields ==> StageOf(f) <= StageOf(last.value))
  }

  /** A byte of field f extends it, or starts it if it is not the last field. */
  function Extended(fields: map<UrlField, Span>, last: Option<UrlField>, f: UrlField, n: nat): map<UrlField, Span> {
    if last == Some(f) && f in fields then fields[f := Span(fields[f].off, fields[f].len + 1)]
    else fields[f := Span(n, 1)]
  }

  lemma SkippedByte(fields: map<UrlField, Span>, last: Option<UrlField>, buf: string, connect: bool, n: nat)
    requires n < |buf| && PartsSoFar(fields, last, buf, connect, n) && LabelAt(buf, connect, n) == None
    ensures PartsSoFar(fields, last, buf, connect, n + 1)
  {
    hide StateAt, FieldOf, LabelAt;
    forall f | Whole(f) ensures Holds(fields, buf, connect, f, n + 1) {
      assert Holds(fields, buf, connect, f, n);
    }
  }

  /** The last field is the field of the byte before; an earlier field never comes back. */
  lemma LastField(fields: map<UrlField, Span>, last: Option<UrlField>, buf: string, connect: bool, n: nat, f: UrlField)
    requires n < |buf| && PartsSoFar(fields, last, buf, connect, n) && !StateAt(buf, connect, n + 1).Dead?
    requires LabelAt(buf, connect, n) == Some(f) && Whole(f)
    ensures f in fields ==> last == Some(f) && fields[f].off + fields[f].len == n
    ensures forall g :: g in fields ==> StageOf(g) <= StageOf(f)
  {
    hide ParseUrlChar, FieldOf, Stage, StateAt;
    forall g | g in fields ensures StageOf(g) <= StageOf(f) {
      assert Holds(fields, buf, connect, g, n);
      var j := fields[g].off;
      assert Within(fields[g], j);
      StateAdvances(buf, connect, j + 1, n + 1);
      FieldByStage(StateAt(buf, connect, j + 1), g);
      FieldByStage(StateAt(buf, connect, n + 1), f);
    }
    if f in fields {
      assert StageOf(f) == StageOf(last.value);
      assert Holds(fields, buf, connect, f, n);
      var j := fields[f].off;
      assert Within(fields[f], j);
      LabelsContiguous(buf, connect, j, n - 1, n, f);
      assert Within(fields[f], n - 1);
    }
  }

  lemma ExtendedByte(fields: map<UrlField, Span>, last: Option<UrlField>, buf: string, connect: bool, n: nat,
                     f: UrlField)
    requires n < |buf| && PartsSoFar(fields, last, buf, connect, n) && !StateAt(buf, connect, n + 1).Dead?
    requires LabelAt(buf, connect, n) == Some(f) && Whole(f)
    ensures PartsSoFar(Extended(fields, last, f, n), Some(f), buf, connect, n + 1)
  {
    hide StateAt, FieldOf, LabelAt;
    LastField(fields, last, buf, connect, n, f);
    var fields' := Extended(fields, last, f, n);
    assert Holds(fields, buf, connect, f, n);
    forall g | Whole(g) ensures Holds(fields', buf, connect, g, n + 1) {
      assert Holds(fields, buf, connect, g, n);
    }
  }

  lemma LabelsAreWhole(s: State)
    ensures FieldOf(s).Some? ==> Whole(FieldOf(s).value)
  {
  }

  /** The loop of http_parser_parse_url. */
  method ParseParts(buf: string, connect: bool) returns (ok: bool, fields: map<UrlField, Span>, foundAt: bool)
    ensures ok <==> !StateAt(buf, connect, |buf|).Dead?
    ensures ok ==> foundAt == SeesAt(buf, connect, |buf|)
    ensures ok ==> forall f :: f in fields ==> Whole(f)
    ensures ok ==> forall f :: Whole(f) ==> Holds(fields, buf, connect, f, |buf|)
  {
    hide ParseUrlChar, FieldOf, LabelAt, Holds;
    var s := StartOf(connect);
    fields, foundAt := map[], false;
    var last: Option<UrlField> := None;
    assert PartsSoFar(fields, last, buf, connect, 0) by { NoParts(buf, connect); }
    var i := 0;
    while i < |buf|
      invariant i <= |buf| && s == StateAt(buf, connect, i) && !s.Dead?
      invariant foundAt == SeesAt(buf, connect, i)
      invariant PartsSoFar(fields, last, buf, connect, i)
    {
      s := ParseUrlChar(s, buf[i]);
      assert s == StateAt(buf, connect, i + 1);
      if s.Dead? {
        DeadToTheEnd(buf, connect, i + 1);
        return false, fields, foundAt;
      }
      var uf := FieldOf(s);
      LabelIs(buf, connect, i);
      LabelsAreWhole(s);
      if s.ReqServerWithAt? {
        foundAt := true;
      }
      if uf.None? {
        SkippedByte(fields, last, buf, connect, i);
      } else {
        ExtendedByte(fields, last, buf, connect, i, uf.value);
        fields := Extended(fields, last, uf.value, i);
        last := uf;
      }
      i := i + 1;
    }
    ok := true;
  }

  lemma LabelIs(buf: string, connect: bool, k: nat)
    requires k < |buf|
    ensures LabelAt(buf, connect, k) == FieldOf(StateAt(buf, connect, k + 1))
  {
  }

  lemma NoParts(buf: string, connect: bool)
    ensures PartsSoFar(map[], None, buf, connect, 0)
  {
  }

  lemma {:induction false} DeadToTheEnd(buf: string, connect: bool, k: nat)
    requires k <= |buf| && StateAt(buf, connect, k).Dead?
    ensures StateAt(buf, connect, |buf|).Dead?
    decreases |buf| - k
  {
    hide ParseUrlChar;
    if k < |buf| {
      DeadStaysDead(buf[k]);
      DeadToTheEnd(buf, connect, k + 1);
    }
  }

  // ---------------------------------------------------------------- the authority

  predicate Divided(f: UrlField) { f.Userinfo? || f.Host? || f.Port? }

  /** The result of the authority's loop after n bytes, on top of the other fields. */
  ghost predicate HostSoFar(fields: map<UrlField, Span>, others: map<UrlField, Span>, w: string, foundAt: bool,
                            base: nat, n: nat)
    requires n <= |w|
  {
    && (forall f :: Divided(f) ==> HoldsHost(fields, w, foundAt, base, f, n))
    && (forall f :: !Divided(f) ==> (f in fields <==> f in others) && (f in fields ==> fields[f] == others[f]))
    && Host in fields
    && (forall f :: f in fields && f != Host && Divided(f) ==> fields[f].len > 0)
  }

  function HostExtended(fields: map<UrlField, Span>, same: bool, f: UrlField, at: nat): map<UrlField, Span> {
    if same && f in fields then fields[f := Span(fields[f].off, fields[f].len + 1)]
    else fields[f := Span(at, 1)]
  }

  /** A byte in the same state as the one before belongs to the same field; a byte in another state
      starts its field. */
  lemma HostField(w: string, foundAt: bool, n: nat, f: UrlField)
    requires n < |w| && !HostStateAt(w, foundAt, n + 1).HostDead?
    requires HostLabelAt(w, foundAt, n) == Some(f)
    ensures HostStateAt(w, foundAt, n) == HostStateAt(w, foundAt, n + 1) ==>
              n > 0 && HostLabelAt(w, foundAt, n - 1) == Some(f)
    ensures HostStateAt(w, foundAt, n) != HostStateAt(w, foundAt, n + 1) ==>
              forall k :: 0 <= k < n ==> HostLabelAt(w, foundAt, k) != Some(f)
  {
    hide ParseHostChar;
    var s, t := HostStateAt(w, foundAt, n), HostStateAt(w, foundAt, n + 1);
    HostCharAdvances(s, w[n]);
    if s != t {
      forall k | 0 <= k < n ensures HostLabelAt(w, foundAt, k) != Some(f) {
        if HostLabelAt(w, foundAt, k) == Some(f) {
          HostLabelsContiguous(w, foundAt, k, n - 1, n, f);
        }
      }
    }
  }

  lemma HostOther(fields: map<UrlField, Span>, fields': map<UrlField, Span>, w: string, foundAt: bool, base: nat,
                  g: UrlField, n: nat)
    requires n < |w| && HoldsHost(fields, w, foundAt, base, g, n) && HostLabelAt(w, foundAt, n) != Some(g)
    requires (g in fields <==> g in fields') && (g in fields ==> fields[g] == fields'[g])
    ensures HoldsHost(fields', w, foundAt, base, g, n + 1)
  {
    hide HostStateAt, HostFieldOf, HostLabelAt;
  }

  lemma HostLonger(fields: map<UrlField, Span>, fields': map<UrlField, Span>, w: string, foundAt: bool, base: nat,
                   f: UrlField, n: nat)
    requires 0 < n < |w| && HoldsHost(fields, w, foundAt, base, f, n)
    requires HostLabelAt(w, foundAt, n) == Some(f) && HostLabelAt(w, foundAt, n - 1) == Some(f)
    requires f in fields' && (f in fields ==> fields'[f] == Span(fields[f].off, fields[f].len + 1))
    ensures f in fields && HoldsHost(fields', w, foundAt, base, f, n + 1)
  {
    hide HostStateAt, HostFieldOf, HostLabelAt;
    assert Within(fields[f], base + (n - 1));
  }

  lemma HostBegun(fields: map<UrlField, Span>, w: string, foundAt: bool, base: nat, f: UrlField, n: nat)
    requires n < |w| && HostLabelAt(w, foundAt, n) == Some(f)
    requires forall k :: 0 <= k < n ==> HostLabelAt(w, foundAt, k) != Some(f)
    requires f in fields && fields[f] == Span(base + n, 1)
    ensures HoldsHost(fields, w, foundAt, base, f, n + 1)
  {
    hide HostStateAt, HostFieldOf, HostLabelAt;
  }

  lemma HostExtendedByte(fields: map<UrlField, Span>, others: map<UrlField, Span>, w: string, foundAt: bool,
                         base: nat, n: nat, f: UrlField)
    requires n < |w| && HostSoFar(fields, others, w, foundAt, base, n) && !HostStateAt(w, foundAt, n + 1).HostDead?
    requires HostLabelAt(w, foundAt, n) == Some(f) && Divided(f)
    ensures var same := HostStateAt(w, foundAt, n) == HostStateAt(w, foundAt, n + 1);
            HostSoFar(HostExtended(fields, same, f, base + n), others, w, foundAt, base, n + 1)
  {
    hide HostStateAt, HostFieldOf, HostLabelAt, HoldsHost;
    var same := HostStateAt(w, foundAt, n) == HostStateAt(w, foundAt, n + 1);
    HostField(w, foundAt, n, f);
    var fields' := HostExtended(fields, same, f, base + n);
    if same {
      HostKnown(fields, w, foundAt, base, f, n);
      HostLonger(fields, fields', w, foundAt, base, f, n);
    } else {
      HostBegun(fields', w, foundAt, base, f, n);
    }
    forall g | Divided(g) ensures HoldsHost(fields', w, foundAt, base, g, n + 1) {
      if g != f {
        HostOther(fields, fields', w, foundAt, base, g, n);
      }
    }
  }

  lemma HostKnown(fields: map<UrlField, Span>, w: string, foundAt: bool, base: nat, f: UrlField, n: nat)
    requires 0 < n <= |w| && HoldsHost(fields, w, foundAt, base, f, n) && HostLabelAt(w, foundAt, n - 1) == Some(f)
    ensures f in fields
  {
  }

  lemma HostSkippedByte(fields: map<UrlField, Span>, others: map<UrlField, Span>, w: string, foundAt: bool,
                        base: nat, n: nat)
    requires n < |w| && HostSoFar(fields, others, w, foundAt, base, n) && HostLabelAt(w, foundAt, n) == None
    ensures HostSoFar(fields, others, w, foundAt, base, n + 1)
  {
    hide HostStateAt, HostFieldOf, HostLabelAt;
    forall g | Divided(g) ensures HoldsHost(fields, w, foundAt, base, g, n + 1) {
      assert HoldsHost(fields, w, foundAt, base, g, n);
    }
  }

  /** The states in which an authority may end. */
  predicate HostEnds(s: HostState) { s.InHost? || s.V6End? || s.InPort? }

  lemma HostLabelsDivide(s: HostState)
    ensures HostFieldOf(s).Some? ==> Divided(HostFieldOf(s).value)
  {
  }

  lemma HostLabelIs(w: string, foundAt: bool, k: nat)
    requires k < |w|
    ensures HostLabelAt(w, foundAt, k) == HostFieldOf(HostStateAt(w, foundAt, k + 1))
  {
  }

  lemma {:induction false} HostDeadToTheEnd(w: string, foundAt: bool, k: nat)
    requires k <= |w| && HostStateAt(w, foundAt, k).HostDead?
    ensures HostStateAt(w, foundAt, |w|).HostDead?
    decreases |w| - k
  {
    hide ParseHostChar;
    if k < |w| {
      HostCharAdvances(HostDead, w[k]);
      HostDeadToTheEnd(w, foundAt, k + 1);
    }
  }

  /** http_parse_host */
  method ParseHost(buf: string, others: map<UrlField, Span>, foundAt: bool)
    returns (ok: bool, fields: map<UrlField, Span>)
    requires Host in others ==> others[Host].off + others[Host].len <= |buf|
    requires Userinfo !in others && Port !in others
    ensures var sp := if Host in others then others[Host] else Span(0, 0);
            var w := buf[sp.off..sp.off + sp.len];
            && (ok <==> HostEnds(HostStateAt(w, foundAt, |w|)))
            && (ok ==> HostSoFar(fields, others, w, foundAt, sp.off, |w|))
  {
    hide ParseHostChar, HostFieldOf, HostLabelAt, HoldsHost;
    var sp := if Host in others then others[Host] else Span(0, 0);
    var off, end := sp.off, sp.off + sp.len;
    ghost var w := buf[off..end];
    fields := others[Host := Span(off, 0)];
    var s := if foundAt then UserinfoStart else HostStart;
    assert HostSoFar(fields, others, w, foundAt, off, 0) by { NoHost(fields, others, w, foundAt, off); }
    var p := off;
    while p < end
      invariant off <= p <= end && s == HostStateAt(w, foundAt, p - off) && !s.HostDead?
      invariant HostSoFar(fields, others, w, foundAt, off, p - off)
    {
      var newS := ParseHostChar(s, buf[p]);
      assert buf[p] == w[p - off];
      assert newS == HostStateAt(w, foundAt, p - off + 1);
      if newS.HostDead? {
        HostDeadToTheEnd(w, foundAt, p - off + 1);
        return false, fields;
      }
      var f := HostFieldOf(newS);
      HostLabelIs(w, foundAt, p - off);
      HostLabelsDivide(newS);
      if f.Some? {
        HostExtendedByte(fields, others, w, foundAt, off, p - off, f.value);
        fields := HostExtended(fields, s == newS, f.value, p);
      } else {
        HostSkippedByte(fields, others, w, foundAt, off, p - off);
      }
      s := newS;
      p := p + 1;
    }
    ok := HostEnds(s);
  }

  lemma NoHost(fields: map<UrlField, Span>, others: map<UrlField, Span>, w: string, foundAt: bool, base: nat)
    requires Userinfo !in others && Port !in others && fields == others[Host := Span(base, 0)]
    ensures HostSoFar(fields, others, w, foundAt, base, 0)
  {
  }

  /** An authority that ends well has a host. */
  lemma {:induction false} HostSeen(w: string, foundAt: bool, n: nat)
    requires n <= |w| && !HostStateAt(w, foundAt, n).HostDead? && HostStage(HostStateAt(w, foundAt, n)) >= 4
    ensures exists k :: 0 <= k < n && HostLabelAt(w, foundAt, k) == Some(Host)
    decreases n
  {
    var s, t := HostStateAt(w, foundAt, n - 1), HostStateAt(w, foundAt, n);
    if HostFieldOf(t) == Some(Host) {
      assert HostLabelAt(w, foundAt, n - 1) == Some(Host);
    } else {
      HostStateAdvances(w, foundAt, n - 1, n);
      HostSeen(w, foundAt, n - 1);
    }
  }

  // ---------------------------------------------------------------- the whole URL

  /** The result structure; field_set is the domain of `fields`. */
  datatype UrlResult = UrlResult(fields: map<UrlField, Span>, port: nat)

  function Text(buf: string, sp: Span): string
    requires sp.off + sp.len <= |buf|
  {
    buf[sp.off..sp.off + sp.len]
  }

  function Rank(f: UrlField): nat {
    match f
    case Schema => 0
    case Userinfo => 1
    case Host => 2
    case Port => 3
    case Path => 4
    case Query => 5
    case Fragment => 6
  }

  predicate IsDelimiter(c: char) {
    c == ':' || c == '/' || c == '?' || c == '#' || c == '@' || c == '[' || c == ']'
  }

  /** Every field is inside the buffer and not empty. */
  predicate InBounds(fields: map<UrlField, Span>, n: nat) {
    forall f :: f in fields ==> 0 < fields[f].len && fields[f].off + fields[f].len <= n
  }

  /** The fields are disjoint, and in the order schema, userinfo, host, port, path, query, fragment. */
  predicate Ordered(fields: map<UrlField, Span>) {
    forall f, g :: f in fields && g in fields && Rank(f) < Rank(g) ==>
      fields[f].off + fields[f].len <= fields[g].off
  }

  predicate Covered(fields: map<UrlField, Span>, k: nat) {
    exists f :: f in fields && Within(fields[f], k)
  }

  /** Bytes outside all fields are delimiters. */
  predicate Complete(fields: map<UrlField, Span>, buf: string) {
    forall k :: 0 <= k < |buf| && !Covered(fields, k) ==> IsDelimiter(buf[k])
  }

  /** The authority, before it is divided. */
  function AuthoritySpan(parts: map<UrlField, Span>): Span {
    if Host in parts then parts[Host] else Span(0, 0)
  }

  ghost predicate PartsOf(parts: map<UrlField, Span>, buf: string, connect: bool) {
    && !StateAt(buf, connect, |buf|).Dead?
    && (forall f :: f in parts ==> Whole(f))
    && (forall f :: Whole(f) ==> Holds(parts, buf, connect, f, |buf|))
  }

  lemma PartsInBounds(parts: map<UrlField, Span>, buf: string, connect: bool)
    requires PartsOf(parts, buf, connect)
    ensures InBounds(parts, |buf|) && AuthoritySpan(parts).off + AuthoritySpan(parts).len <= |buf|
  {
    hide LabelAt, StateAt;
    forall f | f in parts ensures 0 < parts[f].len && parts[f].off + parts[f].len <= |buf| {
      assert Holds(parts, buf, connect, f, |buf|);
    }
  }

  /** The authority part divided into its fields. */
  ghost predicate HostOf(fields: map<UrlField, Span>, parts: map<UrlField, Span>, buf: string, connect: bool) {
    && AuthoritySpan(parts).off + AuthoritySpan(parts).len <= |buf|
    && var sp := AuthoritySpan(parts);
       var w := Text(buf, sp);
       && HostEnds(HostStateAt(w, SeesAt(buf, connect, |buf|), |w|))
       && HostSoFar(fields, parts, w, SeesAt(buf, connect, |buf|), sp.off, |w|)
  }

  ghost predicate Cut(fields: map<UrlField, Span>, parts: map<UrlField, Span>, buf: string, connect: bool) {
    && PartsOf(parts, buf, connect)
    && if Schema in parts || Host in parts then HostOf(fields, parts, buf, connect) else fields == parts
  }

  // ---------------------------------------------------------------- order

  lemma PartsOrdered(parts: map<UrlField, Span>, buf: string, connect: bool, f: UrlField, g: UrlField)
    requires PartsOf(parts, buf, connect) && f in parts && g in parts && Rank(f) < Rank(g)
    ensures parts[f].off + parts[f].len <= parts[g].off
  {
    hide ParseUrlChar, StateAt, FieldOf, Stage;
    assert Holds(parts, buf, connect, f, |buf|) && Holds(parts, buf, connect, g, |buf|);
    var k, j := parts[f].off + parts[f].len - 1, parts[g].off;
    assert Within(parts[f], k) && Within(parts[g], j);
    if j <= k {
      StateAdvances(buf, connect, k + 1, |buf|);
      StateAdvances(buf, connect, j + 1, k + 1);
      FieldByStage(StateAt(buf, connect, j + 1), g);
      FieldByStage(StateAt(buf, connect, k + 1), f);
    }
  }

  lemma HostFieldsInside(fields: map<UrlField, Span>, parts: map<UrlField, Span>, buf: string, connect: bool,
                         f: UrlField)
    requires PartsOf(parts, buf, connect) && HostOf(fields, parts, buf, connect) && f in fields && Divided(f)
    ensures Host in parts && 0 < fields[f].len
    ensures parts[Host].off <= fields[f].off && fields[f].off + fields[f].len <= parts[Host].off + parts[Host].len
  {
    hide HostStateAt, StateAt, HostLabelAt;
    var sp := AuthoritySpan(parts);
    var w, at := Text(buf, sp), SeesAt(buf, connect, |buf|);
    assert HoldsHost(fields, w, at, sp.off, f, |w|);
    HostSeenAtEnd(w, at);
    if f == Host {
      var k :| 0 <= k < |w| && HostLabelAt(w, at, k) == Some(Host);
      assert Within(fields[Host], sp.off + k);
    }
  }

  lemma HostSeenAtEnd(w: string, foundAt: bool)
    requires HostEnds(HostStateAt(w, foundAt, |w|))
    ensures w != [] && exists k :: 0 <= k < |w| && HostLabelAt(w, foundAt, k) == Some(Host)
  {
    hide ParseHostChar;
    HostSeen(w, foundAt, |w|);
  }

  lemma HostFieldsOrdered(fields: map<UrlField, Span>, parts: map<UrlField, Span>, buf: string, connect: bool,
                          f: UrlField, g: UrlField)
    requires PartsOf(parts, buf, connect) && HostOf(fields, parts, buf, connect)
    requires f in fields && g in fields && Divided(f) && Divided(g) && Rank(f) < Rank(g)
    ensures fields[f].off + fields[f].len <= fields[g].off
  {
    hide ParseHostChar, HostStateAt, HostFieldOf, HostStage, StateAt;
    HostFieldsInside(fields, parts, buf, connect, f);
    HostFieldsInside(fields, parts, buf, connect, g);
    var sp := AuthoritySpan(parts);
    var w, at := Text(buf, sp), SeesAt(buf, connect, |buf|);
    assert HoldsHost(fields, w, at, sp.off, f, |w|) && HoldsHost(fields, w, at, sp.off, g, |w|);
    var k, j := fields[f].off + fields[f].len - 1 - sp.off, fields[g].off - sp.off;
    assert Within(fields[f], sp.off + k) && Within(fields[g], sp.off + j);
    assert HostLabelAt(w, at, k) == Some(f) && HostLabelAt(w, at, j) == Some(g);
    if j <= k {
      HostStateAdvances(w, at, k + 1, |w|);
      HostStateAdvances(w, at, j + 1, k + 1);
      HostFieldByStage(HostStateAt(w, at, j + 1), g);
      HostFieldByStage(HostStateAt(w, at, k + 1), f);
    }
  }

  lemma CutPair(fields: map<UrlField, Span>, parts: map<UrlField, Span>, buf: string, connect: bool, f: UrlField,
                g: UrlField)
    requires Cut(fields, parts, buf, connect) && f in fields && g in fields && Rank(f) < Rank(g)
    ensures fields[f].off + fields[f].len <= fields[g].off
  {
    hide StateAt, HostStateAt, HoldsHost, Holds, PartsOf;
    if !(Schema in parts || Host in parts) {
      PartsOrdered(parts, buf, connect, f, g);
    } else if Divided(f) && Divided(g) {
      HostFieldsOrdered(fields, parts, buf, connect, f, g);
    } else if Divided(f) {
      HostFieldsInside(fields, parts, buf, connect, f);
      PartsOrdered(parts, buf, connect, Host, g);
    } else if Divided(g) {
      HostFieldsInside(fields, parts, buf, connect, g);
      PartsOrdered(parts, buf, connect, f, Host);
    } else {
      PartsOrdered(parts, buf, connect, f, g);
    }
  }

  /** The fields of an accepted URL are not empty, in bounds, disjoint and in order. */
  lemma CutInOrder(fields: map<UrlField, Span>, parts: map<UrlField, Span>, buf: string, connect: bool)
    requires Cut(fields, parts, buf, connect)
    ensures InBounds(fields, |buf|) && Ordered(fields)
  {
    hide StateAt, HostStateAt, HoldsHost, Holds;
    PartsInBounds(parts, buf, connect);
    forall f | f in fields ensures 0 < fields[f].len && fields[f].off + fields[f].len <= |buf| {
      if (Schema in parts || Host in parts) && Divided(f) {
        HostFieldsInside(fields, parts, buf, connect, f);
      }
    }
    forall f, g | f in fields && g in fields && Rank(f) < Rank(g)
      ensures fields[f].off + fields[f].len <= fields[g].off
    {
      CutPair(fields, parts, buf, connect, f, g);
    }
  }

  // ---------------------------------------------------------------- coverage

  lemma UncoveredIsDelimiter(fields: map<UrlField, Span>, parts: map<UrlField, Span>, buf: string, connect: bool,
                             k: nat)
    requires Cut(fields, parts, buf, connect) && k < |buf|
    ensures Covered(fields, k) || IsDelimiter(buf[k])
  {
    hide ParseUrlChar, ParseHostChar, HostFieldOf, FieldOf, Stage, SeesAt;
    StateAdvances(buf, connect, k + 1, |buf|);
    StateAdvances(buf, connect, k, k + 1);
    UrlCharAdvances(StateAt(buf, connect, k), buf[k]);
    LabelsAreWhole(StateAt(buf, connect, k + 1));
    var outer := LabelAt(buf, connect, k);
    if outer.Some? {
      var f := outer.value;
      assert Holds(parts, buf, connect, f, |buf|);
      assert f in parts && Within(parts[f], k);
      if f == Host {
        PartsInBounds(parts, buf, connect);
        var sp := AuthoritySpan(parts);
        var w, at := Text(buf, sp), SeesAt(buf, connect, |buf|);
        var m := k - sp.off;
        HostStateAdvances(w, at, m + 1, |w|);
        HostCharAdvances(HostStateAt(w, at, m), w[m]);
        HostLabelsDivide(HostStateAt(w, at, m + 1));
        var inner := HostLabelAt(w, at, m);
        if inner.Some? {
          assert HoldsHost(fields, w, at, sp.off, inner.value, |w|);
          assert Within(fields[inner.value], sp.off + m);
        }
      } else {
        assert !Divided(f);
        assert f in fields && Within(fields[f], k);
      }
    }
  }

  // ---------------------------------------------------------------- the port

  predicate AllDigits(w: string) {
    forall i :: 0 <= i < |w| ==> IsNum(w[i])
  }

  /** strtoul(buf + off, 0, 10) where a digit is at `off` and the buffer is not followed by one: the
      number spelled by the digits from there on, or the largest number if it does not fit. */
  method Strtoul(buf: string, off: nat) returns (v: nat, ghost end: nat)
    requires off <= |buf|
    ensures off <= end <= |buf| && AllDigits(buf[off..end]) && (end < |buf| ==> !IsNum(buf[end]))
    ensures v == if DecValue(buf[off..end]) > ULLONG_MAX then ULLONG_MAX else DecValue(buf[off..end])
  {
    v := 0;
    var i := off;
    assert DecValue([]) == 0;
    while i < |buf| && IsNum(buf[i])
      invariant off <= i <= |buf| && AllDigits(buf[off..i])
      invariant v == if DecValue(buf[off..i]) > ULLONG_MAX then ULLONG_MAX else DecValue(buf[off..i])
    {
      assert buf[off..i + 1] == buf[off..i] + [buf[i]];
      DecSnoc(buf[off..i], buf[i]);
      var t := v * 10 + Digit(buf[i]);
      v := if t > ULLONG_MAX then ULLONG_MAX else t;
      i := i + 1;
    }
    end := i;
  }

  lemma ServerDigit(s: State, ch: char)
    requires FieldOf(s) == Some(Host) && IsNum(ch)
    ensures FieldOf(ParseUrlChar(s, ch)) == Some(Host)
  {
  }

  /** The byte after the authority is not a digit. */
  lemma AuthorityEnds(parts: map<UrlField, Span>, buf: string, connect: bool)
    requires PartsOf(parts, buf, connect) && Host in parts
    ensures var end := parts[Host].off + parts[Host].len;
            end <= |buf| && (end < |buf| ==> !IsNum(buf[end]))
  {
    hide ParseUrlChar, FieldOf;
    assert Holds(parts, buf, connect, Host, |buf|);
    var end := parts[Host].off + parts[Host].len;
    assert Within(parts[Host], end - 1);
    assert LabelAt(buf, connect, end - 1) == Some(Host);
    assert !Within(parts[Host], end);
    if end < |buf| {
      assert LabelAt(buf, connect, end) != Some(Host);
      if IsNum(buf[end]) {
        ServerDigit(StateAt(buf, connect, end), buf[end]);
      }
    }
  }

  lemma PortDigit(s: HostState, ch: char)
    requires ParseHostChar(s, ch).InPort?
    ensures IsNum(ch)
  {
  }

  /** The port field reaches to the end of the authority and consists of digits. */
  lemma PortField(fields: map<UrlField, Span>, parts: map<UrlField, Span>, buf: string, connect: bool)
    requires PartsOf(parts, buf, connect) && HostOf(fields, parts, buf, connect) && Port in fields
    ensures Host in parts && fields[Port].off + fields[Port].len == parts[Host].off + parts[Host].len
    ensures fields[Port].off + fields[Port].len <= |buf| && AllDigits(Text(buf, fields[Port]))
  {
    hide ParseHostChar, StateAt, SeesAt, HostStage;
    HostFieldsInside(fields, parts, buf, connect, Port);
    PartsInBounds(parts, buf, connect);
    var sp := AuthoritySpan(parts);
    var w, at := Text(buf, sp), SeesAt(buf, connect, |buf|);
    assert HoldsHost(fields, w, at, sp.off, Port, |w|);
    var j := fields[Port].off - sp.off;
    assert Within(fields[Port], sp.off + j) && HostLabelAt(w, at, j) == Some(Port);
    HostStateAdvances(w, at, j + 1, |w|);
    HostFieldByStage(HostStateAt(w, at, j + 1), Port);
    HostStageLast(HostStateAt(w, at, |w|));
    assert HostLabelAt(w, at, |w| - 1) == Some(Port);
    assert Within(fields[Port], sp.off + (|w| - 1));
    var t := Text(buf, fields[Port]);
    forall i | 0 <= i < |t| ensures IsNum(t[i]) {
      var m := j + i;
      assert Within(fields[Port], sp.off + m) && HostLabelAt(w, at, m) == Some(Port);
      PortDigit(HostStateAt(w, at, m), w[m]);
      assert t[i] == w[m];
    }
  }

  lemma HostStageLast(s: HostState)
    requires !s.HostDead? && HostStage(s) >= 7
    ensures s.InPort?
  {
  }

  lemma DigitRunUnique(buf: string, off: nat, a: nat, b: nat)
    requires off <= a <= |buf| && off <= b <= |buf| && AllDigits(buf[off..a]) && AllDigits(buf[off..b])
    requires (a < |buf| ==> !IsNum(buf[a])) && (b < |buf| ==> !IsNum(buf[b]))
    ensures a == b
  {
  }

  // ---------------------------------------------------------------- http_parser_parse_url

  /** The port number that a result should hold. */
  function PortValue(fields: map<UrlField, Span>, buf: string): nat
    requires Port in fields ==> fields[Port].off + fields[Port].len <= |buf|
  {
    if Port in fields then DecValue(Text(buf, fields[Port])) else 0
  }

  /** Both loops: the parts, and the division of the authority. */
  method CutUrl(buf: string, connect: bool)
    returns (ok: bool, fields: map<UrlField, Span>, ghost parts: map<UrlField, Span>)
    ensures ok ==> Cut(fields, parts, buf, connect)
    ensures !ok ==>
              || StateAt(buf, connect, |buf|).Dead?
              || (PartsOf(parts, buf, connect) && (Schema in parts || Host in parts) && InBounds(parts, |buf|)
                  && !AuthorityAccepted(parts, buf, connect))
  {
    hide StateAt, HostStateAt, Holds, HoldsHost, SeesAt, HostEnds;
    var foundAt;
    ok, fields, foundAt := ParseParts(buf, connect);
    parts := fields;
    if ok {
      PartsInBounds(parts, buf, connect);
      if Schema in fields || Host in fields {
        ok, fields := ParseHost(buf, fields, foundAt);
      }
    }
  }

  /** The number of the port field; it is read from the buffer, past the end of the field if a digit
      stood there, which is never so. */
  method ReadPort(buf: string, connect: bool, fields: map<UrlField, Span>, ghost parts: map<UrlField, Span>)
    returns (v: nat)
    requires Cut(fields, parts, buf, connect) && Port in fields && InBounds(fields, |buf|)
    ensures v > 0xFFFF <==> PortValue(fields, buf) > 0xFFFF
    ensures v <= 0xFFFF ==> v == PortValue(fields, buf)
    ensures AllDigits(Text(buf, fields[Port]))
  {
    hide StateAt, HostStateAt, Holds, HoldsHost, SeesAt, HostEnds;
    PortField(fields, parts, buf, connect);
    AuthorityEnds(parts, buf, connect);
    var sp := fields[Port];
    ghost var end;
    v, end := Strtoul(buf, sp.off);
    DigitRunUnique(buf, sp.off, end, sp.off + sp.len);
  }

  lemma CutIsComplete(fields: map<UrlField, Span>, parts: map<UrlField, Span>, buf: string, connect: bool)
    requires Cut(fields, parts, buf, connect)
    ensures Complete(fields, buf)
  {
    hide Cut, Covered, IsDelimiter;
    forall k | 0 <= k < |buf| && !Covered(fields, k) ensures IsDelimiter(buf[k]) {
      UncoveredIsDelimiter(fields, parts, buf, connect, k);
    }
  }

  ghost predicate AuthorityAccepted(parts: map<UrlField, Span>, buf: string, connect: bool)
    requires AuthoritySpan(parts).off + AuthoritySpan(parts).len <= |buf|
  {
    var w := Text(buf, AuthoritySpan(parts));
    HostEnds(HostStateAt(w, SeesAt(buf, connect, |buf|), |w|))
  }
}
