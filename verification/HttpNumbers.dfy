/**
 The numbers in a message, Content-Length and chunk sizes: when the wrapping 64-bit accumulation
 with its one-step overflow test gives the number that was written.
 */
module HttpNumbers {
  import opened HttpTypes
  import opened HttpSwitch
  import opened HttpRun
  import opened HttpBytes

  // ---------------------------------------------------------------- the written numbers

  /** A Content-Length value: a digit, then digits and blanks. */
  predicate IsLength(w: string) {
    w != [] && IsNum(w[0]) && forall i :: 0 <= i < |w| ==> IsNum(w[i]) || w[i] == ' '
  }

  /** The decimal number that the digits of `w` spell; other characters do not count. */
  function DecValue(w: string): nat {
    if w == [] then 0
    else
      var v, c := DecValue(w[..|w| - 1]), w[|w| - 1];
      if IsNum(c) then 10 * v + Digit(c) else v
  }

  function LastDigit(n: nat): (d: char)
    ensures IsNum(d) && Digit(d) == n % 10
  {
    ('0' as int + n % 10) as char
  }

  /** The %d and %u conversions of a number that is not negative. */
  function DecOf(n: nat): (w: string)
    ensures w != [] && forall i :: 0 <= i < |w| ==> IsNum(w[i])
  {
    if n < 10 then [LastDigit(n)] else DecOf(n / 10) + [LastDigit(n)]
  }

  predicate AllHex(w: string) {
    forall i :: 0 <= i < |w| ==> IsHex(w[i])
  }

  function HexValue(w: string): nat
    requires AllHex(w)
  {
    if w == [] then 0 else 16 * HexValue(w[..|w| - 1]) + HexDigit(w[|w| - 1])
  }

  // ---------------------------------------------------------------- one step

  /** A step whose result fits is exact; a step to 2^64 - 1 is an overflow. */
  lemma AccumulateExact(n: nat, base: nat, digit: nat)
    requires 1 <= base
    ensures n * base + digit < ULLONG_MAX ==> Accumulate(n, base, digit) == Some(n * base + digit)
    ensures n * base + digit == ULLONG_MAX ==> Accumulate(n, base, digit) == None
  {
    assert n <= n * base;
    if n * base + digit < TWO64 {
      assert (n * base + digit) % TWO64 == n * base + digit;
    }
  }

  lemma FirstLengthByte(cb: Callbacks, p: Parser, ch: char)
    requires p.state.HeaderValueStart? && p.headerState.ContentLength? && p.errno.OK? && Room(p, 1)
    requires IsNum(ch)
    ensures Byte(cb, p, ch) ==
            Step(p.(state := HeaderValue, index := 0, nread := p.nread + 1, contentLength := Digit(ch)),
                 [Data(Value, [ch])], Advance)
  {
    hide Handle, Byte;
    OnePass(cb, p, ch);
    InValuePart(cb, Counted(p), ch);
  }

  lemma NextLengthByte(cb: Callbacks, p: Parser, ch: char)
    requires p.state.HeaderValue? && p.headerState.ContentLength? && p.errno.OK? && Room(p, 1)
    requires IsNum(ch) || ch == ' '
    ensures var q := p.(nread := p.nread + 1);
            var t := if ch == ' ' then Some(p.contentLength) else Accumulate(p.contentLength, 10, Digit(ch));
            Byte(cb, p, ch) ==
              if t.Some? then Step(q.(contentLength := t.value), [Data(Value, [ch])], Advance)
              else Step(q.(errno := InvalidContentLength), [], Fail)
  {
    hide Handle, Byte, Accumulate;
    OnePass(cb, p, ch);
    InValuePart(cb, Counted(p), ch);
  }

  lemma ChunkSizeByte(cb: Callbacks, p: Parser, ch: char)
    requires p.state.ChunkSizeStart? || p.state.ChunkSize?
    requires p.errno.OK? && Room(p, 1) && IsHex(ch)
    ensures var q := p.(nread := p.nread + 1);
            var t := if p.state.ChunkSizeStart? then Some(HexDigit(ch))
                     else Accumulate(p.contentLength, 16, HexDigit(ch));
            Byte(cb, p, ch) ==
              if t.Some? then Step(q.(state := ChunkSize, contentLength := t.value), [], Advance)
              else Step(q.(errno := InvalidContentLength), [], Fail)
  {
    hide Handle, Byte, Accumulate;
    OnePass(cb, p, ch);
    InChunkPart(cb, Counted(p), ch);
  }

  // ---------------------------------------------------------------- whole numbers

  /** The parser at the first byte of a Content-Length value. */
  predicate AtLength(p: Parser, w: string) {
    p.state.HeaderValueStart? && p.headerState.ContentLength? && p.errno.OK? && Room(p, |w|) && IsLength(w)
  }

  function LengthRead(p: Parser, w: string, n: nat): Parser {
    p.(state := HeaderValue, index := 0, nread := p.nread + |w|, contentLength := n)
  }

  lemma LengthPrefix(w: string)
    requires IsLength(w) && |w| > 1
    ensures IsLength(w[..|w| - 1]) && DecValue(w[..|w| - 1]) <= DecValue(w)
  {
  }

  /** A Content-Length below 2^64 - 1 is read exactly. */
  lemma {:induction false} LengthRun(cb: Callbacks, p: Parser, w: string)
    requires AtLength(p, w) && DecValue(w) < ULLONG_MAX
    ensures Run(cb, p, w) == Ran(LengthRead(p, w, DecValue(w)), Bytewise(Value, w), |w|)
    decreases |w|
  {
    hide Byte, Run, Accumulate, Bytewise;
    var w', c := w[..|w| - 1], w[|w| - 1];
    assert w == w' + [c];
    if w' == [] {
      assert w == [c] && DecValue(w') == 0;
      RunOne(cb, p, c);
      FirstLengthByte(cb, p, c);
      BytewiseOne(Value, c);
    } else {
      LengthPrefix(w);
      LengthRun(cb, p, w');
      RunFurther(cb, p, w, |w'|);
      assert w[..|w'| + 1] == w;
      NextLengthByte(cb, LengthRead(p, w', DecValue(w')), c);
      AccumulateExact(DecValue(w'), 10, if IsNum(c) then Digit(c) else 0);
      BytewiseSnoc(Value, w', c);
    }
  }

  /** An accepted value leaves a number below 2^64 - 1. */
  lemma {:induction false} LengthBounded(cb: Callbacks, p: Parser, w: string)
    requires AtLength(p, w)
    ensures var r := Run(cb, p, w);
            r.p.errno.OK? ==> r.p.contentLength < ULLONG_MAX && r.p == LengthRead(p, w, r.p.contentLength)
    decreases |w|
  {
    hide Byte, Run, Accumulate;
    var w', c := w[..|w| - 1], w[|w| - 1];
    if w' == [] {
      assert w == [c];
      RunOne(cb, p, c);
      FirstLengthByte(cb, p, c);
    } else {
      LengthPrefix(w);
      LengthBounded(cb, p, w');
      var r' := Run(cb, p, w');
      assert w == w' + [c];
      RunConcat(cb, p, w', [c]);
      if r'.p.errno.OK? {
        RunOne(cb, r'.p, c);
        NextLengthByte(cb, r'.p, c);
      } else {
        RunStopped(cb, r'.p, [c]);
      }
    }
  }

  /** Content-Length is read as written exactly when what is written is below 2^64 - 1. */
  lemma LengthExact(cb: Callbacks, p: Parser, w: string)
    requires AtLength(p, w)
    ensures var r := Run(cb, p, w);
            (r.p.errno.OK? && r.p.contentLength == DecValue(w)) <==> DecValue(w) < ULLONG_MAX
  {
    hide Run;
    LengthBounded(cb, p, w);
    if DecValue(w) < ULLONG_MAX {
      LengthRun(cb, p, w);
    }
  }

  /** The number 2^64 - 1 itself is rejected. */
  lemma LengthMaxRejected(cb: Callbacks, p: Parser, w: string)
    requires AtLength(p, w) && DecValue(w) == ULLONG_MAX
    ensures Run(cb, p, w).p.errno == InvalidContentLength
    decreases |w|
  {
    hide Byte, Run, Accumulate;
    var w', c := w[..|w| - 1], w[|w| - 1];
    assert w == w' + [c];
    if w' != [] {
      LengthPrefix(w);
      RunConcat(cb, p, w', [c]);
      if c == ' ' {
        LengthMaxRejected(cb, p, w');
        RunStopped(cb, Run(cb, p, w').p, [c]);
      } else {
        LengthRun(cb, p, w');
        var q := LengthRead(p, w', DecValue(w'));
        RunOne(cb, q, c);
        NextLengthByte(cb, q, c);
        AccumulateExact(DecValue(w'), 10, Digit(c));
      }
    }
  }

  /** One digit more than a length that was read. */
  lemma LengthAndDigit(cb: Callbacks, p: Parser, w: string, n: nat)
    requires AtLength(p, w + ['0']) && AtLength(p, w) && DecValue(w) < ULLONG_MAX
    requires Accumulate(DecValue(w), 10, 0) == Some(n)
    ensures Run(cb, p, w + ['0']).p == LengthRead(p, w + ['0'], n)
  {
    hide Byte, Run, Accumulate, IsLength;
    LengthRun(cb, p, w);
    RunConcat(cb, p, w, ['0']);
    var q := LengthRead(p, w, DecValue(w));
    RunOne(cb, q, '0');
    NextLengthByte(cb, q, '0');
  }

  /** The overflow test looks at one step only, so a larger number can slip through it: the value
      30000000000000000000 is accepted as 11553255926290448384. */
  lemma LengthOverflowMissed(cb: Callbacks, p: Parser)
    requires AtLength(p, "30000000000000000000")
    ensures var w := "30000000000000000000";
            && DecValue(w) == 30000000000000000000
            && Run(cb, p, w).p == LengthRead(p, w, 11553255926290448384)
  {
    hide Run, Accumulate, LengthRead;
    var w := "30000000000000000000";
    var w' := w[..|w| - 1];
    assert w == w' + ['0'];
    ThreeAndZeros(w');
    DecSnoc(w', '0');
    SlipsThrough();
    LengthAndDigit(cb, p, w', 11553255926290448384);
  }

  lemma DecSnoc(w: string, c: char)
    requires IsNum(c)
    ensures DecValue(w + [c]) == 10 * DecValue(w) + Digit(c)
  {
    assert (w + [c])[..|w|] == w;
  }

  lemma DecThousand(w: string)
    ensures DecValue(w + "000") == 1000 * DecValue(w)
  {
    DecSnoc(w, '0');
    DecSnoc(w + "0", '0');
    DecSnoc(w + "00", '0');
    assert w + "0" + ['0'] == w + "00" && w + "00" + ['0'] == w + "000";
  }

  lemma ThreeAndZeros(w: string)
    requires w == "3000000000000000000"
    ensures DecValue(w) == 3000000000000000000
  {
    var a := "3" + "000";
    var b := a + "000";
    var c := b + "000";
    var d := c + "000";
    var e := d + "000";
    DecThousand("3");
    DecThousand(a);
    DecThousand(b);
    DecThousand(c);
    DecThousand(d);
    DecThousand(e);
    assert w == e + "000";
    DecSnoc([], '3');
    assert [] + ['3'] == "3";
  }

  lemma SlipsThrough()
    ensures Accumulate(3000000000000000000, 10, 0) == Some(11553255926290448384)
  {
  }

  // ---------------------------------------------------------------- chunk sizes

  predicate AtChunkSize(p: Parser, w: string) {
    p.state.ChunkSizeStart? && p.errno.OK? && Room(p, |w|) && w != [] && AllHex(w)
  }

  function SizeRead(p: Parser, w: string, n: nat): Parser {
    p.(state := ChunkSize, nread := p.nread + |w|, contentLength := n)
  }

  /** A chunk size below 2^64 - 1 is read exactly. */
  lemma {:induction false} SizeRun(cb: Callbacks, p: Parser, w: string)
    requires AtChunkSize(p, w) && HexValue(w) < ULLONG_MAX
    ensures Run(cb, p, w) == Ran(SizeRead(p, w, HexValue(w)), [], |w|)
    decreases |w|
  {
    hide Byte, Run, Accumulate;
    var w', c := w[..|w| - 1], w[|w| - 1];
    assert w == w' + [c];
    if w' == [] {
      assert w == [c];
      RunOne(cb, p, c);
      ChunkSizeByte(cb, p, c);
    } else {
      SizeRun(cb, p, w');
      RunFurther(cb, p, w, |w'|);
      assert w[..|w'| + 1] == w;
      ChunkSizeByte(cb, SizeRead(p, w', HexValue(w')), c);
      AccumulateExact(HexValue(w'), 16, HexDigit(c));
    }
  }

  /** Chunk sizes are read as written exactly when what is written is below 2^64 - 1. */
  lemma {:induction false} SizeExact(cb: Callbacks, p: Parser, w: string)
    requires AtChunkSize(p, w)
    ensures var r := Run(cb, p, w);
            (r.p.errno.OK? && r.p.contentLength == HexValue(w)) <==> HexValue(w) < ULLONG_MAX
  {
    hide Run;
    SizeBounded(cb, p, w);
    if HexValue(w) < ULLONG_MAX {
      SizeRun(cb, p, w);
    }
  }

  lemma {:induction false} SizeBounded(cb: Callbacks, p: Parser, w: string)
    requires AtChunkSize(p, w)
    ensures var r := Run(cb, p, w);
            r.p.errno.OK? ==> r.p.contentLength < ULLONG_MAX && r.p == SizeRead(p, w, r.p.contentLength)
    decreases |w|
  {
    hide Byte, Run, Accumulate;
    var w', c := w[..|w| - 1], w[|w| - 1];
    assert w == w' + [c];
    if w' == [] {
      assert w == [c];
      RunOne(cb, p, c);
      ChunkSizeByte(cb, p, c);
    } else {
      SizeBounded(cb, p, w');
      var r' := Run(cb, p, w');
      RunConcat(cb, p, w', [c]);
      if r'.p.errno.OK? {
        RunOne(cb, r'.p, c);
        ChunkSizeByte(cb, r'.p, c);
      } else {
        RunStopped(cb, r'.p, [c]);
      }
    }
  }
}
