/**
 The chunked transfer coding of section 4.1 of RFC 7230 (without trailers) on plain byte
 sequences: the grammar a sender writes, and the decoder the HTTP client refines.
 */
module ChunkCoding {
  import opened Bytes

  // ---------------------------------------------------------------- size lines

  datatype SizeResult =
    | Line(size: nat, rest: seq<Byte>)
    | BadLine
    | OpenLine   // the bytes end before the line does

  /** Appends a hexadecimal digit to a 32-bit number: the high bits fall off. */
  function Shift(size: nat, digit: nat): nat {
    (size * 16 + digit) % UINT_RANGE
  }

  /** Shifting first and adding the digit afterwards, each in 32 bits, is the same. */
  lemma ShiftWraps(size: nat, digit: nat)
    ensures (size * 16 % UINT_RANGE + digit) % UINT_RANGE == Shift(size, digit)
  {
    var q, r := size * 16 / UINT_RANGE, size * 16 % UINT_RANGE;
    assert size * 16 + digit == r + digit + q * UINT_RANGE;
  }

  /** Where a reader is in a size line: the number so far, and whether it is inside a chunk extension. */
  datatype LineState = Reading(size: nat, extension: bool) | AtCR | Rejected

  function LineStep(size: nat, extension: bool, b: Byte): LineState {
    if extension && b != CR then Reading(size, extension)
    else if HexDigit(b) >= 0 then Reading(Shift(size, HexDigit(b)), extension)
    else if b == CR then AtCR
    else if b == ';' as int then Reading(size, true)
    else Rejected
  }

  function LineEnd(s: seq<Byte>, size: nat): SizeResult {
    if s == [] then OpenLine else if s[0] == LF then Line(size, s[1..]) else BadLine
  }

  function SizeLine(s: seq<Byte>, size: nat, extension: bool): SizeResult {
    if s == [] then OpenLine
    else match LineStep(size, extension, s[0])
      case Reading(size', extension') => SizeLine(s[1..], size', extension')
      case AtCR => LineEnd(s[1..], size)
      case Rejected => BadLine
  }

  /** The number written by hexadecimal digits, most significant first. */
  function HexValue(digits: seq<Byte>): nat
    requires HexDigits(digits)
  {
    if digits == [] then 0
    else
      var d := digits[|digits| - 1];
      assert IsHexDigit(d);
      HexValue(digits[..|digits| - 1]) * 16 + HexDigit(d)
  }

  predicate HexDigits(digits: seq<Byte>) {
    forall i :: 0 <= i < |digits| ==> IsHexDigit(digits[i])
  }

  /** The number that repeated shifting makes of the digits. */
  function ShiftedValue(digits: seq<Byte>): nat
    requires HexDigits(digits)
  {
    if digits == [] then 0
    else
      var d := digits[|digits| - 1];
      assert IsHexDigit(d);
      Shift(ShiftedValue(digits[..|digits| - 1]), HexDigit(d))
  }

  lemma ShiftModulo(v: nat, d: nat)
    ensures Shift(v % UINT_RANGE, d) == (v * 16 + d) % UINT_RANGE
  {
    var q := v / UINT_RANGE;
    assert v * 16 + d == v % UINT_RANGE * 16 + d + q * 16 * UINT_RANGE;
  }

  lemma {:induction false} ShiftedIsModulo(digits: seq<Byte>)
    requires HexDigits(digits)
    ensures ShiftedValue(digits) == HexValue(digits) % UINT_RANGE
  {
    if digits != [] {
      var init, d := digits[..|digits| - 1], digits[|digits| - 1];
      assert IsHexDigit(d);
      ShiftedIsModulo(init);
      ShiftModulo(HexValue(init), HexDigit(d));
    }
  }

  /** A chunk extension: nothing, or a semicolon and anything that holds no carriage return. */
  predicate Extension(e: seq<Byte>) {
    e != [] ==> e[0] == ';' as int && forall i :: 0 <= i < |e| ==> e[i] != CR
  }

  lemma {:induction false} SkipExtension(e: seq<Byte>, size: nat, rest: seq<Byte>)
    requires forall i :: 0 <= i < |e| ==> e[i] != CR
    ensures SizeLine(e + CRLF + rest, size, true) == Line(size, rest)
  {
    var s := e + CRLF + rest;
    if e == [] {
      assert s[0] == CR && s[1] == LF && s[2..] == rest;
    } else {
      assert s[0] == e[0] && s[1..] == e[1..] + CRLF + rest;
      SkipExtension(e[1..], size, rest);
    }
  }

  lemma {:induction false} ReadDigits(done: seq<Byte>, digits: seq<Byte>, e: seq<Byte>, rest: seq<Byte>)
    requires HexDigits(done) && HexDigits(digits) && Extension(e)
    ensures SizeLine(digits + e + CRLF + rest, ShiftedValue(done), false)
         == Line(ShiftedValue(done + digits), rest)
    decreases |digits|
  {
    var s := digits + e + CRLF + rest;
    if digits != [] {
      var next := done + [digits[0]];
      assert IsHexDigit(digits[0]) && next[..|next| - 1] == done;
      assert done + digits == next + digits[1..];
      assert s[1..] == digits[1..] + e + CRLF + rest;
      ReadDigits(next, digits[1..], e, rest);
    } else if e == [] {
      assert done + digits == done;
      assert s[0] == CR && s[1] == LF && s[2..] == rest;
    } else {
      assert done + digits == done;
      assert s[0] == ';' as int && s[1..] == e[1..] + CRLF + rest;
      SkipExtension(e[1..], ShiftedValue(done), rest);
    }
  }

  /** The shape of every line the decoder accepts. */
  ghost predicate IsSizeLine(s: seq<Byte>, size: nat, rest: seq<Byte>, digits: seq<Byte>, e: seq<Byte>) {
    HexDigits(digits) && Extension(e) && s == digits + e + CRLF + rest && size == HexValue(digits) % UINT_RANGE
  }

  lemma {:induction false} AcceptedExtension(s: seq<Byte>, size: nat) returns (e: seq<Byte>)
    requires SizeLine(s, size, true).Line?
    ensures forall i :: 0 <= i < |e| ==> e[i] != CR
    ensures SizeLine(s, size, true).size == size && s == e + CRLF + SizeLine(s, size, true).rest
  {
    if s[0] == CR {
      e := [];
      assert s == [s[0], s[1]] + s[2..];
    } else {
      var tail := AcceptedExtension(s[1..], size);
      e := [s[0]] + tail;
      assert s == [s[0]] + s[1..];
    }
  }

  lemma {:induction false} AppendDigit(done: seq<Byte>, d: Byte)
    requires HexDigits(done) && IsHexDigit(d)
    ensures HexDigits(done + [d])
    ensures ShiftedValue(done + [d]) == Shift(ShiftedValue(done), HexDigit(d))
  {
    assert (done + [d])[..|done + [d]| - 1] == done;
  }

  lemma {:induction false} DigitFirst(done: seq<Byte>, s: seq<Byte>)
    requires HexDigits(done) && s != [] && IsHexDigit(s[0])
    ensures HexDigits(done + [s[0]])
    ensures SizeLine(s, ShiftedValue(done), false) == SizeLine(s[1..], ShiftedValue(done + [s[0]]), false)
  {
    AppendDigit(done, s[0]);
    hide HexDigits, ShiftedValue;
  }

  lemma DigitsJoin(done: seq<Byte>, b: Byte, ds: seq<Byte>, tail: seq<Byte>)
    requires IsHexDigit(b) && HexDigits(ds)
    ensures HexDigits([b] + ds) && done + [b] + ds == done + ([b] + ds) && [b] + (ds + tail) == [b] + ds + tail
  {
  }

  /** Splits an accepted line behind its digits. */
  lemma {:induction false} AcceptedDigits(done: seq<Byte>, s: seq<Byte>) returns (digits: seq<Byte>, tail: seq<Byte>)
    requires HexDigits(done)
    requires SizeLine(s, ShiftedValue(done), false).Line?
    ensures HexDigits(digits) && s == digits + tail
    ensures tail != [] && !IsHexDigit(tail[0])
    ensures HexDigits(done + digits)
    ensures SizeLine(s, ShiftedValue(done), false) == SizeLine(tail, ShiftedValue(done + digits), false)
    decreases |s|
  {
    if s != [] && IsHexDigit(s[0]) {
      DigitFirst(done, s);
      hide SizeLine, HexDigits, ShiftedValue, IsHexDigit;
      var ds;
      ds, tail := AcceptedDigits(done + [s[0]], s[1..]);
      digits := [s[0]] + ds;
      DigitsJoin(done, s[0], ds, tail);
      assert s == [s[0]] + s[1..];
    } else {
      digits, tail := [], s;
      assert done + digits == done;
    }
  }

  lemma AcceptedTail(tail: seq<Byte>, size: nat) returns (e: seq<Byte>)
    requires tail != [] && !IsHexDigit(tail[0])
    requires SizeLine(tail, size, false).Line?
    ensures Extension(e) && SizeLine(tail, size, false).size == size
    ensures tail == e + CRLF + SizeLine(tail, size, false).rest
  {
    if tail[0] == CR {
      e := [];
      assert tail == [tail[0], tail[1]] + tail[2..];
    } else {
      e := AcceptedExtension(tail[1..], size);
      e := [tail[0]] + e;
      assert tail == [tail[0]] + tail[1..];
    }
  }

  /**
   The size lines the client accepts, exactly: hexadecimal digits (possibly none), an optional extension
   introduced by a semicolon, and CRLF; the size is the number the digits write, modulo the 32-bit range.
   */
  lemma {:induction false} SizeLineLanguage(s: seq<Byte>, size: nat, rest: seq<Byte>)
    ensures SizeLine(s, 0, false) == Line(size, rest)
       <==> exists digits, e :: IsSizeLine(s, size, rest, digits, e)
  {
    if SizeLine(s, 0, false) == Line(size, rest) {
      var digits, tail := AcceptedDigits([], s);
      assert [] + digits == digits;
      var e := AcceptedTail(tail, ShiftedValue(digits));
      ShiftedIsModulo(digits);
      assert IsSizeLine(s, size, rest, digits, e);
    }
    if exists digits, e :: IsSizeLine(s, size, rest, digits, e) {
      var digits, e :| IsSizeLine(s, size, rest, digits, e);
      ReadDigits([], digits, e, rest);
      assert [] + digits == digits;
      ShiftedIsModulo(digits);
    }
  }

  // ---------------------------------------------------------------- the decoder

  datatype Decoded =
    | Done(content: seq<Byte>, rest: seq<Byte>)
    | Malformed
    | Truncated   // the bytes end before the last chunk does

  function Prepend(b: seq<Byte>, d: Decoded): Decoded {
    if d.Done? then Done(b + d.content, d.rest) else d
  }

  datatype Ending = Ended | NotEnded | Cut

  /** Whether the two bytes at `n` are CRLF. */
  function EndOfChunk(s: seq<Byte>, n: nat): Ending {
    if |s| <= n then Cut
    else if s[n] != CR then NotEnded
    else if |s| == n + 1 then Cut
    else if s[n + 1] != LF then NotEnded
    else Ended
  }

  lemma EndOfChunkShift(s: seq<Byte>, n: nat)
    requires n <= |s|
    ensures EndOfChunk(s, n) == EndOfChunk(s[n..], 0)
  {
  }

  /**
   Decodes the rest of a chunked body when `owed` bytes of an open chunk are still to come
   (zero: a size line is next).
   */
  function Decode(owed: nat, s: seq<Byte>): Decoded
    decreases |s|, if owed == 0 then 1 else 0
  {
    if owed == 0 then
      match SizeLine(s, 0, false)
      case BadLine => Malformed
      case OpenLine => Truncated
      case Line(size, rest) =>
        SizeLineConsumes(s, 0, false);
        if size > 0 then Decode(size, rest)
        else match EndOfChunk(rest, 0)
          case Ended => Done([], rest[2..])
          case NotEnded => Malformed
          case Cut => Truncated
    else
      match EndOfChunk(s, owed)
      case Ended => Prepend(s[..owed], Decode(0, s[owed + 2..]))
      case NotEnded => Malformed
      case Cut => Truncated
  }

  lemma {:induction false} SizeLineConsumes(s: seq<Byte>, size: nat, extension: bool)
    ensures SizeLine(s, size, extension).Line? ==> |SizeLine(s, size, extension).rest| <= |s| - 2
    decreases |s|
  {
    if s != [] {
      var step := LineStep(size, extension, s[0]);
      if step.Reading? {
        SizeLineConsumes(s[1..], step.size, step.extension);
      }
    }
  }

  // ---------------------------------------------------------------- one delivery

  /** The open chunk: its missing byte count and the bytes that follow, once a pending size line is read. */
  datatype Open = OpenChunk(size: nat, rest: seq<Byte>) | LastChunk(rest: seq<Byte>) | NoChunk(why: Decoded)

  function OpenOf(owed: nat, s: seq<Byte>): Open {
    if owed > 0 then OpenChunk(owed, s)
    else match SizeLine(s, 0, false)
      case BadLine => NoChunk(Malformed)
      case OpenLine => NoChunk(Truncated)
      case Line(size, rest) => if size > 0 then OpenChunk(size, rest) else LastChunk(rest)
  }

  /** What decoding comes to, by the state of the open chunk. */
  lemma {:induction false} OpenDecodes(owed: nat, s: seq<Byte>)
    ensures match OpenOf(owed, s)
      case NoChunk(why) => Decode(owed, s) == why && (why == Malformed || why == Truncated)
      case LastChunk(rest) =>
        Decode(owed, s) == (match EndOfChunk(rest, 0)
                            case Ended => Done([], rest[2..])
                            case NotEnded => Malformed
                            case Cut => Truncated)
      case OpenChunk(n, rest) =>
        && n > 0
        && (EndOfChunk(rest, n) == NotEnded ==> Decode(owed, s) == Malformed)
        && (EndOfChunk(rest, n) == Cut ==> Decode(owed, s) == Truncated)
  {
    SizeLineConsumes(s, 0, false);
  }

  /**
   What one successful call may do to the decoding state: hand out a non-empty run of bytes `b` of the
   open chunk only, and step over the chunk's closing CRLF when the chunk is complete.
   */
  ghost predicate Delivers(owed: nat, s: seq<Byte>, b: seq<Byte>, owed': nat, s': seq<Byte>) {
    var o := OpenOf(owed, s);
    && o.OpenChunk?
    && 0 < |b| <= o.size
    && b <= o.rest
    && (|b| < o.size ==> owed' == o.size - |b| && s' == o.rest[|b|..])
    && (|b| == o.size ==> EndOfChunk(o.rest, o.size) == Ended && owed' == 0 && s' == o.rest[o.size + 2..])
  }

  lemma EndingBehind(d: seq<Byte>, m: nat, n: nat)
    requires m < n && m <= |d|
    ensures EndOfChunk(d, n) == EndOfChunk(d[m..], n - m)
    ensures EndOfChunk(d, n) == Ended ==>
      && n + 2 <= |d| && d[..n] == d[..m] + d[m..][..n - m] && d[m..][n - m + 2..] == d[n + 2..]
  {
  }

  /** Taking part of an open chunk. */
  lemma PartDecodes(n: nat, d: seq<Byte>, m: nat)
    requires 0 < m < n && m <= |d|
    ensures Decode(n, d) == Prepend(d[..m], Decode(n - m, d[m..]))
  {
    EndingBehind(d, m, n);
    if EndOfChunk(d, n) == Ended {
      var tail := Decode(0, d[n + 2..]);
      if tail.Done? {
        Assoc(d[..m], d[m..][..n - m], tail.content);
      }
    }
  }

  lemma {:induction false} OpenedDecodes(owed: nat, s: seq<Byte>)
    ensures var o := OpenOf(owed, s);
      o.OpenChunk? ==> o.size > 0 && |o.rest| <= |s| && Decode(owed, s) == Decode(o.size, o.rest)
  {
    SizeLineConsumes(s, 0, false);
  }

  /** A delivery takes its bytes off the front of the decoded content, whatever the rest decodes to. */
  lemma {:induction false} DeliveryDecodes(owed: nat, s: seq<Byte>, b: seq<Byte>, owed': nat, s': seq<Byte>)
    requires Delivers(owed, s, b, owed', s')
    ensures Decode(owed, s) == Prepend(b, Decode(owed', s'))
    ensures |s'| + |b| <= |s|
  {
    OpenedDecodes(owed, s);
    hide OpenOf;
    var o := OpenOf(owed, s);
    var d := o.rest;
    assert d[..|b|] == b;
    if |b| < o.size {
      hide Decode;
      PartDecodes(o.size, d, |b|);
    }
  }

  // ---------------------------------------------------------------- the grammar

  /** One chunk as a sender may write it. */
  datatype Chunk = Chunk(digits: seq<Byte>, extension: seq<Byte>, data: seq<Byte>)

  /** A chunk by the grammar of the standard, with a size the client can hold. */
  predicate ValidChunk(c: Chunk) {
    HexDigits(c.digits) && c.digits != [] && Extension(c.extension) && HexValue(c.digits) == |c.data| < UINT_RANGE
  }

  /** A chunk the client takes for one: the digits may be missing, and only their low 32 bits count. */
  predicate AcceptedChunk(c: Chunk) {
    HexDigits(c.digits) && Extension(c.extension) && HexValue(c.digits) % UINT_RANGE == |c.data|
  }

  function Write(c: Chunk): seq<Byte> {
    c.digits + c.extension + CRLF + c.data + CRLF
  }

  function WriteAll(cs: seq<Chunk>): seq<Byte> {
    if cs == [] then [] else Write(cs[0]) + WriteAll(cs[1..])
  }

  function Content(cs: seq<Chunk>): seq<Byte> {
    if cs == [] then [] else cs[0].data + Content(cs[1..])
  }

  /** Data chunks followed by the one zero chunk that ends a body. */
  ghost predicate Body(cs: seq<Chunk>, last: Chunk) {
    && (forall i :: 0 <= i < |cs| ==> AcceptedChunk(cs[i]) && cs[i].data != [])
    && AcceptedChunk(last) && last.data == []
  }

  ghost predicate ValidBody(cs: seq<Chunk>, last: Chunk) {
    && (forall i :: 0 <= i < |cs| ==> ValidChunk(cs[i]) && cs[i].data != [])
    && ValidChunk(last) && last.data == []
  }

  lemma AssocFour(a: seq<Byte>, b: seq<Byte>, c: seq<Byte>, d: seq<Byte>)
    ensures a + b + c + d == a + (b + c + d)
  {
    assert a + b + c + d == a + (b + c) + d;
  }

  lemma {:induction false} ChunkLine(c: Chunk, after: seq<Byte>)
    requires AcceptedChunk(c)
    ensures SizeLine(Write(c) + after, 0, false) == Line(|c.data|, c.data + CRLF + after)
  {
    assert HexDigits(c.digits) && Extension(c.extension) && HexValue(c.digits) % UINT_RANGE == |c.data|;
    hide SizeLine, HexValue, HexDigits, Extension, ShiftedValue;
    LineReads(c.digits, c.extension, c.data + CRLF + after);
    AssocFour(c.digits + c.extension + CRLF, c.data, CRLF, after);
  }

  /** A size line is read. */
  lemma {:induction false} LineReads(digits: seq<Byte>, e: seq<Byte>, tail: seq<Byte>)
    requires HexDigits(digits) && Extension(e)
    ensures SizeLine(digits + e + CRLF + tail, 0, false) == Line(HexValue(digits) % UINT_RANGE, tail)
  {
    ReadDigits([], digits, e, tail);
    assert [] + digits == digits;
    ShiftedIsModulo(digits);
  }

  lemma {:induction false} ChunkDecodes(c: Chunk, after: seq<Byte>)
    requires AcceptedChunk(c) && c.data != []
    ensures Decode(0, Write(c) + after) == Prepend(c.data, Decode(0, after))
  {
    ChunkLine(c, after);
    var tail, n := c.data + CRLF + after, |c.data|;
    assert tail[n] == CR && tail[n + 1] == LF && tail[..n] == c.data && tail[n + 2..] == after;
    assert Decode(0, Write(c) + after) == Decode(n, tail);
  }

  /** The zero chunk ends the body. */
  lemma {:induction false} LastDecodes(last: Chunk, rest: seq<Byte>)
    requires AcceptedChunk(last) && last.data == []
    ensures Decode(0, Write(last) + rest) == Done([], rest)
  {
    ChunkLine(last, rest);
    var tail := [] + CRLF + rest;
    assert tail[0] == CR && tail[1] == LF && tail[2..] == rest;
    assert last.data + CRLF + rest == tail;
    hide SizeLine, Write;
  }

  lemma {:induction false} BodyDecodes(cs: seq<Chunk>, last: Chunk, rest: seq<Byte>)
    requires Body(cs, last)
    ensures Decode(0, WriteAll(cs) + Write(last) + rest) == Done(Content(cs), rest)
  {
    hide AcceptedChunk, Decode, Write;
    if cs == [] {
      LastDecodes(last, rest);
      assert [] + Write(last) == Write(last);
    } else {
      var after := WriteAll(cs[1..]) + Write(last) + rest;
      AssocFour(Write(cs[0]), WriteAll(cs[1..]), Write(last), rest);
      ChunkDecodes(cs[0], after);
      BodyDecodes(cs[1..], last, rest);
    }
  }

  /** The size line of bytes that decode, and where the chunk behind it ends. */
  lemma DecodedLine(s: seq<Byte>) returns (line: SizeResult)
    requires Decode(0, s).Done?
    ensures line == SizeLine(s, 0, false) && line.Line? && EndOfChunk(line.rest, line.size) == Ended
    ensures |line.rest| < |s| && line.size + 2 <= |line.rest|
    ensures var n, after := line.size, line.rest[line.size + 2..];
      Decode(0, s) == if n > 0 then Prepend(line.rest[..n], Decode(0, after)) else Done([], after)
  {
    line := SizeLine(s, 0, false);
    SizeLineConsumes(s, 0, false);
    hide SizeLine;
    assert line.Line? && line.size > 0 ==> Decode(0, s) == Decode(line.size, line.rest);
  }

  lemma CutData(d: seq<Byte>, n: nat)
    requires EndOfChunk(d, n) == Ended
    ensures n + 2 <= |d| && d == d[..n] + CRLF + d[n + 2..]
  {
  }

  /** The first chunk of bytes that decode. */
  lemma DecodedChunk(s: seq<Byte>) returns (c: Chunk, after: seq<Byte>)
    requires Decode(0, s).Done?
    ensures AcceptedChunk(c)
    ensures s == Write(c) + after
    ensures if c.data == [] then Decode(0, s) == Done([], after)
      else |after| < |s| && Decode(0, s) == Prepend(c.data, Decode(0, after))
  {
    var line := DecodedLine(s);
    SizeLineLanguage(s, line.size, line.rest);
    hide SizeLine, Decode;
    var digits, e :| IsSizeLine(s, line.size, line.rest, digits, e);
    var d, n := line.rest, line.size;
    CutData(d, n);
    c, after := Chunk(digits, e, d[..n]), d[n + 2..];
    AssocFour(digits + e + CRLF, c.data, CRLF, after);
  }

  lemma {:induction false} DecodedBody(s: seq<Byte>) returns (cs: seq<Chunk>, last: Chunk)
    requires Decode(0, s).Done?
    ensures Body(cs, last)
    ensures s == WriteAll(cs) + Write(last) + Decode(0, s).rest
    ensures Content(cs) == Decode(0, s).content
    decreases |s|
  {
    hide Decode, Write, AcceptedChunk;
    var c, after := DecodedChunk(s);
    if c.data == [] {
      cs, last := [], c;
      assert [] + Write(last) == Write(last);
    } else {
      var cs';
      cs', last := DecodedBody(after);
      cs := [c] + cs';
      assert cs[1..] == cs';
      AssocFour(Write(c), WriteAll(cs'), Write(last), Decode(0, s).rest);
    }
  }

  ghost predicate Encodes(s: seq<Byte>, content: seq<Byte>, rest: seq<Byte>, cs: seq<Chunk>, last: Chunk) {
    Body(cs, last) && s == WriteAll(cs) + Write(last) + rest && content == Content(cs)
  }

  /** The decoder accepts exactly the bodies of the grammar, and yields the data of their chunks. */
  lemma {:induction false} DecoderLanguage(s: seq<Byte>, content: seq<Byte>, rest: seq<Byte>)
    ensures Decode(0, s) == Done(content, rest)
       <==> exists cs, last :: Encodes(s, content, rest, cs, last)
  {
    if Decode(0, s) == Done(content, rest) {
      var cs, last := DecodedBody(s);
      assert Encodes(s, content, rest, cs, last);
    }
    if exists cs, last :: Encodes(s, content, rest, cs, last) {
      var cs, last :| Encodes(s, content, rest, cs, last);
      BodyDecodes(cs, last, rest);
    }
  }

  /** The rest of a chunk of which `owed` bytes are missing, if any, and a body of the grammar behind it. */
  ghost predicate EncodesFrom(owed: nat, s: seq<Byte>, content: seq<Byte>, rest: seq<Byte>, cs: seq<Chunk>,
      last: Chunk) {
    if owed == 0 then Encodes(s, content, rest, cs, last)
    else
      && owed <= |content| && owed + 2 <= |s| && s[..owed] == content[..owed] && s[owed..owed + 2] == CRLF
      && Encodes(s[owed + 2..], content[owed..], rest, cs, last)
  }

  lemma {:induction false} CompletedChunk(owed: nat, s: seq<Byte>, content: seq<Byte>, rest: seq<Byte>)
    requires owed > 0
    ensures Decode(owed, s) == Done(content, rest)
       <==> owed <= |content| && owed + 2 <= |s| && s[..owed] == content[..owed] && s[owed..owed + 2] == CRLF
            && Decode(0, s[owed + 2..]) == Done(content[owed..], rest)
  {
    var ended := owed + 2 <= |s| && s[owed..owed + 2] == CRLF;
    assert EndOfChunk(s, owed) == Ended <==> ended by {
      if owed + 2 <= |s| {
        assert s[owed..owed + 2] == [s[owed], s[owed + 1]];
      }
    }
    if ended {
      var d := Decode(0, s[owed + 2..]);
      if d.Done? {
        assert (s[..owed] + d.content)[..owed] == s[..owed] && (s[..owed] + d.content)[owed..] == d.content;
      }
      assert owed <= |content| ==> content == content[..owed] + content[owed..];
    }
  }

  /** The same in the middle of a chunk. */
  lemma {:induction false} OpenDecoderLanguage(owed: nat, s: seq<Byte>, content: seq<Byte>, rest: seq<Byte>)
    ensures Decode(owed, s) == Done(content, rest)
       <==> exists cs, last :: EncodesFrom(owed, s, content, rest, cs, last)
  {
    if owed == 0 {
      DecoderLanguage(s, content, rest);
      if Decode(owed, s) == Done(content, rest) {
        var cs, last :| Encodes(s, content, rest, cs, last);
        assert EncodesFrom(owed, s, content, rest, cs, last);
      }
      if exists cs, last :: EncodesFrom(owed, s, content, rest, cs, last) {
        var cs, last :| EncodesFrom(owed, s, content, rest, cs, last);
        assert Encodes(s, content, rest, cs, last);
      }
    } else {
      CompletedChunk(owed, s, content, rest);
      hide Decode, Encodes;
      if Decode(owed, s) == Done(content, rest) {
        DecoderLanguage(s[owed + 2..], content[owed..], rest);
        var cs, last :| Encodes(s[owed + 2..], content[owed..], rest, cs, last);
        assert EncodesFrom(owed, s, content, rest, cs, last);
      }
      if exists cs, last :: EncodesFrom(owed, s, content, rest, cs, last) {
        var cs, last :| EncodesFrom(owed, s, content, rest, cs, last);
        DecoderLanguage(s[owed + 2..], content[owed..], rest);
      }
    }
  }

  /** Every body of the standard's grammar decodes to the data of its chunks, and no byte after it is touched. */
  lemma {:induction false} StandardBodyDecodes(cs: seq<Chunk>, last: Chunk, rest: seq<Byte>)
    requires ValidBody(cs, last)
    ensures Decode(0, WriteAll(cs) + Write(last) + rest) == Done(Content(cs), rest)
  {
    assert forall i :: 0 <= i < |cs| && ValidChunk(cs[i]) ==> AcceptedChunk(cs[i]);
    BodyDecodes(cs, last, rest);
  }
}
