/** Decimal numbers in requests and responses: writing one by shifting digits, and reading Content-Length. */
module Numbers {
  import opened Bytes
  import opened HeaderFields

  predicate IsDigit(b: Byte) {
    '0' as int <= b <= '9' as int
  }

  predicate AllDigits(s: seq<Byte>) {
    forall i :: 0 <= i < |s| ==> IsDigit(s[i])
  }

  /** The decimal digits of a number without leading zeros; none for zero. */
  function Decimal(n: nat): (s: seq<Byte>)
    ensures AllDigits(s)
  {
    if n == 0 then [] else Decimal(n / 10) + [n % 10 + '0' as int]
  }

  /** The number that decimal digits write. */
  function DecimalValue(s: seq<Byte>): nat
    requires AllDigits(s)
  {
    if s == [] then 0
    else
      var d := s[|s| - 1];
      assert IsDigit(d);
      DecimalValue(s[..|s| - 1]) * 10 + (d - '0' as int)
  }

  lemma {:induction false} DecimalIsExact(n: nat)
    ensures DecimalValue(Decimal(n)) == n
    ensures n > 0 ==> Decimal(n) != [] && Decimal(n)[0] != '0' as int
  {
    if n > 0 {
      DecimalIsExact(n / 10);
      var s := Decimal(n);
      assert s[..|s| - 1] == Decimal(n / 10);
    }
  }

  lemma {:induction false} DecimalLength(n: nat, k: nat)
    requires n < Power10(k)
    ensures |Decimal(n)| <= k
    decreases k
  {
    if n > 0 {
      DecimalLength(n / 10, k - 1);
    }
  }

  lemma {:induction false} DecimalLong(n: nat, k: nat)
    requires n >= Power10(k)
    ensures |Decimal(n)| > k
    decreases k
  {
    if k > 0 {
      DecimalLong(n / 10, k - 1);
    }
  }

  function Power10(k: nat): (p: nat)
    ensures p >= 1
  {
    if k == 0 then 1 else 10 * Power10(k - 1)
  }

  /** Moves the first `size` characters one place up. */
  method ShiftUp(text: array<Byte>, size: nat)
    requires size < text.Length
    modifies text
    ensures text[1..size + 1] == old(text[..size])
    ensures forall i :: size < i < text.Length ==> text[i] == old(text[i])
  {
    var j := size;
    while j != 0
      invariant 0 <= j <= size
      invariant forall i :: j < i <= size ==> text[i] == old(text[i - 1])
      invariant forall i :: 0 <= i <= j ==> text[i] == old(text[i])
      invariant forall i :: size < i < text.Length ==> text[i] == old(text[i])
    {
      text[j] := text[j - 1];
      j := j - 1;
    }
  }

  lemma PutFront(s: seq<Byte>, x: Byte, i: nat, before: seq<Byte>)
    requires i < |s| && s[1..i + 1] == before
    ensures s[0 := x][..i + 1] == [x] + before
  {
  }

  /** Writes a number in decimal and a NUL behind it; a number of more than ten digits is refused. */
  method NumberConvert(number: nat, text: array<Byte>) returns (size: nat)
    requires text.Length >= 11
    modifies text
    ensures number < Power10(10) ==>
      size == |Decimal(number)| <= 10 && text[..size] == Decimal(number) && text[size] == 0
    ensures number >= Power10(10) ==> size == 0 && text[0] == '0' as int
  {
    text[0] := '0' as int;
    size := 0;
    var left := number;
    ghost var done: seq<Byte> := [];
    assert Decimal(left) + done == Decimal(number);
    while size < 10 && left != 0
      invariant size == |done| <= 10 && done == text[..size] && Decimal(left) + done == Decimal(number)
      decreases left
    {
      var digit := left % 10;
      PutDecimal(text, size, digit, done);
      Assoc(Decimal(left / 10), [digit + '0' as int], done);
      left, size, done := left / 10, size + 1, [digit + '0' as int] + done;
    }
    text[size] := 0;
    assert text[..size] == done;
    if left != 0 {
      size := 0;
      text[0] := '0' as int;
    }
    if number < Power10(10) {
      DecimalLength(number, 10);
    } else {
      DecimalLong(number, 10);
    }
  }

  /** Puts a decimal digit in front of the first `size` characters. */
  method PutDecimal(text: array<Byte>, size: nat, digit: nat, ghost before: seq<Byte>)
    requires size < text.Length && digit < 10 && before == text[..size]
    modifies text
    ensures text[..size + 1] == [digit + '0' as int] + before
  {
    hide Decimal, AllDigits;
    var c: Byte := digit + '0' as int;
    ShiftUp(text, size);
    PutFront(text[..], c, size, before);
    text[0] := c;
  }

  // ---------------------------------------------------------------- Content-Length

  const CONTENT_LENGTH: string := "Content-Length:"

  /** The token at position `i`, its letters in either case, with a byte of the packet behind its colon or not. */
  predicate TokenAt(b: seq<Byte>, i: nat) {
    i + 14 < |b| && UpperAll(b[i..i + 15]) == UpperAll(Ascii(CONTENT_LENGTH))
  }

  /** The first position from `i` on with the token, or the first where it no longer fits. */
  function FirstToken(b: seq<Byte>, i: nat): (p: nat)
    ensures i <= p
    ensures p + 14 < |b| ==> TokenAt(b, p)
    decreases |b| - i
  {
    if i + 14 < |b| && !TokenAt(b, i) then FirstToken(b, i + 1) else i
  }

  function DigitsEnd(b: seq<Byte>, p: nat): (q: nat)
    requires p <= |b|
    ensures p <= q <= |b| && AllDigits(b[p..q])
    decreases |b| - p
  {
    if p < |b| && IsDigit(b[p]) then
      var q := DigitsEnd(b, p + 1);
      assert b[p..q] == [b[p]] + b[p + 1..q];
      q
    else p
  }

  /** The length a response announces: the digits behind the first token, when a space or CR ends them; else zero. */
  function ContentLength(b: seq<Byte>): nat {
    var t := FirstToken(b, 0);
    if t + 14 >= |b| then 0
    else
      var d := SpacesEnd(b, t + 15);
      var e := DigitsEnd(b, d);
      Announced(b, d, e)
  }

  /** The length that digits from `d` to `e` announce. */
  function Announced(b: seq<Byte>, d: nat, e: nat): nat
    requires d <= e <= |b| && AllDigits(b[d..e])
  {
    if e >= |b| || (b[e] != ' ' as int && b[e] != CR) then 0 else DecimalValue(b[d..e]) % UINT_RANGE
  }

  lemma LengthIs(b: seq<Byte>, t: nat, d: nat, e: nat)
    requires FirstToken(b, 0) == t && t + 14 < |b| && SpacesEnd(b, t + 15) == d && d <= |b| && DigitsEnd(b, d) == e
    ensures d <= e <= |b| && AllDigits(b[d..e]) && ContentLength(b) == Announced(b, d, e)
  {
    hide TokenAt, Announced;
  }

  /** The same digits with the same byte behind them, in another place. */
  lemma SameAnnounced(a: seq<Byte>, b: seq<Byte>, d: nat, e: nat, n: nat)
    requires d <= e < |a| && n + e < |b| && AllDigits(a[d..e]) && b[n + d..n + e] == a[d..e] && b[n + e] == a[e]
    ensures Announced(b, n + d, n + e) == Announced(a, d, e)
  {
  }

  predicate IsLetter(b: Byte, upper: char)
    requires 'A' <= upper <= 'Z'
  {
    b == upper as int || b == upper as int + 32
  }

  lemma TokenLetters()
    ensures UpperAll(Ascii(CONTENT_LENGTH)) == [67, 79, 78, 84, 69, 78, 84, 45, 76, 69, 78, 71, 84, 72, 58]
  {
  }

  lemma UpperAt(b: seq<Byte>, i: nat, u: seq<Byte>)
    requires i + 15 <= |b| && u == UpperAll(b[i..i + 15])
    ensures forall k :: 0 <= k < 15 ==> u[k] == Upper(b[i + k])
  {
  }

  lemma SameFifteen(u: seq<Byte>, v: seq<Byte>)
    requires |u| == |v| == 15
    ensures u == v <==>
      && u[0] == v[0] && u[1] == v[1] && u[2] == v[2] && u[3] == v[3] && u[4] == v[4]
      && u[5] == v[5] && u[6] == v[6] && u[7] == v[7] && u[8] == v[8] && u[9] == v[9]
      && u[10] == v[10] && u[11] == v[11] && u[12] == v[12] && u[13] == v[13] && u[14] == v[14]
  {
  }

  /** Compares with the token one character after the other, letters in either case. */
  method MatchToken(b: seq<Byte>, i: nat) returns (found: bool)
    requires i + 14 < |b|
    ensures found <==> TokenAt(b, i)
  {
    hide UpperAll, Ascii;
    ghost var u := UpperAll(b[i..i + 15]);
    UpperAt(b, i, u);
    TokenLetters();
    SameFifteen(u, UpperAll(Ascii(CONTENT_LENGTH)));
    found :=
      && IsLetter(b[i], 'C') && IsLetter(b[i + 1], 'O') && IsLetter(b[i + 2], 'N') && IsLetter(b[i + 3], 'T')
      && IsLetter(b[i + 4], 'E') && IsLetter(b[i + 5], 'N') && IsLetter(b[i + 6], 'T') && b[i + 7] == '-' as int
      && IsLetter(b[i + 8], 'L') && IsLetter(b[i + 9], 'E') && IsLetter(b[i + 10], 'N') && IsLetter(b[i + 11], 'G')
      && IsLetter(b[i + 12], 'T') && IsLetter(b[i + 13], 'H') && b[i + 14] == ':' as int;
  }

  method FindToken(b: seq<Byte>) returns (p: nat, found: bool)
    ensures p == FirstToken(b, 0) && (found <==> p + 14 < |b|)
  {
    p, found := 0, false;
    while p + 14 < |b|
      invariant FirstToken(b, p) == FirstToken(b, 0) && !found
      decreases |b| - p
    {
      found := MatchToken(b, p);
      if found {
        return;
      }
      p := p + 1;
    }
  }

  /** Appending a digit in 32 bits. */
  function AppendWrapped(v: nat, x: nat): nat {
    (v * 10 % UINT_RANGE + x) % UINT_RANGE
  }

  lemma AppendModulo(v: nat, x: nat)
    ensures AppendWrapped(v % UINT_RANGE, x) == (v * 10 + x) % UINT_RANGE
  {
    var q, r := v / UINT_RANGE, v % UINT_RANGE;
    var q', r' := r * 10 / UINT_RANGE, r * 10 % UINT_RANGE;
    assert v * 10 + x == r' + x + (q' + q * 10) * UINT_RANGE;
  }

  lemma {:induction false} AppendDecimalDigit(s: seq<Byte>, d: Byte)
    requires AllDigits(s) && IsDigit(d)
    ensures AllDigits(s + [d]) && DecimalValue(s + [d]) == DecimalValue(s) * 10 + (d - '0' as int)
  {
    assert (s + [d])[..|s + [d]| - 1] == s;
  }

  lemma {:induction false} NoDigits(s: seq<Byte>)
    requires s == []
    ensures AllDigits(s) && DecimalValue(s) == 0
  {
  }

  lemma AnotherDigit(b: seq<Byte>, d: nat, p: nat)
    requires d <= p < |b| && AllDigits(b[d..p]) && IsDigit(b[p])
    ensures AllDigits(b[d..p + 1]) && b[p] >= '0' as int
    ensures DecimalValue(b[d..p + 1]) % UINT_RANGE
         == AppendWrapped(DecimalValue(b[d..p]) % UINT_RANGE, b[p] - '0' as int)
  {
    AppendDecimalDigit(b[d..p], b[p]);
    AppendModulo(DecimalValue(b[d..p]), b[p] - '0' as int);
    assert b[d..p + 1] == b[d..p] + [b[p]];
  }

  /** Reads digits from position `d` on, in 32 bits. */
  method ReadDigitsAt(b: seq<Byte>, d: nat) returns (p: nat, length: nat)
    requires d <= |b|
    ensures p == DigitsEnd(b, d) && length == DecimalValue(b[d..p]) % UINT_RANGE
  {
    hide AppendWrapped, DecimalValue, IsDigit, AllDigits;
    p, length := d, 0;
    NoDigits(b[d..p]);
    while p < |b| && IsDigit(b[p])
      invariant d <= p <= |b| && DigitsEnd(b, p) == DigitsEnd(b, d)
      invariant AllDigits(b[d..p]) && length == DecimalValue(b[d..p]) % UINT_RANGE
    {
      AnotherDigit(b, d, p);
      length := AppendWrapped(length, b[p] - '0' as int);
      p := p + 1;
    }
  }

  /** Reads the content length from a response's first packet. */
  method ContentLengthGet(b: seq<Byte>) returns (length: nat)
    ensures length == ContentLength(b)
  {
    hide TokenAt, SpacesEnd, DigitsEnd, FirstToken, DecimalValue;
    length := 0;
    var p, found := FindToken(b);
    if !found {
      return;
    }
    p := SkipSpaces(b, p + 15);
    p, length := ReadDigitsAt(b, p);
    if p >= |b| || (b[p] != ' ' as int && b[p] != CR) {
      length := 0;
    }
  }

  lemma {:induction false} DigitsEndIs(b: seq<Byte>, p: nat, q: nat)
    requires p <= q < |b| && AllDigits(b[p..q]) && !IsDigit(b[q])
    ensures DigitsEnd(b, p) == q
    decreases q - p
  {
    if p < q {
      assert IsDigit(b[p..q][0]);
      assert b[p + 1..q] == b[p..q][1..];
      DigitsEndIs(b, p + 1, q);
    }
  }

  lemma ContentLengthIs(b: seq<Byte>, t: nat, d: nat, e: nat)
    requires FirstToken(b, 0) == t && t + 14 < |b|
    requires SpacesEnd(b, t + 15) == d && d <= |b| && DigitsEnd(b, d) == e < |b| && AllDigits(b[d..e])
    requires b[e] == ' ' as int || b[e] == CR
    ensures ContentLength(b) == DecimalValue(b[d..e]) % UINT_RANGE
  {
  }

  function Spaces(n: nat): (s: seq<Byte>)
    ensures |s| == n
  {
    seq(n, _ => SPACE)
  }

  lemma {:induction false} SpacesSkipped(b: seq<Byte>, p: nat, q: nat)
    requires p <= q < |b| && b[q] != SPACE && forall i :: p <= i < q ==> b[i] == SPACE
    ensures SpacesEnd(b, p) == q
    decreases q - p
  {
    if p < q {
      SpacesSkipped(b, p + 1, q);
    }
  }

  lemma {:induction false} DigitsAt(b: seq<Byte>, p: nat, spaces: nat, n: nat, rest: seq<Byte>)
    requires p <= |b| && n > 0 && rest != [] && !IsDigit(rest[0])
    requires b[p..] == Spaces(spaces) + Decimal(n) + rest
    ensures var d := p + spaces; var e := d + |Decimal(n)|;
      && SpacesEnd(b, p) == d && e < |b| && DigitsEnd(b, d) == e && b[d..e] == Decimal(n) && b[e] == rest[0]
  {
    var digits := Decimal(n);
    var d := p + spaces;
    var e := d + |digits|;
    assert digits != [] by { DecimalIsExact(n); }
    Layout(b, p, Spaces(spaces), digits, rest);
    assert forall i :: p <= i < d ==> b[i] == Spaces(spaces)[i - p];
    assert forall i :: p <= i < d ==> b[i] == SPACE;
    assert b[d..e][0] == b[d] && IsDigit(digits[0]);
    hide Decimal, Spaces, SpacesEnd, DigitsEnd, AllDigits;
    SpacesSkipped(b, p, d);
    DigitsEndIs(b, d, e);
  }

  /** A number written behind the token, with any number of spaces between, is the length that is read. */
  lemma {:induction false} ContentLengthReads(b: seq<Byte>, t: nat, spaces: nat, n: nat, rest: seq<Byte>)
    requires FirstToken(b, 0) == t && t + 15 <= |b|
    requires b[t + 15..] == Spaces(spaces) + Decimal(n) + rest
    requires 1 <= n < UINT_RANGE && rest != [] && (rest[0] == CR || rest[0] == ' ' as int)
    ensures ContentLength(b) == n
  {
    hide ContentLength, SpacesEnd, DigitsEnd, Spaces, Decimal, DecimalValue, FirstToken;
    DigitsAt(b, t + 15, spaces, n, rest);
    var d := t + 15 + spaces;
    ContentLengthIs(b, t, d, d + |Decimal(n)|);
    DecimalIsExact(n);
  }

  lemma Layout(b: seq<Byte>, p: nat, x: seq<Byte>, y: seq<Byte>, z: seq<Byte>)
    requires p <= |b| && b[p..] == x + y + z
    ensures p + |x| + |y| + |z| == |b|
    ensures forall i :: 0 <= i < |x| ==> b[p + i] == x[i]
    ensures b[p + |x|..p + |x| + |y|] == y
    ensures z != [] ==> b[p + |x| + |y|] == z[0]
  {
    var s := b[p..];
    assert forall i :: 0 <= i < |s| ==> b[p + i] == s[i];
    assert s[|x|..|x| + |y|] == y;
    assert b[p + |x|..p + |x| + |y|] == s[|x|..|x| + |y|];
  }

  // ---------------------------------------------------------------- the length in part of a packet

  ghost predicate HasToken(b: seq<Byte>) {
    exists i: nat :: TokenAt(b, i)
  }

  /** The first token is the first one. */
  lemma {:induction false} FirstTokenLeast(b: seq<Byte>, i: nat)
    ensures forall k: nat :: i <= k < FirstToken(b, i) ==> !TokenAt(b, k)
    decreases |b| - i
  {
    if i + 14 < |b| && !TokenAt(b, i) {
      FirstTokenLeast(b, i + 1);
    }
  }

  lemma {:induction false} FirstTokenIs(b: seq<Byte>, t: nat)
    requires TokenAt(b, t) && forall k: nat :: k < t ==> !TokenAt(b, k)
    ensures FirstToken(b, 0) == t
  {
    FirstTokenLeast(b, 0);
    TokenFits(b, t);
    hide TokenAt;
  }

  lemma TokenFits(b: seq<Byte>, t: nat)
    ensures TokenAt(b, t) ==> t + 14 < |b|
  {
  }

  lemma {:induction false} TokenFound(b: seq<Byte>)
    ensures HasToken(b) <==> FirstToken(b, 0) + 14 < |b|
    ensures !HasToken(b) ==> ContentLength(b) == 0
  {
    FirstTokenLeast(b, 0);
    hide TokenAt;
    if HasToken(b) {
      var i: nat :| TokenAt(b, i);
      TokenFits(b, i);
    }
  }

  /** A token within a prefix. */
  lemma TokenInPrefix(a: seq<Byte>, x: seq<Byte>, i: nat)
    requires i + 15 <= |a|
    ensures TokenAt(a + x, i) == TokenAt(a, i)
  {
    assert (a + x)[i..i + 15] == a[i..i + 15];
  }

  /** A token behind a prefix. */
  lemma TokenBehind(a: seq<Byte>, x: seq<Byte>, i: nat)
    ensures TokenAt(a + x, |a| + i) == TokenAt(x, i)
  {
    if i + 14 < |x| {
      assert (a + x)[|a| + i..|a| + i + 15] == x[i..i + 15];
    }
  }

  /** No token lies across the end of a line. */
  lemma TokenNotAcross(a: seq<Byte>, x: seq<Byte>, i: nat)
    requires a != [] && a[|a| - 1] == LF && i < |a| < i + 15
    ensures !TokenAt(a + x, i)
  {
    var b := a + x;
    TokenLetters();
    if i + 14 < |b| {
      var u := UpperAll(b[i..i + 15]);
      assert u[|a| - 1 - i] == Upper(b[|a| - 1]) && Upper(LF) == LF;
    }
  }

  lemma {:induction false} SpacesInPrefix(a: seq<Byte>, x: seq<Byte>, p: nat)
    requires p <= |a|
    ensures SpacesEnd(a, p) < |a| ==> SpacesEnd(a + x, p) == SpacesEnd(a, p)
    decreases |a| - p
  {
    if p < |a| && a[p] == SPACE {
      SpacesInPrefix(a, x, p + 1);
    }
  }

  lemma {:induction false} DigitsInPrefix(a: seq<Byte>, x: seq<Byte>, p: nat)
    requires p <= |a|
    ensures DigitsEnd(a, p) < |a| ==> DigitsEnd(a + x, p) == DigitsEnd(a, p)
    decreases |a| - p
  {
    if p < |a| && IsDigit(a[p]) {
      DigitsInPrefix(a, x, p + 1);
    }
  }

  lemma {:induction false} SpacesBehind(a: seq<Byte>, x: seq<Byte>, p: nat)
    requires p <= |x|
    ensures SpacesEnd(a + x, |a| + p) == |a| + SpacesEnd(x, p)
    decreases |x| - p
  {
    if p < |x| && x[p] == SPACE {
      SpacesBehind(a, x, p + 1);
    }
  }

  lemma {:induction false} DigitsBehind(a: seq<Byte>, x: seq<Byte>, p: nat)
    requires p <= |x|
    ensures DigitsEnd(a + x, |a| + p) == |a| + DigitsEnd(x, p)
    decreases |x| - p
  {
    if p < |x| && IsDigit(x[p]) {
      DigitsBehind(a, x, p + 1);
    }
  }

  /** Where the number behind the first token ends. */
  function NumberEnd(b: seq<Byte>, t: nat): (e: nat)
    requires t + 14 < |b|
    ensures t + 15 <= e <= |b|
  {
    DigitsEnd(b, SpacesEnd(b, t + 15))
  }

  lemma {:induction false} NumberInPrefix(a: seq<Byte>, x: seq<Byte>, t: nat)
    requires t + 14 < |a| && FirstToken(a, 0) == t && FirstToken(a + x, 0) == t
    ensures if NumberEnd(a, t) < |a| then ContentLength(a + x) == ContentLength(a) else ContentLength(a) == 0
  {
    hide TokenAt, FirstToken, SpacesEnd, DigitsEnd, DecimalValue, ContentLength;
    var d := SpacesEnd(a, t + 15);
    var e := DigitsEnd(a, d);
    SpacesInPrefix(a, x, t + 15);
    DigitsInPrefix(a, x, d);
    LengthIs(a, t, d, e);
    if e < |a| {
      assert (a + x)[0 + d..0 + e] == a[d..e];
      LengthIs(a + x, t, d, e);
      SameAnnounced(a, a + x, d, e, 0);
    }
  }

  /** A prefix with a token announces the length of the whole, unless it ends inside the number, and then none. */
  lemma {:induction false} PrefixLength(a: seq<Byte>, x: seq<Byte>)
    requires HasToken(a)
    ensures FirstToken(a, 0) + 14 < |a|
    ensures var t := FirstToken(a, 0);
      if NumberEnd(a, t) < |a| then ContentLength(a + x) == ContentLength(a) else ContentLength(a) == 0
  {
    TokenFound(a);
    var b, t := a + x, FirstToken(a, 0);
    FirstTokenLeast(a, 0);
    forall k: nat | k <= t
      ensures TokenAt(b, k) == TokenAt(a, k)
    {
      TokenInPrefix(a, x, k);
    }
    hide *;
    FirstTokenIs(b, t);
    NumberInPrefix(a, x, t);
  }

  /** Lines with a token announce the same length whatever follows them. */
  lemma LinesLength(a: seq<Byte>, x: seq<Byte>)
    requires HasToken(a) && a[|a| - 1] == LF
    ensures ContentLength(a + x) == ContentLength(a)
  {
    PrefixLength(a, x);
    var t := FirstToken(a, 0);
    assert t + 15 < |a| by {
      TokenFound(a);
      TokenNotLast(a, t);
    }
    hide HasToken, TokenAt, ContentLength;
    NumberEndsBefore(a, t + 15);
  }

  lemma TokenNotLast(a: seq<Byte>, t: nat)
    requires TokenAt(a, t) && a[|a| - 1] == LF
    ensures t + 15 < |a|
  {
    TokenLetters();
    var u := UpperAll(a[t..t + 15]);
    assert u[14] == Upper(a[t + 14]) && Upper(LF) == LF;
  }

  lemma {:induction false} NumberEndsBefore(a: seq<Byte>, p: nat)
    requires p < |a| && a[|a| - 1] == LF
    ensures DigitsEnd(a, SpacesEnd(a, p)) < |a|
  {
    SpacesBefore(a, p);
    DigitsBefore(a, SpacesEnd(a, p));
  }

  lemma {:induction false} SpacesBefore(a: seq<Byte>, p: nat)
    requires p < |a| && a[|a| - 1] != SPACE
    ensures SpacesEnd(a, p) < |a|
    decreases |a| - p
  {
    if a[p] == SPACE {
      SpacesBefore(a, p + 1);
    }
  }

  lemma {:induction false} DigitsBefore(a: seq<Byte>, p: nat)
    requires p < |a| && !IsDigit(a[|a| - 1])
    ensures DigitsEnd(a, p) < |a|
    decreases |a| - p
  {
    if IsDigit(a[p]) {
      DigitsBefore(a, p + 1);
    }
  }

  /** Behind lines without a token, tokens are those of what follows. */
  lemma TokensBehind(a: seq<Byte>, x: seq<Byte>)
    requires !HasToken(a) && a != [] && a[|a| - 1] == LF
    ensures forall k: nat :: TokenAt(a + x, k) <==> k >= |a| && TokenAt(x, k - |a|)
  {
    forall k: nat
      ensures TokenAt(a + x, k) <==> k >= |a| && TokenAt(x, k - |a|)
    {
      if k + 15 <= |a| {
        TokenInPrefix(a, x, k);
      } else if k < |a| {
        TokenNotAcross(a, x, k);
      } else {
        TokenBehind(a, x, k - |a|);
      }
    }
  }

  lemma {:induction false} NumberBehind(a: seq<Byte>, x: seq<Byte>, t: nat)
    requires FirstToken(x, 0) == t && FirstToken(a + x, 0) == |a| + t && t + 14 < |x|
    ensures ContentLength(a + x) == ContentLength(x)
  {
    hide TokenAt, FirstToken, SpacesEnd, DigitsEnd, DecimalValue, ContentLength;
    var b, n := a + x, |a|;
    SpacesBehind(a, x, t + 15);
    var d := SpacesEnd(x, t + 15);
    DigitsBehind(a, x, d);
    var e := DigitsEnd(x, d);
    LengthIs(x, t, d, e);
    assert n + (t + 15) == n + t + 15;
    LengthIs(b, n + t, n + d, n + e);
    assert b[n + d..n + e] == x[d..e];
    if e < |x| {
      SameAnnounced(x, b, d, e, n);
    }
  }

  /** Behind lines without a token, the length announced is that of what follows. */
  lemma LengthBehind(a: seq<Byte>, x: seq<Byte>)
    requires !HasToken(a) && a != [] && a[|a| - 1] == LF
    ensures ContentLength(a + x) == ContentLength(x)
  {
    TokensBehind(a, x);
    TokenFound(x);
    TokenFound(a + x);
    hide TokenAt, ContentLength;
    if HasToken(x) {
      var t := FirstToken(x, 0);
      FirstTokenLeast(x, 0);
      FirstTokenIs(a + x, |a| + t);
      NumberBehind(a, x, t);
    }
  }

  // ---------------------------------------------------------------- the length in a header

  // the token and the field's name by their bytes
  const TOKEN: seq<Byte> := [99, 111, 110, 116, 101, 110, 116, 45, 108, 101, 110, 103, 116, 104, 58]
  const LENGTH_NAME: seq<Byte> := [99, 111, 110, 116, 101, 110, 116, 45, 108, 101, 110, 103, 116, 104]

  /** The token, letter by letter. */
  lemma TokenSpelled(b: seq<Byte>, i: nat)
    ensures TokenAt(b, i) <==> i + 15 <= |b| && Spells(b[i..i + 15], TOKEN)
  {
    TokenLetters();
    TokenCapitals();
    hide UpperAll, Ascii, Spells;
    if i + 15 <= |b| {
      UpperSpells(b[i..i + 15], TOKEN);
    }
  }

  lemma TokenCapitals()
    ensures UpperAll(TOKEN) == [67, 79, 78, 84, 69, 78, 84, 45, 76, 69, 78, 71, 84, 72, 58] && NoCapitals(TOKEN)
  {
  }

  /** No token in these bytes. */
  ghost predicate Tokenless(b: seq<Byte>) {
    forall i: nat, j: nat :: j == i + 15 && j <= |b| ==> !Spells(b[i..j], TOKEN)
  }

  /** Lines without a token, and a line with its letters behind them. */
  lemma {:induction false} TokenLine(front: seq<Byte>, name: seq<Byte>, more: seq<Byte>)
    requires Tokenless(front) && front != [] && front[|front| - 1] == LF && Spells(name, LENGTH_NAME)
    ensures FirstToken(front + (name + [58] + more), 0) == |front|
  {
    var x := name + [58] + more;
    var b, t := front + x, |front|;
    assert b[t..t + 15] == name + [58];
    assert Spells(name + [58], TOKEN);
    TokenSpelled(b, t);
    forall k: nat | k < t
      ensures !TokenAt(b, k)
    {
      if k + 15 <= t {
        TokenInPrefix(front, x, k);
        TokenSpelled(front, k);
      } else {
        TokenNotAcross(front, x, k);
      }
    }
    hide TokenAt, Spells;
    FirstTokenIs(b, t);
  }

  /** The number behind a token whose line goes on with `text`. */
  lemma {:induction false} NumberBehindToken(b: seq<Byte>, t: nat, e: nat, digits: seq<Byte>, behind: seq<Byte>)
    requires FirstToken(b, 0) == t && t + 15 <= e < |b| && b[e] == CR
    requires Unspaced(b[t + 15..e]) == digits + behind && AllDigits(digits)
    requires behind != [] ==> !IsDigit(behind[0]) && behind[0] != CR
    ensures ContentLength(b) == if behind == [] || behind[0] == 32 then DecimalValue(digits) % 0x1_0000_0000 else 0
  {
    SpacesEndIs(b, t + 15, e);
    var d := SpacesEnd(b, t + 15);
    var q := d + |digits|;
    assert b[d..e] == digits + behind;
    assert b[d..q] == b[d..e][..|digits|] == digits;
    assert behind != [] ==> b[q] == b[d..e][|digits|] == behind[0];
    hide FirstToken, TokenAt, SpacesEnd, DigitsEnd, ContentLength, AllDigits, DecimalValue, Unspaced;
    DigitsEndIs(b, d, q);
    LengthIs(b, t, d, q);
  }

  lemma LengthLine(front: seq<Byte>, l: HeaderLine, more: seq<Byte>)
    ensures var b := front + (WriteLine(l) + more);
      var p := |front| + |l.name| + 1;
      var e := p + |TextOf(l)|;
      && b == front + (l.name + [58] + (TextOf(l) + CRLF + more))
      && e < |b| && b[e] == CR && b[p..e] == TextOf(l)
  {
    hide TextOf;
  }

  /**
   The length that is read from a header: that of the first line with the token as its name, in any case, unless the
   token stands somewhere before. Its digits count modulo 2^32, if nothing or a space is behind them.
   */
  lemma {:induction false} AnnouncedLength(front: seq<Byte>, l: HeaderLine, more: seq<Byte>, digits: seq<Byte>,
      behind: seq<Byte>)
    requires Tokenless(front) && front != [] && front[|front| - 1] == LF
    requires ValidLine(l) && Spells(l.name, LENGTH_NAME)
    requires Unspaced(TextOf(l)) == digits + behind && AllDigits(digits) && (behind != [] ==> !IsDigit(behind[0]))
    ensures ContentLength(front + (WriteLine(l) + more)) ==
      if behind == [] || behind[0] == 32 then DecimalValue(digits) % 0x1_0000_0000 else 0
  {
    hide *;
    var b := front + (WriteLine(l) + more);
    LengthLine(front, l, more);
    TokenLine(front, l.name, TextOf(l) + CRLF + more);
    NoReturn(l, digits, behind);
    NameSize(l.name);
    NumberBehindToken(b, |front|, |front| + 15 + |TextOf(l)|, digits, behind);
  }

  lemma NameSize(name: seq<Byte>)
    requires Spells(name, LENGTH_NAME)
    ensures |name| == 14
  {
  }

  lemma {:induction false} UnspacedPart(s: seq<Byte>, i: nat)
    ensures |Unspaced(s)| <= |s| && (i < |Unspaced(s)| ==> Unspaced(s)[i] in s)
  {
    if s != [] && s[0] == SPACE {
      UnspacedPart(s[1..], i);
    }
  }

  lemma NoReturn(l: HeaderLine, digits: seq<Byte>, behind: seq<Byte>)
    requires ValidLine(l) && Unspaced(TextOf(l)) == digits + behind
    ensures behind != [] ==> behind[0] != CR
  {
    if behind != [] {
      UnspacedPart(TextOf(l), |digits|);
      assert (digits + behind)[|digits|] == behind[0];
    }
  }
}
