/** The base64 text of the credentials in a request: the four-step loop, and section 4 of RFC 4648. */
module Base64 {
  import opened Bytes

  const MAX_STRING: nat := 55

  // ---------------------------------------------------------------- the standard's text

  /** The character for a group of six bits. */
  function Char64(v: nat): (b: Byte)
    requires v < 64
  {
    if v < 26 then 'A' as int + v
    else if v < 52 then 'a' as int + (v - 26)
    else if v < 62 then '0' as int + (v - 52)
    else if v == 62 then '+' as int
    else '/' as int
  }

  /** The alphabet of section 4 of RFC 4648. */
  lemma Alphabet(v: nat)
    requires v < 64
    ensures v < 26 ==> Char64(v) == "ABCDEFGHIJKLMNOPQRSTUVWXYZ"[v] as int
    ensures 26 <= v < 52 ==> Char64(v) == "abcdefghijklmnopqrstuvwxyz"[v - 26] as int
    ensures 52 <= v ==> Char64(v) == "0123456789+/"[v - 52] as int
  {
  }

  /** Input bytes, with zeros behind them. */
  function At(s: seq<Byte>, i: nat): Byte {
    if i < |s| then s[i] else 0
  }

  /** Three bytes as one number of 24 bits. */
  function Group(s: seq<Byte>, k: nat): (v: nat)
    ensures v < 0x100_0000
  {
    At(s, 3 * k) * 65536 + At(s, 3 * k + 1) * 256 + At(s, 3 * k + 2)
  }

  /** The six bits number `step` of 24, from the left. */
  function SixBits(v: nat, step: nat): (x: nat)
    requires step < 4
    ensures x < 64
  {
    if step == 0 then v / 262144 % 64
    else if step == 1 then v / 4096 % 64
    else if step == 2 then v / 64 % 64
    else v % 64
  }

  /** As many characters as hold all bits. */
  function TextLength(n: nat): nat {
    (n * 4 + 2) / 3
  }

  function TextChar(s: seq<Byte>, j: nat): Byte {
    Char64(SixBits(Group(s, j / 4), j % 4))
  }

  function Text(s: seq<Byte>): (t: seq<Byte>)
    ensures |t| == TextLength(|s|)
  {
    seq(TextLength(|s|), j requires 0 <= j => TextChar(s, j))
  }

  function Pads(n: nat): nat {
    if n % 3 == 0 then 0 else 3 - n % 3
  }

  /** Signs of padding. */
  function Equals(n: nat): (s: seq<Byte>)
    ensures |s| == n && forall i :: 0 <= i < n ==> s[i] == 61
  {
    seq(n, _ => '=' as int)
  }

  /** The encoding of section 4 of RFC 4648. */
  function Standard(s: seq<Byte>): seq<Byte> {
    Text(s) + Equals(Pads(|s|))
  }

  // ---------------------------------------------------------------- decoding

  /** The six bits a character stands for. */
  function Value64(b: Byte): (v: nat)
    ensures v < 64
  {
    if 'A' as int <= b <= 'Z' as int then b - 'A' as int
    else if 'a' as int <= b <= 'z' as int then b - 'a' as int + 26
    else if '0' as int <= b <= '9' as int then b - '0' as int + 52
    else if b == '+' as int then 62
    else 63
  }

  function ValueAt(t: seq<Byte>, j: nat): (v: nat)
    ensures v < 64
  {
    if j < |t| then Value64(t[j]) else 0
  }

  function DecodedGroup(t: seq<Byte>, k: nat): nat {
    ValueAt(t, 4 * k) * 262144 + ValueAt(t, 4 * k + 1) * 4096 + ValueAt(t, 4 * k + 2) * 64 + ValueAt(t, 4 * k + 3)
  }

  function EightBits(v: nat, place: nat): (b: Byte)
    requires place < 3
  {
    if place == 0 then v / 65536 % 256 else if place == 1 then v / 256 % 256 else v % 256
  }

  /** Decodes a text without padding. */
  function DecodeText(t: seq<Byte>): seq<Byte> {
    seq(|t| * 3 / 4, i requires 0 <= i => EightBits(DecodedGroup(t, i / 3), i % 3))
  }

  lemma ValueOfChar(v: nat)
    requires v < 64
    ensures Value64(Char64(v)) == v
  {
  }

  lemma SixBitsMakeUp(v: nat)
    requires v < 0x100_0000
    ensures v == SixBits(v, 0) * 262144 + SixBits(v, 1) * 4096 + SixBits(v, 2) * 64 + SixBits(v, 3)
  {
    var a, b, c := v / 262144, v / 4096, v / 64;
    assert v == 64 * c + v % 64;
    assert c == 64 * b + c % 64 by {
      assert 64 * b <= c < 64 * b + 64;
      Remainder(c, b);
    }
    assert b == 64 * a + b % 64 by {
      assert 64 * a <= b < 64 * a + 64;
      Remainder(b, a);
    }
    assert a % 64 == a;
  }

  lemma Remainder(n: nat, q: nat)
    requires 64 * q <= n < 64 * q + 64
    ensures n % 64 == n - 64 * q
  {
  }

  lemma ThreeBytes(a: Byte, b: Byte, c: Byte)
    ensures var v := a * 65536 + b * 256 + c;
      && v / 65536 % 256 == a && v / 256 % 256 == b && v % 256 == c && v / 256 == a * 256 + b
  {
    var v := a * 65536 + b * 256 + c;
    assert v / 256 == a * 256 + b;
    assert v / 65536 == a;
  }

  lemma GroupBytes(s: seq<Byte>, k: nat, place: nat)
    requires place < 3
    ensures EightBits(Group(s, k), place) == At(s, 3 * k + place)
  {
    hide At;
    ThreeBytes(At(s, 3 * k), At(s, 3 * k + 1), At(s, 3 * k + 2));
  }

  /** The bits that no character is written for are zero. */
  lemma SilentBits(s: seq<Byte>, j: nat)
    requires j >= TextLength(|s|) && 4 * (j / 4) < TextLength(|s|)
    ensures SixBits(Group(s, j / 4), j % 4) == 0
  {
    var k := j / 4;
    BehindText(j, k, j % 4, |s|);
    NothingMissing(At(s, 3 * k), At(s, 3 * k + 1));
  }

  lemma BehindText(j: nat, k: nat, step: nat, n: nat)
    requires j == 4 * k + step && step < 4 && j >= TextLength(n) && 4 * k < TextLength(n)
    ensures step >= 2 && 3 * k + 2 >= n && (step == 2 ==> 3 * k + 1 >= n)
  {
  }

  lemma NothingMissing(a: Byte, b: Byte)
    ensures SixBits(a * 65536 + b * 256 + 0, 3) == 0 && SixBits(a * 65536 + 0 * 256 + 0, 2) == 0
  {
    assert a * 65536 + b * 256 == 64 * (1024 * a + 4 * b) && a * 65536 / 64 == 64 * (16 * a);
  }

  lemma TextValue(s: seq<Byte>, j: nat)
    requires 4 * (j / 4) < TextLength(|s|)
    ensures ValueAt(Text(s), j) == SixBits(Group(s, j / 4), j % 4)
  {
    if j < TextLength(|s|) {
      ValueOfChar(SixBits(Group(s, j / 4), j % 4));
    } else {
      SilentBits(s, j);
    }
  }

  lemma GroupDecodes(s: seq<Byte>, k: nat)
    requires 3 * k < |s|
    ensures DecodedGroup(Text(s), k) == Group(s, k)
  {
    hide SixBits, Group, ValueAt, Text;
    var v := Group(s, k);
    SixBitsMakeUp(v);
    assert (4 * k) / 4 == k && (4 * k + 1) / 4 == k && (4 * k + 2) / 4 == k && (4 * k + 3) / 4 == k;
    TextValue(s, 4 * k);
    TextValue(s, 4 * k + 1);
    TextValue(s, 4 * k + 2);
    TextValue(s, 4 * k + 3);
  }

  /** Decoding the text gives the bytes back. */
  lemma TextDecodes(s: seq<Byte>)
    ensures DecodeText(Text(s)) == s
  {
    var d := DecodeText(Text(s));
    assert |d| == |s|;
    forall i | 0 <= i < |s|
      ensures d[i] == s[i]
    {
      GroupDecodes(s, i / 3);
      GroupBytes(s, i / 3, i % 3);
    }
  }

  // ---------------------------------------------------------------- the encoder

  /** The index into the alphabet that each step of the encoder computes, from a byte and the one behind it. */
  function Index(step: nat, x: Byte, y: Byte): (v: nat)
    requires step < 4
    ensures v < 64
  {
    if step == 0 then x / 4
    else if step == 1 then x % 4 * 16 + y / 16
    else if step == 2 then x % 16 * 4 + y / 64
    else x % 64
  }

  lemma Quotient(q: nat, d: nat, r: nat)
    requires r < d && (d == 4 || d == 64 || d == 4096 || d == 262144)
    ensures (q * d + r) / d == q && (q * d + r) % d == r
  {
  }

  lemma StepsAreBits(a: Byte, b: Byte, c: Byte)
    ensures var v := a * 65536 + b * 256 + c;
      && SixBits(v, 0) == Index(0, a, b) && SixBits(v, 1) == Index(1, a, b)
      && SixBits(v, 2) == Index(2, b, c) && SixBits(v, 3) == Index(3, c, 0)
  {
    var v := a * 65536 + b * 256 + c;
    var a0, a1, b0, b1, c0, c1 := a / 4, a % 4, b / 16, b % 16, c / 64, c % 64;
    assert v == a0 * 262144 + (a1 * 65536 + b * 256 + c) == (a * 16 + b0) * 4096 + (b1 * 256 + c);
    assert v == (a * 1024 + b * 4 + c0) * 64 + c1;
    assert SixBits(v, 0) == a0 by { Quotient(a0, 262144, a1 * 65536 + b * 256 + c); }
    assert SixBits(v, 1) == a1 * 16 + b0 by {
      Quotient(a * 16 + b0, 4096, b1 * 256 + c);
      Quotient(a0, 64, a1 * 16 + b0);
    }
    assert SixBits(v, 2) == b1 * 4 + c0 by {
      Quotient(a * 1024 + b * 4 + c0, 64, c1);
      Quotient(a * 16 + b0, 64, b1 * 4 + c0);
    }
    assert SixBits(v, 3) == c1 by { Quotient(a * 1024 + b * 4 + c0, 64, c1); }
  }

  /** The byte a step starts from. */
  function Source(j: nat): nat {
    3 * (j / 4) + (if j % 4 == 0 then 0 else j % 4 - 1)
  }

  lemma IndexIsRight(s: seq<Byte>, j: nat)
    requires j < TextLength(|s|)
    ensures Source(j) < |s|
    ensures TextChar(s, j) == Char64(Index(j % 4, s[Source(j)], At(s, Source(j) + 1)))
  {
    var k := j / 4;
    StepsAreBits(At(s, 3 * k), At(s, 3 * k + 1), At(s, 3 * k + 2));
    hide SixBits, Index, Char64;
  }

  function Min(a: nat, b: nat): nat {
    if a <= b then a else b
  }

  /** The padding there is room for. */
  function Padding(n: nat): nat {
    if TextLength(n) >= MAX_STRING then 0 else Min(Pads(n), MAX_STRING - TextLength(n))
  }

  lemma Thirds(n: nat, k: nat, r: nat)
    requires n == 3 * k + r && r < 3
    ensures n * 8 / 6 == 4 * k + r && (4 * k + r) * 6 % 24 == 6 * r
    ensures TextLength(n) == 4 * k + (if r == 0 then 0 else r + 1) && Pads(n) == if r == 0 then 0 else 3 - r
  {
    assert n * 8 == 6 * (4 * k + r) + 2 * r;
    assert (4 * k + r) * 6 == 24 * k + 6 * r;
    assert n % 3 == r;
  }

  /** The length of the text, and the padding it needs. */
  method Lengths(n: nat) returns (length: nat, pad: nat)
    ensures length == TextLength(n) && pad == Pads(n)
  {
    length, pad := n * 8 / 6, 0;
    Thirds(n, n / 3, n % 3);
    hide *;
    if length * 6 % 24 != 0 {
      pad := length * 6 % 24;
      pad := (24 - pad) / 6;
      pad := pad - 1;
      length := length + 1;
    }
  }

  lemma NextPlace(j: nat)
    ensures (j + 1) % 4 == if j % 4 == 3 then 0 else j % 4 + 1
    ensures Source(j + 1) == if j % 4 == 0 then Source(j) else Source(j) + 1
  {
    assert (j + 1) / 4 == if j % 4 == 3 then j / 4 + 1 else j / 4;
  }

  /** Writes character number `j`, and moves on in the name. */
  method EncodeStep(name: array<Byte>, n: nat, base64Name: array<Byte>, i: nat, j: nat, step: nat, ghost s: seq<Byte>)
    returns (i': nat, step': nat)
    requires n < name.Length && name[n] == 0 && name != base64Name && s == name[..n]
    requires j < TextLength(n) && j < base64Name.Length && step == j % 4 && i == Source(j)
    modifies base64Name
    ensures base64Name[j] == TextChar(s, j)
    ensures forall k :: 0 <= k < base64Name.Length && k != j ==> base64Name[k] == old(base64Name[k])
    ensures step' == (j + 1) % 4 && i' == Source(j + 1)
  {
    IndexIsRight(s, j);
    NextPlace(j);
    hide TextChar, Char64, Source, TextLength;
    i', step' := i, step;
    if step == 0 {
      base64Name[j] := Char64(name[i] / 4);
      step' := step + 1;
    } else if step == 1 {
      base64Name[j] := Char64(name[i] % 4 * 16 + name[i + 1] / 16);
      i', step' := i + 1, step + 1;
    } else if step == 2 {
      base64Name[j] := Char64(name[i] % 16 * 4 + name[i + 1] / 64);
      i', step' := i + 1, step + 1;
    } else {
      base64Name[j] := Char64(name[i] % 64);
      i', step' := i + 1, 0;
    }
  }

  /** Encodes the first `n` characters of a name; a NUL stands behind them, and behind the text that is written. */
  method Encode(name: array<Byte>, n: nat, base64Name: array<Byte>)
    requires n < name.Length && name[n] == 0 && name != base64Name
    requires TextLength(n) + Padding(n) < base64Name.Length
    modifies base64Name
    ensures var t := Text(name[..n]) + Equals(Padding(n)); base64Name[..|t|] == t && base64Name[|t|] == 0
    ensures forall k :: TextLength(n) <= k < TextLength(n) + Padding(n) ==> base64Name[k] == 61
  {
    ghost var s := name[..n];
    var length, pad := Lengths(n);
    assert Text(s) == seq(TextLength(n), j requires 0 <= j => TextChar(s, j));
    hide TextChar, TextLength, Source;
    var i, j, step := 0, 0, 0;
    assert i == Source(0) by {
      SourceStart();
    }
    while j < length
      invariant j <= length && step == j % 4 && i == Source(j)
      invariant forall k :: 0 <= k < j ==> base64Name[k] == TextChar(s, k)
    {
      i, step := EncodeStep(name, n, base64Name, i, j, step, s);
      j := j + 1;
    }
    AddPadding(base64Name, pad, j, Text(s), n);
  }

  lemma SourceStart()
    ensures Source(0) == 0
  {
  }

  /** Adds the padding there is room for, and the NUL. */
  method AddPadding(base64Name: array<Byte>, pad: nat, start: nat, ghost text: seq<Byte>, ghost n: nat)
    requires start == TextLength(n) && pad == Pads(n) && start + Padding(n) < base64Name.Length
    requires |text| == start && forall k :: 0 <= k < start ==> base64Name[k] == text[k]
    modifies base64Name
    ensures var t := text + Equals(Padding(n)); base64Name[..|t|] == t && base64Name[|t|] == 0
    ensures forall k :: start <= k < start + Padding(n) ==> base64Name[k] == 61
  {
    var j, left := start, pad;
    while left > 0 && j < MAX_STRING
      invariant start <= j <= start + Padding(n) && left == pad - (j - start)
      invariant forall k :: 0 <= k < start ==> base64Name[k] == text[k]
      invariant forall k :: start <= k < j ==> base64Name[k] == '=' as int
    {
      left := left - 1;
      base64Name[j] := '=' as int;
      j := j + 1;
    }
    base64Name[j] := 0;
  }

  /**
   The client writes the standard's encoding for input of up to 39 bytes, and for longer input only when that needs
   no padding: with 40 and 41 bytes one sign of padding is lost.
   */
  lemma ClippedPadding(s: seq<Byte>)
    ensures Text(s) + Equals(Padding(|s|)) == Standard(s) <==> |s| <= 39 || |s| % 3 == 0
  {
    assert |Equals(Padding(|s|))| == Padding(|s|) && |Equals(Pads(|s|))| == Pads(|s|);
    if Text(s) + Equals(Padding(|s|)) == Standard(s) {
      assert |Text(s) + Equals(Padding(|s|))| == |Standard(s)|;
      assert Padding(|s|) == Pads(|s|);
    }
  }

  /** Up to 41 bytes the text, its padding and the NUL fit in the string the callers provide; 42 bytes do not. */
  lemma FitsString(n: nat)
    ensures TextLength(n) + Padding(n) < 56 <==> n <= 41
  {
  }
}
