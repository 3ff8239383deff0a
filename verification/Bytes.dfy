/** Bytes and the ASCII characters the HTTP client compares them with. */
module Bytes {
  type Byte = b: int | 0 <= b < 256

  /** Counters and lengths are 32-bit unsigned integers. */
  const UINT_RANGE: nat := 0x1_0000_0000

  const CR: Byte := 13
  const LF: Byte := 10
  const CRLF: seq<Byte> := [13, 10]

  /** The value of a hexadecimal digit in either case, and -1 for any other byte. */
  function HexDigit(b: Byte): (v: int)
    ensures -1 <= v < 16
  {
    if 'a' as int <= b <= 'f' as int then b - 'a' as int + 10
    else if 'A' as int <= b <= 'F' as int then b - 'A' as int + 10
    else if '0' as int <= b <= '9' as int then b - '0' as int
    else -1
  }

  predicate IsHexDigit(b: Byte) {
    HexDigit(b) >= 0
  }

  /** The lower-case digit of a value below sixteen. */
  function HexChar(v: nat): (b: Byte)
    requires v < 16
    ensures HexDigit(b) == v
  {
    if v < 10 then '0' as int + v else 'a' as int + (v - 10)
  }

  /** The digits of both cases, in order. */
  lemma HexTable(b: Byte, v: nat)
    requires v < 16
    ensures HexChar(v) == "0123456789abcdef"[v] as int
    ensures HexDigit(b) == v <==> b == "0123456789abcdef"[v] as int || b == "0123456789ABCDEF"[v] as int
  {
  }

  lemma Assoc(a: seq<Byte>, b: seq<Byte>, c: seq<Byte>)
    ensures a + b + c == a + (b + c)
  {
  }

  lemma TakeFront(a: seq<Byte>, b: seq<Byte>, n: nat)
    requires n <= |a|
    ensures (a + b)[..n] == a[..n]
  {
  }

  lemma TakeInto(a: seq<Byte>, b: seq<Byte>, n: nat)
    requires n <= |b|
    ensures (a + b)[..|a| + n] == a + b[..n]
  {
  }

  lemma DropDrop(s: seq<Byte>, m: nat, n: nat)
    requires m + n <= |s|
    ensures s[m..][n..] == s[m + n..]
  {
  }

  lemma PrefixBehind(part: seq<Byte>, a: seq<Byte>, b: seq<Byte>)
    requires a <= b
    ensures part + a <= part + b && part <= part + b && [] <= part + b
  {
    assert b == a + b[|a|..];
    Assoc(part, a, b[|a|..]);
  }

  /** Two sequences in two parts of the same lengths. */
  lemma SameParts(a: seq<Byte>, b: seq<Byte>, x: seq<Byte>, y: seq<Byte>)
    requires |a| == |x|
    ensures a + b == x + y <==> a == x && b == y
  {
    assert (a + b)[..|a|] == a && (x + y)[..|x|] == x;
    assert (a + b)[|a|..] == b && (x + y)[|x|..] == y;
  }

  predicate EndsWith<T(==)>(s: seq<T>, end: seq<T>) {
    |end| <= |s| && s[|s| - |end|..] == end
  }

  lemma HeadTail(s: seq<Byte>, b: Byte, rest: seq<Byte>)
    requires s == [b] + rest
    ensures s != [] && s[0] == b && s[1..] == rest
  {
  }

  function Flatten(parts: seq<seq<Byte>>): seq<Byte> {
    if parts == [] then [] else parts[0] + Flatten(parts[1..])
  }

  lemma {:induction false} FlattenAppend(xs: seq<seq<Byte>>, ys: seq<seq<Byte>>)
    ensures Flatten(xs + ys) == Flatten(xs) + Flatten(ys)
  {
    if xs == [] {
      assert xs + ys == ys;
    } else {
      assert (xs + ys)[1..] == xs[1..] + ys;
      FlattenAppend(xs[1..], ys);
    }
  }
}
