/** The DER encoding of an ECDSA signature, and a reader of such encodings that knows nothing of the writer. */
module SignatureDer {
  import opened Bytes

  const SEQUENCE: Byte := 0x30
  const INTEGER: Byte := 0x02

  // ---------------------------------------------------------------- what is written

  /** A zero in front of a number whose first bit is set. */
  function Pad(b: seq<Byte>): seq<Byte> {
    if b != [] && b[0] >= 0x80 then [0] else []
  }

  /** An integer; its length is one byte, with the higher bits cut off. */
  function IntegerOf(b: seq<Byte>): seq<Byte> {
    [INTEGER, (|Pad(b)| + |b|) % 256] + (Pad(b) + b)
  }

  function HeaderOf(size: nat): seq<Byte> {
    if size < 0x80 then [SEQUENCE, size] else [SEQUENCE, 0x81, size % 256]
  }

  function SignatureOf(r: seq<Byte>, s: seq<Byte>): seq<Byte> {
    var body := IntegerOf(r) + IntegerOf(s);
    HeaderOf(|body|) + body
  }

  /** A sequence (tag 48) of two integers (tag 2) of these sizes, with the tags of X.690 where they belong. */
  predicate Tagged(t: seq<Byte>, m: nat, n: nat) {
    var at := if m + n + 4 < 0x80 then 2 else 3;
    && |t| == at + m + n + 4 && t[0] == 48 && t[at] == 2 && t[at + 2 + m] == 2
    && t[1] == (if at == 2 then m + n + 4 else 129)
  }

  lemma SignatureParts(r: seq<Byte>, s: seq<Byte>)
    ensures var body := IntegerOf(r) + IntegerOf(s);
      && SignatureOf(r, s) == HeaderOf(|body|) + body
      && |body| == |Pad(r)| + |r| + |Pad(s)| + |s| + 4 && |HeaderOf(|body|)| <= 3
    ensures Tagged(SignatureOf(r, s), |Pad(r)| + |r|, |Pad(s)| + |s|)
  {
    var rs, ss := IntegerOf(r), IntegerOf(s);
    var h := HeaderOf(|rs + ss|);
    assert (h + (rs + ss))[|h|] == rs[0] && (h + (rs + ss))[|h| + |rs|] == ss[0];
  }

  // ---------------------------------------------------------------- the writer

  method CopyBytes(signature: array<Byte>, at: nat, b: array<Byte>, n: nat)
    requires n <= b.Length && signature != b && at + n <= signature.Length
    modifies signature
    ensures signature[at..at + n] == b[..n]
    ensures forall k :: 0 <= k < signature.Length && !(at <= k < at + n) ==> signature[k] == old(signature[k])
  {
    var i := 0;
    while i < n
      invariant 0 <= i <= n
      invariant forall k :: 0 <= k < i ==> signature[at + k] == b[k]
      invariant forall k :: 0 <= k < signature.Length && !(at <= k < at + n) ==> signature[k] == old(signature[k])
    {
      signature[at + i] := b[i];
      i := i + 1;
    }
  }

  /** Writes an integer at an offset. */
  method WriteInteger(signature: array<Byte>, at: nat, b: array<Byte>, n: nat) returns (at': nat)
    requires 1 <= n <= b.Length && signature != b && at + n + 3 <= signature.Length
    modifies signature
    ensures at' == at + |IntegerOf(b[..n])| <= at + n + 3
    ensures signature[at..at'] == IntegerOf(b[..n])
    ensures forall k :: 0 <= k < signature.Length && !(at <= k < at') ==> signature[k] == old(signature[k])
  {
    var padZero := if b[0] >= 0x80 then 1 else 0;
    signature[at] := INTEGER;
    signature[at + 1] := (n + padZero) % 256;
    if padZero == 1 {
      signature[at + 2] := 0;
    }
    CopyBytes(signature, at + 2 + padZero, b, n);
    at' := at + 2 + padZero + n;
    ghost var number := b[..n];
    assert signature[at..at + 2] == [INTEGER, (n + padZero) % 256];
    assert signature[at + 2..at + 2 + padZero] == Pad(number);
    Cut(signature[..], at, at + 2, at + 2 + padZero, at');
  }

  lemma Cut(a: seq<Byte>, i: nat, j: nat, k: nat, l: nat)
    requires i <= j <= k <= l <= |a|
    ensures a[i..l] == a[i..j] + (a[j..k] + a[k..l])
  {
  }

  lemma Three<T>(a: seq<T>, i: nat, j: nat, k: nat)
    requires i <= j <= k <= |a|
    ensures a[..k] == a[..i] + a[i..j] + a[j..k]
  {
  }

  /**
   Encodes a signature from two numbers of the same size in bits. A null pointer for the second number is not
   noticed, and neither is a buffer that is too small: both are up to the caller.
   */
  method SigToAsn1Der(signature: array?<Byte>, r: array?<Byte>, s: array<Byte>, keySizeInBits: nat)
    returns (status: int, signatureLength: nat)
    requires var n := keySizeInBits / 8;
      signature != null && r != null ==> 1 <= n <= r.Length && n <= s.Length && 2 * n + 10 <= signature.Length
    requires signature != r && signature != s
    modifies if signature == null then {} else {signature}
    ensures status == if signature == null || r == null then -1 else 0
    ensures status == 0 ==> var n := keySizeInBits / 8;
      && signatureLength == |SignatureOf(r[..n], s[..n])| < 2 * n + 10
      && signature[..signatureLength] == SignatureOf(r[..n], s[..n])
      && signature[signatureLength..] == old(signature[signatureLength..])
      && Tagged(signature[..signatureLength], |Pad(r[..n])| + n, |Pad(s[..n])| + n)
    ensures status != 0 && signature != null ==> signature[..] == old(signature[..])
  {
    signatureLength := 0;
    if signature == null || r == null {
      return -1, 0;
    }
    var n := keySizeInBits / 8;
    SignatureParts(r[..n], s[..n]);
    hide *;
    signatureLength := WriteSignature(signature, r, s, n);
    status := 0;
  }

  /** Writes the header and both integers. */
  method WriteSignature(signature: array<Byte>, r: array<Byte>, s: array<Byte>, n: nat) returns (signatureLength: nat)
    requires 1 <= n <= r.Length && n <= s.Length && 2 * n + 10 <= signature.Length
    requires signature != r && signature != s
    modifies signature
    ensures signatureLength == |SignatureOf(r[..n], s[..n])| < 2 * n + 10
    ensures signature[..signatureLength] == SignatureOf(r[..n], s[..n])
    ensures signature[signatureLength..] == old(signature[signatureLength..])
  {
    var padZeroR, padZeroS := if r[0] >= 0x80 then 1 else 0, if s[0] >= 0x80 then 1 else 0;
    var sequenceSize := 2 * n + padZeroR + padZeroS + 4;
    ghost var rs, ss := IntegerOf(r[..n]), IntegerOf(s[..n]);
    assert sequenceSize == |rs + ss|;
    hide IntegerOf, HeaderOf;
    var at := WriteHeader(signature, sequenceSize);
    signatureLength := sequenceSize + at;
    ghost var end := WriteBoth(signature, at, r, s, n, HeaderOf(sequenceSize), rs, ss);
  }

  /** Writes the tag and the length of the sequence. */
  method WriteHeader(signature: array<Byte>, sequenceSize: nat) returns (at: nat)
    requires signature.Length >= 3
    modifies signature
    ensures at == |HeaderOf(sequenceSize)| <= 3 && signature[..at] == HeaderOf(sequenceSize)
    ensures forall k :: 3 <= k < signature.Length ==> signature[k] == old(signature[k])
  {
    signature[0] := SEQUENCE;
    if sequenceSize < 0x80 {
      signature[1] := sequenceSize;
      at := 2;
    } else {
      signature[1], signature[2] := 0x81, sequenceSize % 256;
      at := 3;
    }
  }

  /** Writes an integer behind what is written already. */
  method AppendInteger(signature: array<Byte>, at: nat, b: array<Byte>, n: nat, ghost front: seq<Byte>,
      ghost number: seq<Byte>) returns (at': nat)
    requires 1 <= n <= b.Length && signature != b && at + n + 3 <= signature.Length
    requires signature[..at] == front && number == IntegerOf(b[..n])
    modifies signature
    ensures at' == at + |number| <= at + n + 3 && signature[..at'] == front + number
    ensures forall k :: at' <= k < signature.Length ==> signature[k] == old(signature[k])
  {
    hide IntegerOf;
    at' := WriteInteger(signature, at, b, n);
    assert signature[..at] == front;
    Three(signature[..], 0, at, at');
  }

  /** Writes both integers behind the header. */
  method WriteBoth(signature: array<Byte>, at: nat, r: array<Byte>, s: array<Byte>, n: nat,
      ghost front: seq<Byte>, ghost rs: seq<Byte>, ghost ss: seq<Byte>)
    returns (ghost end: nat)
    requires 1 <= n <= r.Length && n <= s.Length && signature != r && signature != s
    requires at == |front| && at + 2 * n + 6 <= signature.Length && signature[..at] == front
    requires rs == IntegerOf(r[..n]) && ss == IntegerOf(s[..n])
    modifies signature
    ensures end == |front + (rs + ss)| && signature[..end] == front + (rs + ss)
    ensures forall k :: end <= k < signature.Length ==> signature[k] == old(signature[k])
  {
    hide IntegerOf;
    var mid := AppendInteger(signature, at, r, n, front, rs);
    var last := AppendInteger(signature, mid, s, n, front + rs, ss);
    Assoc(front, rs, ss);
    end := last;
  }

  // ---------------------------------------------------------------- the reader

  datatype Option<T> = None | Some(value: T)

  datatype Tlv = Tlv(content: seq<Byte>, rest: seq<Byte>)

  /** A definite length by section 8.1.3 of X.690, of up to two bytes in the long form. */
  function ReadLength(t: seq<Byte>): Option<(nat, seq<Byte>)> {
    if t == [] then None
    else if t[0] < 0x80 then Some((t[0], t[1..]))
    else if t[0] == 0x81 && |t| >= 2 then Some((t[1], t[2..]))
    else if t[0] == 0x82 && |t| >= 3 then Some((t[1] as int * 256 + t[2], t[3..]))
    else None
  }

  function ReadTlv(tag: Byte, t: seq<Byte>): Option<Tlv> {
    if t == [] || t[0] != tag then None
    else match ReadLength(t[1..])
      case None => None
      case Some((n, rest)) => if n <= |rest| then Some(Tlv(rest[..n], rest[n..])) else None
  }

  /** The number that bytes make up, the first one counting most. */
  function Number(b: seq<Byte>): nat {
    if b == [] then 0 else Number(b[..|b| - 1]) * 256 + b[|b| - 1]
  }

  function Power256(n: nat): nat {
    if n == 0 then 1 else 256 * Power256(n - 1)
  }

  /** The value of an integer by section 8.3 of X.690: two's complement. */
  function IntegerValue(b: seq<Byte>): Option<int> {
    if b == [] then None
    else Some(if b[0] < 0x80 then Number(b) else Number(b) - Power256(|b|))
  }

  /** Reads a sequence (tag 48) of two integers (tag 2) with nothing behind it. */
  function ReadSignature(t: seq<Byte>): Option<(int, int)> {
    match ReadTlv(48, t)
    case None => None
    case Some(outer) =>
      if outer.rest != [] then None
      else match ReadTlv(2, outer.content)
        case None => None
        case Some(first) =>
          match ReadTlv(2, first.rest)
          case None => None
          case Some(second) =>
            match (IntegerValue(first.content), IntegerValue(second.content))
            case (Some(x), Some(y)) => if second.rest == [] then Some((x, y)) else None
            case _ => None
  }

  lemma {:induction false} NumberPadded(b: seq<Byte>)
    ensures Number([0] + b) == Number(b)
  {
    if b == [] {
      assert ([0] + b)[..0] == [];
    } else {
      assert ([0] + b)[..|b|] == [0] + b[..|b| - 1];
      NumberPadded(b[..|b| - 1]);
    }
  }

  /** A padded number is read as the number it is. */
  lemma {:induction false} PaddedValue(b: seq<Byte>)
    requires b != []
    ensures IntegerValue(Pad(b) + b) == Some(Number(b))
  {
    if b[0] >= 0x80 {
      NumberPadded(b);
    } else {
      assert Pad(b) + b == b;
    }
  }

  /** An integer whose length fits a byte of the short form is read back. */
  lemma IntegerReads(b: seq<Byte>, rest: seq<Byte>)
    requires b != [] && |Pad(b)| + |b| < 0x80
    ensures ReadTlv(2, IntegerOf(b) + rest) == Some(Tlv(Pad(b) + b, rest))
  {
    var t := IntegerOf(b) + rest;
    var n := |Pad(b)| + |b|;
    assert t[1..][0] == n && t[1..][1..] == Pad(b) + b + rest;
    assert (Pad(b) + b + rest)[..n] == Pad(b) + b && (Pad(b) + b + rest)[n..] == rest;
  }

  /** The outer sequence is read back as long as its length fits a byte; beyond that bytes are left behind it. */
  lemma SequenceReads(body: seq<Byte>)
    ensures ReadTlv(48, HeaderOf(|body|) + body) == Some(Tlv(body[..Declared(|body|)], body[Declared(|body|)..]))
  {
    var t := HeaderOf(|body|) + body;
    if |body| < 0x80 {
      assert t[1..][0] == |body| && t[1..][1..] == body;
    } else {
      assert t[1..][0] == 0x81 && t[1..][1] == |body| % 256 && t[1..][2..] == body;
    }
  }

  /** The length that is written. */
  function Declared(size: nat): (n: nat)
    ensures n <= size
    ensures n == size <==> size < 256
  {
    if size < 0x80 then size else size % 256
  }

  /** What is written reads back as the two numbers exactly as long as the sequence has at most 255 bytes. */
  lemma {:induction false} SignatureReads(r: seq<Byte>, s: seq<Byte>)
    requires |r| == |s| >= 1
    ensures ReadSignature(SignatureOf(r, s)) == Some((Number(r) as int, Number(s) as int))
       <==> 2 * |r| + |Pad(r)| + |Pad(s)| + 4 <= 255
  {
    var body := IntegerOf(r) + IntegerOf(s);
    SequenceReads(body);
    if |body| <= 255 {
      assert body[..|body|] == body && body[|body|..] == [];
      hide IntegerOf;
      IntegerReads(r, IntegerOf(s));
      assert IntegerOf(s) + [] == IntegerOf(s);
      IntegerReads(s, []);
      PaddedValue(r);
      PaddedValue(s);
    }
  }

  /** Where an integer lies in front of other bytes. */
  lemma IntegerParts(a: seq<Byte>, x: seq<Byte>)
    ensures var t, n := IntegerOf(a) + x, 2 + |Pad(a)|;
      |t| >= n + |a| && t[1] == (n - 2 + |a|) % 256 && t[n..n + |a|] == a && t[n + |a|..] == x
  {
    var t := IntegerOf(a) + x;
    var front := [INTEGER, (|Pad(a)| + |a|) % 256] + Pad(a);
    assert t == front + a + x;
  }

  /** The integer in front is determined by the bytes, even where its length byte has lost its higher bits. */
  lemma IntegerFront(a: seq<Byte>, b: seq<Byte>, x: seq<Byte>, y: seq<Byte>)
    requires |a| == |b| >= 1 && IntegerOf(a) + x == IntegerOf(b) + y
    ensures a == b && x == y
  {
    IntegerParts(a, x);
    IntegerParts(b, y);
    hide IntegerOf;
    assert |Pad(a)| == |Pad(b)|;
  }

  /** Different signatures of one size have different encodings, however long they are. */
  lemma Injective(r: seq<Byte>, s: seq<Byte>, r': seq<Byte>, s': seq<Byte>)
    requires 1 <= |r| == |s| == |r'| == |s'|
    requires SignatureOf(r, s) == SignatureOf(r', s')
    ensures r == r' && s == s'
  {
    var body, body' := IntegerOf(r) + IntegerOf(s), IntegerOf(r') + IntegerOf(s');
    var t, t' := HeaderOf(|body|) + body, HeaderOf(|body'|) + body';
    assert t[1] == t'[1];
    var n := |HeaderOf(|body|)|;
    assert t[n..] == body && t'[n..] == body';
    hide IntegerOf;
    IntegerFront(r, r', IntegerOf(s), IntegerOf(s'));
    assert IntegerOf(s) + [] == IntegerOf(s') + [];
    IntegerFront(s, s', [], []);
  }

  // ---------------------------------------------------------------- the distinguished encoding

  /** No leading zero that could be left out. */
  predicate Minimal(b: seq<Byte>) {
    b != [] && (|b| > 1 && b[0] == 0 ==> b[1] >= 0x80)
  }

  /** An integer in the fewest bytes, by section 8.3.2 of X.690. */
  predicate ShortestInteger(b: seq<Byte>) {
    b != [] && (|b| > 1 ==> !(b[0] == 0 && b[1] < 0x80) && !(b[0] == 0xFF && b[1] >= 0x80))
  }

  /** Both integers that a reader finds in an encoding are in the fewest bytes. */
  predicate Distinguished(t: seq<Byte>) {
    match ReadTlv(48, t)
    case None => false
    case Some(outer) =>
      match ReadTlv(2, outer.content)
      case None => false
      case Some(first) =>
        match ReadTlv(2, first.rest)
        case None => false
        case Some(second) =>
          && ShortestInteger(first.content) && ShortestInteger(second.content)
          && second.rest == [] && outer.rest == []
  }

  lemma ShortestIffMinimal(b: seq<Byte>)
    requires b != []
    ensures ShortestInteger(Pad(b) + b) <==> Minimal(b)
  {
    if b[0] < 0x80 {
      assert Pad(b) + b == b;
    }
  }

  /** The encoding is the distinguished one unless a number of fixed size starts with a zero that it does not need. */
  lemma DistinguishedIff(r: seq<Byte>, s: seq<Byte>)
    requires |r| == |s| >= 1 && 2 * |r| + |Pad(r)| + |Pad(s)| + 4 <= 255
    ensures Distinguished(SignatureOf(r, s)) <==> Minimal(r) && Minimal(s)
  {
    var body := IntegerOf(r) + IntegerOf(s);
    SequenceReads(body);
    assert body[..|body|] == body && body[|body|..] == [];
    hide IntegerOf;
    IntegerReads(r, IntegerOf(s));
    assert IntegerOf(s) + [] == IntegerOf(s);
    IntegerReads(s, []);
    ShortestIffMinimal(r);
    ShortestIffMinimal(s);
  }
}
