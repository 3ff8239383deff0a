/** Hexadecimal conversions over one shared buffer, and their use when an operational certificate is requested. */
module HexIdentity {
  import opened Bytes
  import SignatureDer

  const WORK_BUFFER_SIZE: nat := 1501

  /** The shared buffer, and how much of it the last conversion filled. */
  class WorkBuffer {
    const buffer: array<Byte>
    var size: nat

    constructor ()
      ensures fresh(buffer) && buffer.Length == WORK_BUFFER_SIZE && size == 0
    {
      buffer, size := new Byte[WORK_BUFFER_SIZE], 0;
    }
  }

  // ---------------------------------------------------------------- the conversions

  function Lower(c: Byte): Byte {
    if 'A' as int <= c <= 'Z' as int then c - 'A' as int + 'a' as int else c
  }

  function LowerAll(t: seq<Byte>): (u: seq<Byte>)
    ensures |u| == |t|
  {
    seq(|t|, i requires 0 <= i < |t| => Lower(t[i]))
  }

  /** Two lower-case digits for each byte. */
  function HexText(b: seq<Byte>): (t: seq<Byte>)
    ensures |t| == 2 * |b|
  {
    seq(2 * |b|, i requires 0 <= i < 2 * |b| => HexChar(if i % 2 == 0 then b[i / 2] / 16 else b[i / 2] % 16))
  }

  /** Whole pairs of hexadecimal digits in either case. */
  predicate IsHexText(t: seq<Byte>) {
    |t| % 2 == 0 && forall i :: 0 <= i < |t| ==> IsHexDigit(t[i])
  }

  /** The bytes that pairs of digits write. */
  function HexBytes(t: seq<Byte>): (b: seq<Byte>)
    requires IsHexText(t)
    ensures |b| == |t| / 2
  {
    seq(|t| / 2, i requires 0 <= i < |t| / 2 => PairAt(t, i))
  }

  function PairAt(t: seq<Byte>, i: nat): Byte
    requires IsHexText(t) && i < |t| / 2
  {
    assert IsHexDigit(t[2 * i]) && IsHexDigit(t[2 * i + 1]);
    HexDigit(t[2 * i]) * 16 + HexDigit(t[2 * i + 1])
  }

  /** Decoding what was encoded gives the bytes back. */
  lemma TextDecodes(b: seq<Byte>)
    ensures IsHexText(HexText(b)) && HexBytes(HexText(b)) == b
  {
    forall i | 0 <= i < |b|
      ensures IsHexText(HexText(b)) && HexBytes(HexText(b))[i] == b[i]
    {
      var t := HexText(b);
      assert t[2 * i] == HexChar(b[i] / 16) && t[2 * i + 1] == HexChar(b[i] % 16);
    }
  }

  lemma DigitChar(c: Byte)
    requires IsHexDigit(c)
    ensures HexChar(HexDigit(c)) == Lower(c) && HexDigit(Lower(c)) == HexDigit(c) && IsHexDigit(Lower(c))
  {
  }

  lemma NotDigit(c: Byte)
    ensures IsHexDigit(Lower(c)) <==> IsHexDigit(c)
  {
  }

  /** Encoding what was decoded gives the text back in lower case. */
  lemma BytesEncode(t: seq<Byte>)
    requires IsHexText(t)
    ensures HexText(HexBytes(t)) == LowerAll(t)
  {
    var b := HexBytes(t);
    forall i | 0 <= i < |t|
      ensures HexText(b)[i] == Lower(t[i])
    {
      assert IsHexDigit(t[i]);
      DigitChar(t[i]);
      var k := i / 2;
      assert b[k] == PairAt(t, k);
      assert IsHexDigit(t[2 * k]) && IsHexDigit(t[2 * k + 1]);
      assert b[k] / 16 == HexDigit(t[2 * k]) && b[k] % 16 == HexDigit(t[2 * k + 1]);
    }
  }

  lemma LowerDecodes(t: seq<Byte>)
    ensures IsHexText(LowerAll(t)) <==> IsHexText(t)
    ensures IsHexText(t) ==> HexBytes(LowerAll(t)) == HexBytes(t)
  {
    var u := LowerAll(t);
    forall i | 0 <= i < |t|
      ensures IsHexDigit(u[i]) <==> IsHexDigit(t[i])
      ensures IsHexDigit(t[i]) ==> HexDigit(u[i]) == HexDigit(t[i])
    {
      NotDigit(t[i]);
      if IsHexDigit(t[i]) {
        DigitChar(t[i]);
      }
    }
  }

  // ---------------------------------------------------------------- bytes to text

  /** Writes the two digits of a byte and a NUL behind them. */
  method PrintByte(buffer: array<Byte>, at: nat, b: Byte)
    requires at + 2 < buffer.Length
    modifies buffer
    ensures buffer[at] == HexChar(b / 16) && buffer[at + 1] == HexChar(b % 16) && buffer[at + 2] == 0
    ensures forall k :: 0 <= k < buffer.Length && !(at <= k <= at + 2) ==> buffer[k] == old(buffer[k])
  {
    buffer[at], buffer[at + 1], buffer[at + 2] := HexChar(b / 16), HexChar(b % 16), 0;
  }

  /** Converts bytes to text in the shared buffer; at most 749 bytes fit. No byte at all leaves the buffer as it was. */
  method BinToHex(w: WorkBuffer, bin: array<Byte>, n: nat) returns (ok: bool)
    requires w.buffer.Length == WORK_BUFFER_SIZE && bin != w.buffer && n <= bin.Length
    modifies w`size, w.buffer
    ensures ok <==> n <= 749
    ensures n == 0 ==> w.size == 1 && w.buffer[..] == old(w.buffer[..])
    ensures 1 <= n <= 749 ==> w.size == 2 * n + 1 && w.buffer[..2 * n] == HexText(bin[..n]) && w.buffer[2 * n] == 0
    ensures n >= 750 ==> w.size == 0 && w.buffer[0] == 0
  {
    w.size := 0;
    var i, hexIdx := 0, 0;
    while i < n
      invariant i <= n && hexIdx == 2 * i && i <= 749
      invariant forall k :: 0 <= k < hexIdx ==> w.buffer[k] == HexText(bin[..n])[k]
      invariant if i == 0 then w.buffer[..] == old(w.buffer[..]) else w.buffer[hexIdx] == 0
      invariant w.size == 0
    {
      PrintByte(w.buffer, hexIdx, bin[i]);
      assert HexText(bin[..n])[hexIdx] == HexChar(bin[i] / 16) && HexText(bin[..n])[hexIdx + 1] == HexChar(bin[i] % 16);
      hexIdx := hexIdx + 2;
      if hexIdx >= WORK_BUFFER_SIZE - 1 {
        w.buffer[0] := 0;
        return false;
      }
      i := i + 1;
    }
    w.size := hexIdx + 1;
    ok := true;
  }

  // ---------------------------------------------------------------- text to bytes

  /** A C string of length `n`. */
  predicate CString(s: seq<Byte>, n: nat) {
    n < |s| && s[n] == 0 && forall i :: 0 <= i < n ==> s[i] != 0
  }

  method Strlen(s: array<Byte>, ghost n: nat) returns (len: nat)
    requires CString(s[..], n)
    ensures len == n
  {
    len := 0;
    while s[len] != 0
      invariant len <= n
      decreases n - len
    {
      len := len + 1;
    }
  }

  /** Turns a string to lower case in place. */
  method LowerInPlace(s: array<Byte>, n: nat)
    requires n < s.Length
    modifies s
    ensures s[..n] == LowerAll(old(s[..n]))
    ensures forall k :: n <= k < s.Length ==> s[k] == old(s[k])
  {
    var i := 0;
    while i < n
      invariant i <= n
      invariant forall k :: 0 <= k < i ==> s[k] == Lower(old(s[k]))
      invariant forall k :: i <= k < s.Length ==> s[k] == old(s[k])
    {
      s[i] := Lower(s[i]);
      i := i + 1;
    }
  }

  /** The value of a pair of digits. */
  function Pair(a: Byte, b: Byte): Byte
    requires IsHexDigit(a) && IsHexDigit(b)
  {
    HexDigit(a) * 16 + HexDigit(b)
  }

  /** The reader has consumed `k` pairs of the lower-case text `low` in the string, and written their bytes. */
  ghost predicate Converting(buffer: array<Byte>, hexStr: array<Byte>, low: seq<Byte>, k: nat)
    reads buffer, hexStr
  {
    && buffer.Length == WORK_BUFFER_SIZE && 2 * k <= |low| < hexStr.Length && k <= WORK_BUFFER_SIZE - 2
    && (forall i :: 2 * k <= i < |low| ==> hexStr[i] == low[i]) && hexStr[|low|] == 0
    && (hexStr != buffer ==> hexStr[..|low|] == low)
    && (forall i :: 0 <= i < 2 * k ==> IsHexDigit(low[i]))
    && (forall i :: 0 <= i < k ==>
          && IsHexDigit(low[2 * i]) && IsHexDigit(low[2 * i + 1])
          && buffer[i] == Pair(low[2 * i], low[2 * i + 1]))
  }

  lemma Converted(buffer: array<Byte>, hexStr: array<Byte>, low: seq<Byte>, k: nat)
    requires Converting(buffer, hexStr, low, k) && 2 * k == |low|
    ensures IsHexText(low) && buffer[..k] == HexBytes(low)
  {
    forall i | 0 <= i < k
      ensures IsHexText(low) && buffer[i] == HexBytes(low)[i]
    {
    }
  }

  /** Reads one pair of digits and writes its byte. */
  method ConvertPair(buffer: array<Byte>, hexStr: array<Byte>, binIdx: nat, ghost low: seq<Byte>) returns (ok: bool)
    requires Converting(buffer, hexStr, low, binIdx) && 2 * binIdx < |low|
    modifies buffer
    ensures ok <==> 2 * binIdx + 1 < |low| && IsHexDigit(low[2 * binIdx]) && IsHexDigit(low[2 * binIdx + 1])
    ensures ok && binIdx < WORK_BUFFER_SIZE - 2 ==> Converting(buffer, hexStr, low, binIdx + 1)
    ensures hexStr != buffer ==> hexStr[..] == old(hexStr[..])
  {
    var hexIdx := 2 * binIdx;
    var a, b := hexStr[hexIdx], hexStr[hexIdx + 1];
    ok := IsHexDigit(a) && IsHexDigit(b);
    hide IsHexDigit, HexDigit;
    if ok {
      buffer[binIdx] := Pair(a, b);
    }
  }

  /**
   Converts text to bytes in the shared buffer, also when the text is in that buffer itself. It must be whole pairs
   of digits, at most 2998 characters; anything else leaves the size zero. Without a text the size stays as it was.
   */
  method HexToBin(w: WorkBuffer, hexStr: array?<Byte>, ghost n: nat) returns (ok: bool)
    requires w.buffer.Length == WORK_BUFFER_SIZE && (hexStr != null ==> CString(hexStr[..], n))
    modifies w`size, w.buffer, if hexStr == null then {} else {hexStr}
    ensures hexStr == null ==> !ok && w.size == old(w.size) && w.buffer[..] == old(w.buffer[..])
    ensures hexStr != null ==> var t := old(hexStr[..n]);
      && (ok <==> IsHexText(t) && n <= 2998)
      && (if ok then w.size == n / 2 && w.buffer[..n / 2] == HexBytes(t) else w.size == 0)
      && (hexStr != w.buffer ==> hexStr[..n] == LowerAll(t))
  {
    if hexStr == null {
      return false;
    }
    ghost var t := hexStr[..n];
    ghost var low := LowerAll(t);
    LowerDecodes(t);
    var hexLen := Strlen(hexStr, n);
    w.size := 0;
    LowerInPlace(hexStr, hexLen);
    var binIdx := 0;
    assert forall i :: 0 <= i < n ==> low[i] == Lower(t[i]) && t[i] != 0;
    assert forall i :: 0 <= i < n ==> low[i] != 0;
    hide IsHexText, HexBytes, LowerAll, IsHexDigit;
    while hexStr[2 * binIdx] != 0
      invariant Converting(w.buffer, hexStr, low, binIdx) && w.size == 0
      decreases n - 2 * binIdx
    {
      var pair := ConvertPair(w.buffer, hexStr, binIdx, low);
      if !pair {
        BadPair(low, binIdx);
        return false;
      }
      if binIdx >= WORK_BUFFER_SIZE - 2 {
        return false;
      }
      binIdx := binIdx + 1;
    }
    Converted(w.buffer, hexStr, low, binIdx);
    w.size := binIdx;
    ok := true;
  }

  lemma BadPair(low: seq<Byte>, k: nat)
    requires 2 * k < |low|
    ensures IsHexText(low) ==> 2 * k + 1 < |low| && IsHexDigit(low[2 * k]) && IsHexDigit(low[2 * k + 1])
  {
  }

  // ---------------------------------------------------------------- the request for a certificate

  const SIGNATURE_SIZE: nat := 64

  /** The encoding of a signature that was made with a key of 256 bits. */
  method EncodeSignature(r: array<Byte>, s: array<Byte>) returns (asn1Sig: array<Byte>, size: nat)
    requires r.Length == s.Length == SIGNATURE_SIZE / 2
    ensures fresh(asn1Sig) && 1 <= size <= asn1Sig.Length && size <= 749
    ensures SignatureDer.ReadSignature(asn1Sig[..size]) ==
      SignatureDer.Some((SignatureDer.Number(r[..]) as int, SignatureDer.Number(s[..]) as int))
  {
    var n := SIGNATURE_SIZE + 10;
    assert n == 74 && r.Length == s.Length == 32;
    hide *;
    asn1Sig := new Byte[n];
    var status;
    status, size := SignatureDer.SigToAsn1Der(asn1Sig, r, s, 256);
    WholeArray(r);
    WholeArray(s);
    SignatureFits(r[..], s[..]);
  }

  lemma WholeArray(a: array<Byte>)
    requires a.Length == 32
    ensures a[..256 / 8] == a[..]
  {
  }

  lemma {:induction false} SignatureFits(r: seq<Byte>, s: seq<Byte>)
    requires |r| == |s| == 32
    ensures |SignatureDer.SignatureOf(r, s)| >= 1
    ensures SignatureDer.ReadSignature(SignatureDer.SignatureOf(r, s)) ==
      SignatureDer.Some((SignatureDer.Number(r) as int, SignatureDer.Number(s) as int))
  {
    SignatureDer.SignatureReads(r, s);
    assert |SignatureDer.Pad(r)| <= 1 && |SignatureDer.Pad(s)| <= 1;
    hide SignatureDer.ReadSignature, SignatureDer.Number, SignatureDer.Pad;
  }

  /** Bytes as text, copied from the shared buffer without the NUL. */
  method CopyAsText(w: WorkBuffer, bin: array<Byte>, n: nat) returns (ok: bool, text: seq<Byte>)
    requires w.buffer.Length == WORK_BUFFER_SIZE && bin != w.buffer && 1 <= n <= bin.Length
    modifies w`size, w.buffer
    ensures ok <==> n <= 749
    ensures ok ==> IsHexText(text) && HexBytes(text) == bin[..n] && w.size == 2 * n + 1
    ensures ok ==> w.buffer[..w.size] == text + [0]
  {
    TextDecodes(bin[..n]);
    hide IsHexText, HexBytes, HexText;
    ok := BinToHex(w, bin, n);
    text := if ok then w.buffer[..w.size - 1] else [];
  }

  /**
   The signature and the certificate request as text. Both conversions use the shared buffer, so the first text is
   copied before the second one is made. Both decode to what was sent, and the signature reads as its two numbers.
   */
  method SignRequest(w: WorkBuffer, r: array<Byte>, s: array<Byte>, csr: array<Byte>, csrLength: nat)
    returns (ok: bool, signatureText: seq<Byte>, csrText: seq<Byte>)
    requires w.buffer.Length == WORK_BUFFER_SIZE && w.buffer != csr
    requires r.Length == s.Length == SIGNATURE_SIZE / 2 && 1 <= csrLength <= csr.Length
    modifies w`size, w.buffer
    ensures ok <==> csrLength <= 749
    ensures ok ==> w.size == 2 * csrLength + 1 && w.buffer[..w.size] == csrText + [0]
    ensures ok && w.buffer != r && w.buffer != s ==>
      && IsHexText(signatureText) && IsHexText(csrText) && HexBytes(csrText) == csr[..csrLength]
      && SignatureDer.ReadSignature(HexBytes(signatureText)) ==
           SignatureDer.Some((SignatureDer.Number(r[..]) as int, SignatureDer.Number(s[..]) as int))
  {
    hide IsHexText, HexBytes, SignatureDer.ReadSignature, SignatureDer.Number;
    var asn1Sig, signatureSize := EncodeSignature(r, s);
    ok, signatureText := CopyAsText(w, asn1Sig, signatureSize);
    ok, csrText := CopyAsText(w, csr, csrLength);
  }

  lemma PairedText(t: seq<Byte>)
    ensures IsHexText(t) ==> |t| % 2 == 0
  {
  }

  datatype Stored = NothingStored | Certificate(bytes: seq<Byte>)

  /**
   What is stored as the certificate, once the server has answered the request; `n` is the length of the certificate's
   text. The code tests the buffer's size and not whether the conversion succeeded. With a text the two agree: what is
   stored is the decoded certificate, exactly if the text is one to 1499 pairs of digits. Without a text the size is
   still that of the request's own text, which is then stored as the certificate.
   */
  method StoreCertificate(w: WorkBuffer, r: array<Byte>, s: array<Byte>, csr: array<Byte>, csrLength: nat,
      cert: array?<Byte>, ghost n: nat)
    returns (ok: bool, csrText: seq<Byte>, stored: Stored)
    requires w.buffer.Length == WORK_BUFFER_SIZE && w.buffer != csr && cert != w.buffer
    requires r.Length == s.Length == SIGNATURE_SIZE / 2 && 1 <= csrLength <= csr.Length
    requires cert != null ==> CString(cert[..], n)
    modifies w`size, w.buffer, if cert == null then {} else {cert}
    ensures ok <==> csrLength <= 749
    ensures !ok ==> stored == NothingStored
    ensures ok && cert != null ==> var t := old(cert[..n]);
      stored == if IsHexText(t) && 1 <= n <= 2998 then Certificate(HexBytes(t)) else NothingStored
    ensures ok && cert == null ==> stored == Certificate(csrText + [0])
  {
    hide IsHexText, HexBytes, SignatureDer.ReadSignature, SignatureDer.Number;
    stored := NothingStored;
    var signatureText;
    ok, signatureText, csrText := SignRequest(w, r, s, csr, csrLength);
    if !ok {
      return;
    }
    if cert != null {
      PairedText(cert[..n]);
    }
    var converted := HexToBin(w, cert, n);
    if w.size != 0 {
      stored := Certificate(w.buffer[..w.size]);
    }
  }
}
