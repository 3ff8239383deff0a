/** The search for the blank line that ends a response header: a counter over CR and LF. */
module HeaderScan {
  import opened Bytes

  /** The counter after one more byte. */
  function Step(found: nat, b: Byte): nat {
    if found % 2 == 0 && b == CR then found + 1
    else if found % 2 == 1 && b == LF then found + 1
    else 0
  }

  datatype Scan = Found(end: nat) | Searching(found: nat)

  /** Counts through `s` from `found` on; stops just past the byte that brings the count to four. */
  function ScanFrom(s: seq<Byte>, found: nat): (r: Scan)
    ensures r.Found? ==> 1 <= r.end <= |s|
  {
    if s == [] then Searching(found)
    else if Step(found, s[0]) == 4 then Found(1)
    else match ScanFrom(s[1..], Step(found, s[0]))
      case Found(n) => Found(n + 1)
      case Searching(k) => Searching(k)
  }

  /** Scanning a chain packet by packet is scanning its bytes. */
  lemma {:induction false} ScanSplit(a: seq<Byte>, b: seq<Byte>, found: nat)
    ensures ScanFrom(a + b, found) == match ScanFrom(a, found)
                                      case Found(n) => Found(n)
                                      case Searching(k) =>
                                        match ScanFrom(b, k)
                                        case Found(n) => Found(|a| + n)
                                        case Searching(k') => Searching(k')
  {
    if a == [] {
      assert a + b == b;
    } else {
      assert (a + b)[1..] == a[1..] + b;
      ScanSplit(a[1..], b, Step(found, a[0]));
    }
  }

  // ---------------------------------------------------------------- what the counter finds

  /** The counter after the first `i` bytes. */
  function State(s: seq<Byte>, i: nat): nat
    requires i <= |s|
  {
    if i == 0 then 0 else Step(State(s, i - 1), s[i - 1])
  }

  /** The number of carriage returns in a row just before `i`. */
  function CRRun(s: seq<Byte>, i: nat): nat
    requires i <= |s|
  {
    if i == 0 || s[i - 1] != CR then 0 else 1 + CRRun(s, i - 1)
  }

  predicate BlankLineAt(s: seq<Byte>, n: nat) {
    4 <= n <= |s| && s[n - 4] == CR && s[n - 3] == LF && s[n - 2] == CR && s[n - 1] == LF
  }

  /** The blank lines the counter can see: an odd number of carriage returns leads up to the first line feed. */
  predicate SeenAt(s: seq<Byte>, n: nat) {
    BlankLineAt(s, n) && CRRun(s, n - 3) % 2 == 1
  }

  ghost predicate FirstAt(s: seq<Byte>, n: nat) {
    n <= |s| && SeenAt(s, n) && forall m :: 0 <= m < n ==> !SeenAt(s, m)
  }

  lemma {:induction false} Parity(s: seq<Byte>, i: nat)
    requires i <= |s|
    ensures State(s, i) % 2 == CRRun(s, i) % 2
  {
    if i > 0 {
      Parity(s, i - 1);
    }
  }

  lemma {:induction false} BelowFour(s: seq<Byte>, i: nat)
    requires i <= |s| && forall m :: 0 <= m < i ==> State(s, m) != 4
    ensures State(s, i) <= 4
  {
    if i > 0 {
      BelowFour(s, i - 1);
    }
  }

  lemma {:induction false} ReachesFour(s: seq<Byte>, n: nat)
    requires n <= |s| && forall m :: 0 <= m < n ==> State(s, m) != 4
    ensures State(s, n) == 4 <==> SeenAt(s, n)
  {
    if n >= 4 {
      BelowFour(s, n - 3);
      BelowFour(s, n - 2);
      Parity(s, n - 3);
      assert State(s, n) == Step(State(s, n - 1), s[n - 1]);
      assert State(s, n - 1) == Step(State(s, n - 2), s[n - 2]);
      assert State(s, n - 2) == Step(State(s, n - 3), s[n - 3]);
      assert State(s, n - 3) == Step(State(s, n - 4), s[n - 4]);
    } else if n > 0 {
      Growth(s, n);
    }
  }

  lemma {:induction false} Growth(s: seq<Byte>, i: nat)
    requires i <= |s|
    ensures State(s, i) <= i
  {
    if i > 0 {
      Growth(s, i - 1);
    }
  }

  lemma {:induction false} ScanIsState(s: seq<Byte>, i: nat)
    requires i <= |s| && forall m :: 0 <= m <= i ==> State(s, m) != 4
    ensures match ScanFrom(s[i..], State(s, i))
      case Found(n) => i + n <= |s| && State(s, i + n) == 4 && forall m :: 0 <= m < i + n ==> State(s, m) != 4
      case Searching(k) => k == State(s, |s|) && forall m :: 0 <= m <= |s| ==> State(s, m) != 4
    decreases |s| - i
  {
    if i < |s| {
      assert s[i..][1..] == s[i + 1..];
      if State(s, i + 1) != 4 {
        ScanIsState(s, i + 1);
      }
    }
  }

  ghost predicate Unreached(s: seq<Byte>, n: nat)
    requires n <= |s|
  {
    forall m :: 0 <= m < n ==> State(s, m) != 4
  }

  ghost predicate Unseen(s: seq<Byte>, n: nat) {
    forall m :: 0 <= m < n ==> !SeenAt(s, m)
  }

  lemma {:induction false} FirstsAgree(s: seq<Byte>, n: nat)
    requires n <= |s|
    ensures Unreached(s, n) <==> Unseen(s, n)
  {
    if n > 0 {
      FirstsAgree(s, n - 1);
      if Unreached(s, n - 1) {
        ReachesFour(s, n - 1);
      }
    }
  }

  /**
   The counter finds exactly the first blank line that an odd number of carriage returns leads up to,
   and nothing when there is none.
   */
  lemma {:induction false} ScannerFinds(s: seq<Byte>, n: nat)
    ensures ScanFrom(s, 0) == Found(n) <==> FirstAt(s, n)
  {
    assert s[0..] == s;
    ScanIsState(s, 0);
    var r := ScanFrom(s, 0);
    if r.Found? {
      FirstsAgree(s, r.end);
      ReachesFour(s, r.end);
      assert FirstAt(s, r.end);
    } else if FirstAt(s, n) {
      FirstsAgree(s, n);
      ReachesFour(s, n);
    }
  }

  /** A blank line preceded by a CR of its own is overlooked: the second CR in a row resets the counter. */
  lemma DoubledCRIsOverlooked()
    ensures BlankLineAt([CR, CR, LF, CR, LF], 5)
    ensures ScanFrom([CR, CR, LF, CR, LF], 0).Searching?
  {
    var s: seq<Byte> := [CR, CR, LF, CR, LF];
    assert CRRun(s, 2) == 1 + CRRun(s, 1) && CRRun(s, 1) == 1;
    var r := ScanFrom(s, 0);
    if r.Found? {
      ScannerFinds(s, r.end);
    }
  }

  /** Where no two carriage returns stand in a row, the first blank line is found. */
  lemma {:induction false} FirstBlankLine(s: seq<Byte>, n: nat)
    requires BlankLineAt(s, n) && forall m :: 0 <= m < n ==> !BlankLineAt(s, m)
    requires forall i :: 0 < i < n ==> !(s[i - 1] == CR && s[i] == CR)
    ensures ScanFrom(s, 0) == Found(n)
  {
    assert CRRun(s, n - 3) == 1 + CRRun(s, n - 4);
    assert n > 4 ==> s[n - 5] != CR;
    assert FirstAt(s, n);
    ScannerFinds(s, n);
  }
}
