/** The fields of a response header: the reader's loops, the header it accepts, and what it concludes from it. */
module HeaderFields {
  import opened Bytes
  import opened Packets
  import opened HttpClient
  import opened HeaderScan

  // ---------------------------------------------------------------- comparison without case

  function Upper(b: Byte): Byte {
    if 'a' as int <= b <= 'z' as int then b - 'a' as int + 'A' as int else b
  }

  function UpperAll(s: seq<Byte>): (u: seq<Byte>)
    ensures |u| == |s|
  {
    seq(|s|, i requires 0 <= i < |s| => Upper(s[i]))
  }

  function Ascii(s: string): (b: seq<Byte>)
    requires forall i :: 0 <= i < |s| ==> s[i] as int < 128
    ensures |b| == |s|
  {
    seq(|s|, i requires 0 <= i < |s| => s[i] as int)
  }

  /** Compares two pieces of memory, letters in either case being the same. */
  method Memicmp(src: seq<Byte>, dest: seq<Byte>) returns (equal: bool)
    ensures equal <==> UpperAll(src) == UpperAll(dest)
  {
    if |src| != |dest| {
      return false;
    }
    var i := 0;
    while i < |src|
      invariant 0 <= i <= |src|
      invariant forall k :: 0 <= k < i ==> Upper(src[k]) == Upper(dest[k])
    {
      var ch: Byte;
      if 'a' as int <= src[i] <= 'z' as int {
        ch := src[i] - 'a' as int + 'A' as int;
      } else if 'A' as int <= src[i] <= 'Z' as int {
        ch := src[i] - 'A' as int + 'a' as int;
      } else {
        ch := src[i];
      }
      if src[i] != dest[i] && ch != dest[i] {
        assert UpperAll(src)[i] != UpperAll(dest)[i];
        return false;
      }
      i := i + 1;
    }
    return true;
  }

  // ---------------------------------------------------------------- the reader's steps, as functions of the bytes

  /** The first position from `p` on at which the loops over a line stop. */
  function LineStop(b: seq<Byte>, p: nat): (q: nat)
    ensures p <= q && (q <= |b| || q == p)
    decreases |b| - p
  {
    if p + 1 < |b| && b[p] != CR && b[p + 1] != LF then LineStop(b, p + 1) else p
  }

  /** The first colon from `p` on, or the end. */
  function ColonAt(b: seq<Byte>, p: nat): (q: nat)
    requires p <= |b|
    ensures p <= q <= |b|
    decreases |b| - p
  {
    if p < |b| && b[p] != ':' as int then ColonAt(b, p + 1) else p
  }

  function SpacesEnd(b: seq<Byte>, p: nat): (q: nat)
    requires p <= |b|
    ensures p <= q <= |b|
    decreases |b| - p
  {
    if p < |b| && b[p] == ' ' as int then SpacesEnd(b, p + 1) else p
  }

  datatype Parse =
    | Complete(offset: nat, fields: seq<Field>)  // the blank line is found; the body starts at `offset`
    | Incomplete(fields: seq<Field>)             // the bytes end, or a line starts with a zero byte
    | Overrun(fields: seq<Field>)                // a line without a colon: the reader leaves the packet

  function AddField(f: Field, r: Parse): Parse {
    match r
    case Complete(n, fs) => Complete(n, [f] + fs)
    case Incomplete(fs) => Incomplete([f] + fs)
    case Overrun(fs) => Overrun([f] + fs)
  }

  function ParseFields(b: seq<Byte>, p: nat): Parse
    decreases |b| - p
  {
    if p + 1 >= |b| || b[p] == 0 then Incomplete([])
    else if b[p] == CR && b[p + 1] == LF then Complete(p + 2, [])
    else
      var colon := ColonAt(b, p);
      if colon == |b| then Overrun([])
      else
        var value := SpacesEnd(b, colon + 1);
        var end := LineStop(b, value);
        AddField(Field(b[p..colon], b[value..end]), ParseFields(b, end + 2))
  }

  function ParseLines(b: seq<Byte>): Parse {
    ParseFields(b, LineStop(b, 0) + 2)
  }

  /** The HTTP version, one decimal digit in each half of a byte; zero when there are too few bytes for one. */
  function Version(b: seq<Byte>): bv8 {
    if |b| > 7 then (((b[5] - '0' as int) % 256) as bv8 << 4) | ((b[7] - '0' as int) % 256) as bv8 else 0
  }

  predicate SaysChunked(f: Field) {
    UpperAll(f.name) == UpperAll(Ascii("Transfer-Encoding")) && UpperAll(f.value) == UpperAll(Ascii("chunked"))
  }

  predicate SaysKeepAlive(f: Field) {
    UpperAll(f.name) == UpperAll(Ascii("connection")) && UpperAll(f.value) == UpperAll(Ascii("keep-alive"))
  }

  predicate SaysClose(f: Field) {
    UpperAll(f.name) == UpperAll(Ascii("connection")) && UpperAll(f.value) == UpperAll(Ascii("close"))
  }

  predicate Chunked(fields: seq<Field>) {
    exists i :: 0 <= i < |fields| && SaysChunked(fields[i])
  }

  /** The last Connection field with a known value decides, the initial value when there is none. */
  function KeepAlive(fields: seq<Field>, initial: bool): bool {
    if fields == [] then initial
    else
      var f := fields[|fields| - 1];
      if SaysKeepAlive(f) then true
      else if SaysClose(f) then false
      else KeepAlive(fields[..|fields| - 1], initial)
  }

  // ---------------------------------------------------------------- the reader

  method FindLineStop(b: seq<Byte>, p: nat) returns (q: nat)
    ensures q == LineStop(b, p)
  {
    q := p;
    while q + 1 < |b| && b[q] != CR && b[q + 1] != LF
      invariant LineStop(b, q) == LineStop(b, p)
      decreases |b| - q
    {
      q := q + 1;
    }
  }

  method FindColon(b: seq<Byte>, p: nat) returns (q: nat)
    requires p <= |b|
    ensures q == ColonAt(b, p)
  {
    q := p;
    while q < |b| && b[q] != ':' as int
      invariant p <= q <= |b| && ColonAt(b, q) == ColonAt(b, p)
    {
      q := q + 1;
    }
  }

  method SkipSpaces(b: seq<Byte>, p: nat) returns (q: nat)
    requires p <= |b|
    ensures q == SpacesEnd(b, p)
  {
    q := p;
    while q < |b| && b[q] == ' ' as int
      invariant p <= q <= |b| && SpacesEnd(b, q) == SpacesEnd(b, p)
    {
      q := q + 1;
    }
  }

  lemma KeepAliveSnoc(fields: seq<Field>, f: Field, initial: bool)
    ensures KeepAlive(fields + [f], initial) ==
      if SaysKeepAlive(f) then true else if SaysClose(f) then false else KeepAlive(fields, initial)
  {
    assert (fields + [f])[..|fields + [f]| - 1] == fields;
  }

  lemma ChunkedSnoc(fields: seq<Field>, f: Field)
    ensures Chunked(fields + [f]) <==> Chunked(fields) || SaysChunked(f)
  {
    var all := fields + [f];
    assert forall i :: 0 <= i < |fields| ==> all[i] == fields[i];
    assert all[|fields|] == f;
  }

  /** What a list of fields means for the connection, on top of what the fields before it meant. */
  ghost predicate Concluded(c: Client, fields: seq<Field>, initial: bool, reported: seq<Field>)
    reads c`responseChunked, c`keepAlive, c`responseCallback, c`reported
  {
    && c.responseChunked == Chunked(fields)
    && c.keepAlive == KeepAlive(fields, initial)
    && c.reported == (if c.responseCallback then reported + fields else reported)
  }

  /** Draws the conclusions from one field and reports it to the application. */
  method TakeField(c: Client, f: Field, ghost fields: seq<Field>, ghost initial: bool, ghost reported: seq<Field>)
    requires Concluded(c, fields, initial, reported)
    modifies c`responseChunked, c`keepAlive, c`reported
    ensures Concluded(c, fields + [f], initial, reported)
  {
    KeepAliveSnoc(fields, f, initial);
    ChunkedSnoc(fields, f);
    hide Chunked, KeepAlive, UpperAll, Ascii;
    var isTransferEncoding := Memicmp(f.name, Ascii("Transfer-Encoding"));
    if isTransferEncoding {
      var isChunked := Memicmp(f.value, Ascii("chunked"));
      if isChunked {
        c.responseChunked := true;
      }
    }
    var isConnection := Memicmp(Ascii("connection"), f.name);
    if isConnection {
      var isKeepAlive := Memicmp(Ascii("keep-alive"), f.value);
      if isKeepAlive {
        c.keepAlive := true;
      } else {
        var isClose := Memicmp(Ascii("close"), f.value);
        if isClose {
          c.keepAlive := false;
        }
      }
    }
    if c.responseCallback {
      c.reported := c.reported + [f];
    }
  }

  lemma {:induction false} NothingConcluded(initial: bool)
    ensures !Chunked([]) && KeepAlive([], initial) == initial
  {
  }

  function AddFields(fs: seq<Field>, r: Parse): Parse {
    match r
    case Complete(n, gs) => Complete(n, fs + gs)
    case Incomplete(gs) => Incomplete(fs + gs)
    case Overrun(gs) => Overrun(fs + gs)
  }

  lemma AddNoFields(r: Parse)
    ensures AddFields([], r) == r
  {
  }

  lemma AddFieldsSnoc(fs: seq<Field>, f: Field, r: Parse)
    ensures AddFields(fs, AddField(f, r)) == AddFields(fs + [f], r)
  {
    assert fs + ([f] + r.fields) == fs + [f] + r.fields;
  }

  /** Reads fields from position `p` on, up to the blank line. */
  method ReadFields(c: Client, b: seq<Byte>, start: nat, ghost initial: bool, ghost reported: seq<Field>)
    returns (offset: nat, overrun: bool)
    requires Concluded(c, [], initial, reported)
    modifies c`responseChunked, c`keepAlive, c`reported
    ensures var r := ParseFields(b, start);
      && Concluded(c, r.fields, initial, reported)
      && overrun == r.Overrun?
      && offset == if r.Complete? then r.offset else 0
  {
    hide Concluded, LineStop, ColonAt, SpacesEnd, ParseFields, AddFields;
    offset, overrun := 0, false;
    var p := start;
    ghost var fields: seq<Field> := [];
    AddNoFields(ParseFields(b, p));
    while p + 1 < |b| && b[p] != 0
      invariant Concluded(c, fields, initial, reported)
      invariant AddFields(fields, ParseFields(b, p)) == ParseFields(b, start)
      decreases |b| - p
    {
      if b[p] == CR && b[p + 1] == LF {
        offset := p + 2;
        ReadToEnd(b, p, start, fields);
        return;
      }
      var colon := FindColon(b, p);
      if colon == |b| {
        overrun := true;
        ReadToEnd(b, p, start, fields);
        return;
      }
      var value := SkipSpaces(b, colon + 1);
      var end := FindLineStop(b, value);
      var f := Field(b[p..colon], b[value..end]);
      TakeField(c, f, fields, initial, reported);
      ReadOn(b, p, start, fields, colon, value, end);
      fields, p := fields + [f], end + 2;
    }
    ReadToEnd(b, p, start, fields);
  }

  /** Where the field loop ends. */
  lemma ReadToEnd(b: seq<Byte>, p: nat, start: nat, fields: seq<Field>)
    requires AddFields(fields, ParseFields(b, p)) == ParseFields(b, start)
    ensures p + 1 >= |b| || b[p] == 0 ==> ParseFields(b, start) == Incomplete(fields)
    ensures p + 1 < |b| && b[p] != 0 ==>
      && (b[p] == CR && b[p + 1] == LF ==> ParseFields(b, start) == Complete(p + 2, fields))
      && (!(b[p] == CR && b[p + 1] == LF) && ColonAt(b, p) == |b| ==> ParseFields(b, start) == Overrun(fields))
  {
    assert fields + [] == fields;
    hide ColonAt, SpacesEnd, LineStop;
  }

  /** One turn of the field loop. */
  lemma ReadOn(b: seq<Byte>, p: nat, start: nat, fields: seq<Field>, colon: nat, value: nat, end: nat)
    requires AddFields(fields, ParseFields(b, p)) == ParseFields(b, start)
    requires p + 1 < |b| && b[p] != 0 && !(b[p] == CR && b[p + 1] == LF)
    requires p <= colon < value <= end <= |b|
    requires colon == ColonAt(b, p) && value == SpacesEnd(b, colon + 1) && end == LineStop(b, value)
    ensures var f := Field(b[p..colon], b[value..end]);
      AddFields(fields + [f], ParseFields(b, end + 2)) == ParseFields(b, start)
  {
    hide ColonAt, SpacesEnd, LineStop, AddFields;
    AddFieldsSnoc(fields, Field(b[p..colon], b[value..end]), ParseFields(b, end + 2));
  }

  /**
   Walks over the status line and the fields of a response header and notes what they say. Returns where the
   body starts, zero when the header is not complete in this packet.
   */
  method ProcessHeaderFields(c: Client, packet: Packet) returns (offset: nat, overrun: bool)
    requires packet.Valid()
    modifies c`responseChunked, c`keepAlive, c`reported
    ensures var b := packet.Bytes(); var r := ParseLines(b);
      if Version(b) == 0 then
        offset == 0 && !overrun && !c.responseChunked && !c.keepAlive && c.reported == old(c.reported)
      else
        && Concluded(c, r.fields, Version(b) > 0x10, old(c.reported))
        && overrun == r.Overrun?
        && offset == if r.Complete? then r.offset else 0
  {
    hide Version, LineStop;
    var b := packet.memory[packet.prependPtr..packet.appendPtr];
    offset, overrun := 0, false;
    c.responseChunked := false;
    var version := Version(b);
    if version == 0 {
      c.keepAlive := false;
      return;
    }
    c.keepAlive := version > 0x10;
    NothingConcluded(c.keepAlive);
    assert c.reported + [] == c.reported;
    var p := FindLineStop(b, 0);
    offset, overrun := ReadFields(c, b, p + 2, version > 0x10, c.reported);
  }

  // ---------------------------------------------------------------- the header a server writes

  /** A header line as section 3.2 of RFC 7230 has it, with the optional whitespace on both sides of the value. */
  datatype HeaderLine = HeaderLine(name: seq<Byte>, before: seq<Byte>, value: seq<Byte>, after: seq<Byte>)

  predicate OneLine(s: seq<Byte>) {
    forall i :: 0 <= i < |s| ==> s[i] != CR && s[i] != LF
  }

  const SPACE: Byte := 32
  const TAB: Byte := 9

  predicate Whitespace(s: seq<Byte>) {
    forall i :: 0 <= i < |s| ==> s[i] == SPACE || s[i] == TAB
  }

  /** No whitespace at either end. */
  predicate Trimmed(s: seq<Byte>) {
    s != [] ==> s[0] != SPACE && s[0] != TAB && s[|s| - 1] != SPACE && s[|s| - 1] != TAB
  }

  /** All whitespace around an empty value counts as standing before it. */
  predicate ValidLine(l: HeaderLine) {
    && OneLine(l.name) && OneLine(l.value)
    && l.name != [] && l.name[0] != 0 && (forall i :: 0 <= i < |l.name| ==> l.name[i] != ':' as int)
    && Whitespace(l.before) && Whitespace(l.after) && Trimmed(l.value) && (l.value == [] ==> l.after == [])
  }

  /** What stands between the colon and the end of a line. */
  function TextOf(l: HeaderLine): seq<Byte> {
    l.before + l.value + l.after
  }

  function WriteLine(l: HeaderLine): seq<Byte> {
    l.name + [':' as int] + TextOf(l) + CRLF
  }

  function WriteLines(ls: seq<HeaderLine>): seq<Byte> {
    if ls == [] then [] else WriteLine(ls[0]) + WriteLines(ls[1..])
  }

  function WriteHeader(start: seq<Byte>, ls: seq<HeaderLine>): seq<Byte> {
    start + CRLF + (WriteLines(ls) + CRLF)
  }

  /** The field that a line is by the standard. */
  function FieldOf(l: HeaderLine): Field {
    Field(l.name, l.value)
  }

  function Unspaced(s: seq<Byte>): seq<Byte> {
    if s != [] && s[0] == SPACE then Unspaced(s[1..]) else s
  }

  /** The field that the reader makes of a line: only the spaces in front are taken off. */
  function ReadField(l: HeaderLine): Field {
    Field(l.name, Unspaced(TextOf(l)))
  }

  function FieldsRead(ls: seq<HeaderLine>): seq<Field> {
    if ls == [] then [] else [ReadField(ls[0])] + FieldsRead(ls[1..])
  }

  /** Only spaces before the value, and nothing behind it. */
  predicate Plain(l: HeaderLine) {
    TAB !in l.before && l.after == []
  }

  lemma {:induction false} UnspacedText(before: seq<Byte>, text: seq<Byte>)
    requires Whitespace(before) && (text != [] ==> text[0] != SPACE)
    ensures TAB !in before ==> Unspaced(before + text) == text
    ensures TAB in before ==> Unspaced(before + text) != [] && Unspaced(before + text)[0] == TAB
    ensures |before| > 0 && before[0] == SPACE ==> Unspaced(before + text) == Unspaced(before[1..] + text)
  {
    if before == [] {
      assert before + text == text;
    } else {
      assert (before + text)[1..] == before[1..] + text;
      UnspacedText(before[1..], text);
      assert before == [before[0]] + before[1..];
    }
  }

  /** Where a line's value ends with the line, and how it starts. */
  lemma ReadText(l: HeaderLine)
    requires ValidLine(l)
    ensures var v := ReadField(l).value;
      && (TAB !in l.before ==> v == l.value + l.after)
      && (TAB in l.before ==> v != [] && v[0] == TAB)
  {
    Assoc(l.before, l.value, l.after);
    UnspacedText(l.before, l.value + l.after);
  }

  /** The reader's value is that of the standard exactly for lines without a tab before it and whitespace behind it. */
  lemma ReadsValue(l: HeaderLine)
    requires ValidLine(l)
    ensures ReadField(l) == FieldOf(l) <==> Plain(l)
  {
    ReadText(l);
    if TAB !in l.before {
      assert l.value + [] == l.value;
      assert l.after != [] ==> |l.value + l.after| > |l.value|;
    }
  }

  // ---------------------------------------------------------------- the words that count

  /** A word, given in lower case, with its letters in either case. */
  predicate Spells(s: seq<Byte>, word: seq<Byte>) {
    && |s| == |word|
    && forall i :: 0 <= i < |s| ==> s[i] == word[i] || (97 <= word[i] <= 122 && s[i] == word[i] - 32)
  }

  // the words by their bytes
  const TRANSFER_ENCODING: seq<Byte> :=
    [116, 114, 97, 110, 115, 102, 101, 114, 45, 101, 110, 99, 111, 100, 105, 110, 103]
  const CHUNKED: seq<Byte> := [99, 104, 117, 110, 107, 101, 100]
  const CONNECTION: seq<Byte> := [99, 111, 110, 110, 101, 99, 116, 105, 111, 110]
  const KEEP_ALIVE: seq<Byte> := [107, 101, 101, 112, 45, 97, 108, 105, 118, 101]
  const CLOSE: seq<Byte> := [99, 108, 111, 115, 101]

  predicate NoCapitals(word: seq<Byte>) {
    forall i :: 0 <= i < |word| ==> !(65 <= word[i] <= 90)
  }

  lemma UpperSpells(s: seq<Byte>, word: seq<Byte>)
    requires NoCapitals(word)
    ensures UpperAll(s) == UpperAll(word) <==> Spells(s, word)
  {
    var u, v := UpperAll(s), UpperAll(word);
    if |s| == |word| {
      forall i | 0 <= i < |s|
        ensures u[i] == v[i] <==> s[i] == word[i] || (97 <= word[i] <= 122 && s[i] == word[i] - 32)
      {
      }
    }
  }

  lemma FieldNames()
    ensures UpperAll(Ascii("Transfer-Encoding")) == UpperAll(TRANSFER_ENCODING) && NoCapitals(TRANSFER_ENCODING)
    ensures UpperAll(Ascii("connection")) == UpperAll(CONNECTION) && NoCapitals(CONNECTION)
  {
  }

  lemma FieldValues()
    ensures UpperAll(Ascii("chunked")) == UpperAll(CHUNKED) && NoCapitals(CHUNKED)
    ensures UpperAll(Ascii("keep-alive")) == UpperAll(KEEP_ALIVE) && NoCapitals(KEEP_ALIVE)
    ensures UpperAll(Ascii("close")) == UpperAll(CLOSE) && NoCapitals(CLOSE)
  {
  }

  /** What a field says, letter by letter. */
  lemma FieldSays(f: Field)
    ensures SaysChunked(f) <==> Spells(f.name, TRANSFER_ENCODING) && Spells(f.value, CHUNKED)
    ensures SaysKeepAlive(f) <==> Spells(f.name, CONNECTION) && Spells(f.value, KEEP_ALIVE)
    ensures SaysClose(f) <==> Spells(f.name, CONNECTION) && Spells(f.value, CLOSE)
  {
    FieldNames();
    FieldValues();
    hide UpperAll, Ascii, Spells, NoCapitals;
    UpperSpells(f.name, TRANSFER_ENCODING);
    UpperSpells(f.name, CONNECTION);
    UpperSpells(f.value, CHUNKED);
    UpperSpells(f.value, KEEP_ALIVE);
    UpperSpells(f.value, CLOSE);
  }

  /** A line's value is read as a word exactly if it is that word and the line is plain. */
  lemma ReadsWord(l: HeaderLine, word: seq<Byte>)
    requires ValidLine(l) && word != [] && 97 <= word[0] <= 122 && 97 <= word[|word| - 1] <= 122
    ensures ReadField(l).name == l.name
    ensures Spells(ReadField(l).value, word) <==> Spells(l.value, word) && Plain(l)
  {
    ReadsValue(l);
    if !Plain(l) {
      ReadText(l);
      var v := ReadField(l).value;
      if TAB !in l.before {
        assert v[|v| - 1] == l.after[|l.after| - 1];
      }
    }
  }

  lemma {:induction false} FieldRead(ls: seq<HeaderLine>, i: nat)
    requires i < |ls|
    ensures |FieldsRead(ls)| == |ls| && FieldsRead(ls)[i] == ReadField(ls[i])
  {
    if i > 0 {
      FieldRead(ls[1..], i - 1);
    } else if |ls| > 1 {
      FieldRead(ls[1..], 0);
    }
  }

  /** Whether a line says, in a way that the client sees, that the body is chunked. */
  predicate ChunkedLine(l: HeaderLine) {
    Spells(l.name, TRANSFER_ENCODING) && Spells(l.value, CHUNKED) && Plain(l)
  }

  /** The chunked flag that a header leads to. */
  lemma {:induction false} ChunkedRead(ls: seq<HeaderLine>)
    requires forall i :: 0 <= i < |ls| ==> ValidLine(ls[i])
    ensures Chunked(FieldsRead(ls)) <==> exists i :: 0 <= i < |ls| && ChunkedLine(ls[i])
  {
    hide SaysChunked, ValidLine, Plain, ReadField, Spells;
    var fs := FieldsRead(ls);
    FieldsCount(ls);
    forall i | 0 <= i < |ls|
      ensures SaysChunked(fs[i]) <==> ChunkedLine(ls[i])
    {
      FieldRead(ls, i);
      FieldSays(fs[i]);
      ReadsWord(ls[i], CHUNKED);
    }
  }

  lemma {:induction false} FieldsCount(ls: seq<HeaderLine>)
    ensures |FieldsRead(ls)| == |ls|
  {
    if ls != [] {
      FieldRead(ls, 0);
    }
  }

  /** One space behind the value, which the standard allows, and the client does not see that the body is chunked. */
  lemma SpaceHidesChunked()
    ensures var l := HeaderLine(TRANSFER_ENCODING, [SPACE], CHUNKED, [SPACE]);
      ValidLine(l) && FieldOf(l) == Field(TRANSFER_ENCODING, CHUNKED) && !Chunked(FieldsRead([l]))
  {
    var l := HeaderLine(TRANSFER_ENCODING, [SPACE], CHUNKED, [SPACE]);
    assert ValidLine(l) && !Plain(l);
    ChunkedRead([l]);
  }

  // ---------------------------------------------------------------- whether the connection is kept

  /** Whether a line says, in a way that the client sees, if the connection is to be kept. */
  predicate ConnectionLine(l: HeaderLine) {
    Spells(l.name, CONNECTION) && (Spells(l.value, KEEP_ALIVE) || Spells(l.value, CLOSE)) && Plain(l)
  }

  lemma LineKeeps(l: HeaderLine)
    requires ValidLine(l)
    ensures var f := ReadField(l);
      && (SaysKeepAlive(f) || SaysClose(f) <==> ConnectionLine(l))
      && (ConnectionLine(l) ==> (SaysKeepAlive(f) <==> Spells(l.value, KEEP_ALIVE)))
  {
    hide ValidLine, Plain, ReadField, Spells, SaysKeepAlive, SaysClose;
    FieldSays(ReadField(l));
    ReadsWord(l, KEEP_ALIVE);
    ReadsWord(l, CLOSE);
  }

  lemma {:induction false} KeptByNone(fields: seq<Field>, initial: bool)
    requires forall i :: 0 <= i < |fields| ==> !SaysKeepAlive(fields[i]) && !SaysClose(fields[i])
    ensures KeepAlive(fields, initial) == initial
  {
    hide SaysKeepAlive, SaysClose;
    if fields != [] {
      KeptByNone(fields[..|fields| - 1], initial);
    }
  }

  lemma {:induction false} KeptByLast(fields: seq<Field>, initial: bool, k: nat)
    requires k < |fields| && (SaysKeepAlive(fields[k]) || SaysClose(fields[k]))
    requires forall i :: k < i < |fields| ==> !SaysKeepAlive(fields[i]) && !SaysClose(fields[i])
    ensures KeepAlive(fields, initial) == SaysKeepAlive(fields[k])
  {
    hide SaysKeepAlive, SaysClose;
    if k < |fields| - 1 {
      KeptByLast(fields[..|fields| - 1], initial, k);
    }
  }

  /** The last line that says so decides, and without one nothing changes. */
  lemma {:induction false} ConnectionRead(ls: seq<HeaderLine>, initial: bool)
    requires forall i :: 0 <= i < |ls| ==> ValidLine(ls[i])
    ensures (forall i :: 0 <= i < |ls| ==> !ConnectionLine(ls[i])) ==> KeepAlive(FieldsRead(ls), initial) == initial
    ensures forall k :: 0 <= k < |ls| && LastConnectionLine(ls, k) ==>
      (KeepAlive(FieldsRead(ls), initial) <==> Spells(ls[k].value, KEEP_ALIVE))
  {
    hide SaysKeepAlive, SaysClose, ConnectionLine, ValidLine, ReadField, Spells;
    var fs := FieldsRead(ls);
    FieldsCount(ls);
    forall i | 0 <= i < |ls|
      ensures SaysKeepAlive(fs[i]) || SaysClose(fs[i]) <==> ConnectionLine(ls[i])
      ensures ConnectionLine(ls[i]) ==> (SaysKeepAlive(fs[i]) <==> Spells(ls[i].value, KEEP_ALIVE))
    {
      FieldRead(ls, i);
      LineKeeps(ls[i]);
    }
    if forall i :: 0 <= i < |ls| ==> !ConnectionLine(ls[i]) {
      KeptByNone(fs, initial);
    }
    forall k | 0 <= k < |ls| && LastConnectionLine(ls, k)
      ensures KeepAlive(fs, initial) <==> Spells(ls[k].value, KEEP_ALIVE)
    {
      KeptByLast(fs, initial, k);
    }
  }

  predicate LastConnectionLine(ls: seq<HeaderLine>, k: nat)
    requires k < |ls|
  {
    ConnectionLine(ls[k]) && forall i :: k < i < |ls| ==> !ConnectionLine(ls[i])
  }

  /** What the first packet of a response says about the connection. */
  predicate Keeps(b: seq<Byte>) {
    Version(b) != 0 && KeepAlive(ParseLines(b).fields, Version(b) > 0x10)
  }

  /** The fields that the first packet of a response reports to an application that asked for them. */
  function Reports(b: seq<Byte>): seq<Field> {
    if Version(b) == 0 then [] else ParseLines(b).fields
  }

  /** HTTP/1.1 keeps the connection, HTTP/1.0 does not. */
  lemma VersionOf(b: seq<Byte>)
    requires |b| > 7 && b[..7] == [72, 84, 84, 80, 47, 49, 46]
    ensures b[7] == 49 ==> Version(b) > 0x10
    ensures b[7] == 48 ==> Version(b) == 0x10
  {
    assert b[5] == b[..7][5];
    assert (1 as bv8 << 4) == 0x10 && 0x10 | (1 as bv8) == 0x11 && 0x10 | (0 as bv8) == 0x10;
  }

  ghost predicate ValidHeader(start: seq<Byte>, ls: seq<HeaderLine>) {
    OneLine(start) && forall i :: 0 <= i < |ls| ==> ValidLine(ls[i])
  }

  lemma {:induction false} LineStopIs(b: seq<Byte>, p: nat, q: nat)
    requires p <= q && q + 1 < |b| && b[q] == CR && OneLine(b[p..q])
    ensures LineStop(b, p) == q
    decreases q - p
  {
    if p < q {
      assert b[p..q][0] == b[p] && b[p..q][1..] == b[p + 1..q];
      assert p + 1 < q ==> b[p..q][1] == b[p + 1];
      LineStopIs(b, p + 1, q);
    }
  }

  lemma {:induction false} ColonAtIs(b: seq<Byte>, p: nat, q: nat)
    requires p <= q < |b| && b[q] == ':' as int && forall i :: p <= i < q ==> b[i] != ':' as int
    ensures ColonAt(b, p) == q
    decreases q - p
  {
    if p < q {
      ColonAtIs(b, p + 1, q);
    }
  }

  lemma {:induction false} SpacesEndIs(b: seq<Byte>, p: nat, e: nat)
    requires p <= e < |b| && b[e] != SPACE
    ensures SpacesEnd(b, p) <= e && b[SpacesEnd(b, p)..e] == Unspaced(b[p..e])
    decreases e - p
  {
    if b[p] == SPACE {
      assert b[p..e][0] == SPACE && b[p..e][1..] == b[p + 1..e];
      SpacesEndIs(b, p + 1, e);
    } else if p < e {
      assert b[p..e][0] == b[p];
    }
  }

  lemma Four(n: seq<Byte>, x: seq<Byte>, rest: seq<Byte>)
    ensures var s, c := n + [':' as int] + x + CRLF + rest, |n|;
      var e := c + 1 + |x|;
      && |s| == e + 2 + |rest| && s[..c] == n && s[c] == ':' as int && s[c + 1..e] == x
      && s[e] == CR && s[e + 1] == LF && s[e + 2..] == rest
  {
  }

  lemma PartBehind(b: seq<Byte>, p: nat, i: nat, j: nat)
    requires i <= j && p + j <= |b|
    ensures b[p + i..p + j] == b[p..][i..j]
  {
  }

  /** The parts of a line at position `p`. */
  lemma LineParts(b: seq<Byte>, p: nat, l: HeaderLine, rest: seq<Byte>)
    requires p <= |b| && b[p..] == WriteLine(l) + rest
    ensures var c := p + |l.name|;
      var e := c + 1 + |TextOf(l)|;
      && p + |WriteLine(l)| == e + 2 <= |b|
      && b[p..c] == l.name && b[c] == ':' as int && b[c + 1..e] == TextOf(l)
      && b[e] == CR && b[e + 1] == LF && b[e + 2..] == rest
  {
    var c := |l.name|;
    var e := c + 1 + |TextOf(l)|;
    var s := b[p..];
    Four(l.name, TextOf(l), rest);
    hide TextOf;
    PartBehind(b, p, 0, c);
    PartBehind(b, p, c + 1, e);
    assert b[p + c] == s[c] && b[p + e] == s[e] && b[p + e + 1] == s[e + 1] && b[p + e + 2..] == s[e + 2..];
  }

  lemma ParseLine(b: seq<Byte>, p: nat, l: HeaderLine, rest: seq<Byte>) returns (p': nat)
    requires p <= |b| && b[p..] == WriteLine(l) + rest && ValidLine(l)
    ensures p' == p + |WriteLine(l)| <= |b| && b[p'..] == rest
    ensures ParseFields(b, p) == AddField(ReadField(l), ParseFields(b, p'))
  {
    hide *;
    var c := p + |l.name|;
    var e := c + 1 + |TextOf(l)|;
    LineParts(b, p, l, rest);
    p' := e + 2;
    LineNotEmpty(l);
    LineLoops(b, p, c, e, l);
    ParseStep(b, p, c, SpacesEnd(b, c + 1), e, ReadField(l));
  }

  lemma LineNotEmpty(l: HeaderLine)
    requires ValidLine(l)
    ensures l.name != [] && ReadField(l).name == l.name
  {
  }

  lemma {:induction false} ParseStep(b: seq<Byte>, p: nat, c: nat, v: nat, e: nat, f: Field)
    requires p + 1 < |b| && b[p] != 0 && !(b[p] == CR && b[p + 1] == LF) && c < |b| && c < v <= e <= |b|
    requires ColonAt(b, p) == c && SpacesEnd(b, c + 1) == v && LineStop(b, v) == e
    requires p <= c && b[p..c] == f.name && b[v..e] == f.value
    ensures ParseFields(b, p) == AddField(f, ParseFields(b, e + 2))
  {
    hide LineStop, ColonAt, SpacesEnd;
    assert Field(b[p..c], b[v..e]) == f;
  }

  lemma LineLoops(b: seq<Byte>, p: nat, c: nat, e: nat, l: HeaderLine)
    requires ValidLine(l) && p < c < e && e + 1 < |b|
    requires b[p..c] == l.name && b[c] == ':' as int && b[c + 1..e] == TextOf(l) && b[e] == CR
    ensures ColonAt(b, p) == c && b[p] != 0 && b[p] != CR
    ensures var v := SpacesEnd(b, c + 1);
      v <= e && b[v..e] == ReadField(l).value && LineStop(b, v) == e
  {
    assert forall i :: p <= i < c ==> b[i] == l.name[i - p];
    assert b[p] == l.name[0];
    assert OneLine(TextOf(l));
    hide LineStop, ColonAt, SpacesEnd, TextOf;
    ColonAtIs(b, p, c);
    SpacesEndIs(b, c + 1, e);
    var v := SpacesEnd(b, c + 1);
    assert forall i :: 0 <= i < e - v ==> b[v..e][i] == b[c + 1..e][v - c - 1 + i];
    LineStopIs(b, v, e);
  }

  lemma {:induction false} LinesStep(ls: seq<HeaderLine>, rest: seq<Byte>)
    requires ls != []
    ensures WriteLines(ls) + rest == WriteLine(ls[0]) + (WriteLines(ls[1..]) + rest)
  {
  }

  lemma AddFirst(f: Field, fs: seq<Field>, r: Parse)
    ensures AddField(f, AddFields(fs, r)) == AddFields([f] + fs, r)
  {
    assert [f] + (fs + r.fields) == [f] + fs + r.fields;
  }

  /** The reader takes well-formed lines and goes on behind them. */
  lemma {:induction false} ParseOn(b: seq<Byte>, p: nat, ls: seq<HeaderLine>, rest: seq<Byte>)
    requires p <= |b| && b[p..] == WriteLines(ls) + rest
    requires forall i :: 0 <= i < |ls| ==> ValidLine(ls[i])
    ensures p + |WriteLines(ls)| + |rest| == |b| && b[p + |WriteLines(ls)|..] == rest
    ensures ParseFields(b, p) == AddFields(FieldsRead(ls), ParseFields(b, p + |WriteLines(ls)|))
    decreases |ls|
  {
    hide ParseFields, WriteLine, ValidLine, AddFields;
    if ls == [] {
      assert WriteLines(ls) + rest == rest;
      AddNoFields(ParseFields(b, p));
    } else {
      LinesStep(ls, rest);
      var p' := ParseLine(b, p, ls[0], WriteLines(ls[1..]) + rest);
      ParseOn(b, p', ls[1..], rest);
      AddFirst(ReadField(ls[0]), FieldsRead(ls[1..]), ParseFields(b, p + |WriteLines(ls)|));
    }
  }

  lemma {:induction false} NoColonAt(b: seq<Byte>, p: nat)
    requires p <= |b| && forall i :: p <= i < |b| ==> b[i] != ':' as int
    ensures ColonAt(b, p) == |b|
    decreases |b| - p
  {
    if p < |b| {
      NoColonAt(b, p + 1);
    }
  }

  lemma BehindStart(start: seq<Byte>, x: seq<Byte>, rest: seq<Byte>)
    ensures var b, n := start + CRLF + x + rest, |start|;
      n + 1 < |b| && b[0..n] == start && b[n] == CR && b[n + 1] == LF && b[n + 2..] == x + rest
  {
  }

  lemma {:induction false} LinesParsed(start: seq<Byte>, ls: seq<HeaderLine>, rest: seq<Byte>)
    requires ValidHeader(start, ls)
    ensures var b, p := start + CRLF + WriteLines(ls) + rest, |start + CRLF + WriteLines(ls)|;
      p <= |b| && b[p..] == rest && ParseLines(b) == AddFields(FieldsRead(ls), ParseFields(b, p))
  {
    var b, n := start + CRLF + WriteLines(ls) + rest, |start|;
    hide ParseFields, WriteLines, FieldsRead, LineStop, OneLine, ValidLine, AddFields;
    BehindStart(start, WriteLines(ls), rest);
    LineStopIs(b, 0, n);
    ParseOn(b, n + 2, ls, rest);
  }

  lemma StopsHere(b: seq<Byte>, p: nat, fs: seq<Field>, rest: seq<Byte>)
    requires p <= |b| && b[p..] == rest
    ensures var r := AddFields(fs, ParseFields(b, p));
      && (|rest| >= 2 && rest[0] == 13 && rest[1] == 10 ==> r == Complete(p + 2, fs))
      && (|rest| < 2 || rest[0] == 0 ==> r == Incomplete(fs))
      && (|rest| >= 2 && rest[0] != 0 && !(rest[0] == 13 && rest[1] == 10) && 58 !in rest ==> r == Overrun(fs))
  {
    assert fs + [] == fs;
    assert forall i :: 0 <= i < |rest| ==> b[p + i] == b[p..][i];
    if 58 !in rest {
      assert forall i :: p <= i < |b| ==> b[i] == rest[i - p];
      NoColonAt(b, p);
    }
    hide ColonAt, SpacesEnd, LineStop;
  }

  /** Behind well-formed lines: where the reader stops, by what follows them. */
  lemma {:induction false} HeaderStops(start: seq<Byte>, ls: seq<HeaderLine>, rest: seq<Byte>)
    requires ValidHeader(start, ls)
    ensures var r, n := ParseLines(start + CRLF + WriteLines(ls) + rest), |start + CRLF + WriteLines(ls)|;
      && (|rest| >= 2 && rest[0] == 13 && rest[1] == 10 ==> r == Complete(n + 2, FieldsRead(ls)))
      && (|rest| < 2 || rest[0] == 0 ==> r == Incomplete(FieldsRead(ls)))
      && (|rest| >= 2 && rest[0] != 0 && !(rest[0] == 13 && rest[1] == 10) && 58 !in rest ==>
            r == Overrun(FieldsRead(ls)))
  {
    hide *;
    LinesParsed(start, ls, rest);
    StopsHere(start + CRLF + WriteLines(ls) + rest, |start + CRLF + WriteLines(ls)|, FieldsRead(ls), rest);
  }

  /**
   The reader takes the fields of a well-formed header, in order, each with the spaces before its value off, and finds
   the start of the body.
   */
  lemma {:induction false} HeaderParses(start: seq<Byte>, ls: seq<HeaderLine>, rest: seq<Byte>)
    requires ValidHeader(start, ls)
    ensures ParseLines(WriteHeader(start, ls) + rest) == Complete(|WriteHeader(start, ls)|, FieldsRead(ls))
  {
    HeaderStops(start, ls, CRLF + rest);
    hide ParseLines, WriteLines, FieldsRead;
    assert start + CRLF + WriteLines(ls) + (CRLF + rest) == WriteHeader(start, ls) + rest;
  }

  /** Whether the client takes a response with this header to keep the connection. */
  predicate HeaderKeeps(start: seq<Byte>, ls: seq<HeaderLine>) {
    Version(start) != 0 && KeepAlive(FieldsRead(ls), Version(start) > 0x10)
  }

  /** What is noted of a well-formed header: its fields are reported in order. */
  lemma {:induction false} HeaderNoted(start: seq<Byte>, ls: seq<HeaderLine>, rest: seq<Byte>)
    requires ValidHeader(start, ls) && |start| > 7
    ensures var b := WriteHeader(start, ls) + rest;
      (Keeps(b) <==> HeaderKeeps(start, ls)) && Reports(b) == if Version(start) == 0 then [] else FieldsRead(ls)
  {
    hide *;
    var b := WriteHeader(start, ls) + rest;
    SameVersion(start, ls, rest);
    HeaderParses(start, ls, rest);
    NotedOf(b, |WriteHeader(start, ls)|, FieldsRead(ls));
    KeepsIs(start, ls);
  }

  lemma SameVersion(start: seq<Byte>, ls: seq<HeaderLine>, rest: seq<Byte>)
    requires |start| > 7
    ensures Version(WriteHeader(start, ls) + rest) == Version(start)
  {
    var b := WriteHeader(start, ls) + rest;
    assert forall i :: 0 <= i < |start| ==> b[i] == start[i];
    hide WriteLines;
  }

  lemma NotedOf(b: seq<Byte>, n: nat, fields: seq<Field>)
    requires ParseLines(b) == Complete(n, fields)
    ensures Keeps(b) <==> Version(b) != 0 && KeepAlive(fields, Version(b) > 0x10)
    ensures Reports(b) == if Version(b) == 0 then [] else fields
  {
    hide ParseLines, Version, KeepAlive;
  }

  lemma KeepsIs(start: seq<Byte>, ls: seq<HeaderLine>)
    ensures HeaderKeeps(start, ls) <==> Version(start) != 0 && KeepAlive(FieldsRead(ls), Version(start) > 0x10)
  {
    hide Version, KeepAlive, FieldsRead;
  }

  /**
   What a well-formed header does to the connection: the last plain line that says keep-alive or close decides; without
   one HTTP/1.1 keeps it and HTTP/1.0 does not.
   */
  lemma {:induction false} ConnectionKept(start: seq<Byte>, ls: seq<HeaderLine>)
    requires ValidHeader(start, ls) && |start| > 7 && start[..7] == [72, 84, 84, 80, 47, 49, 46]
    requires start[7] == 48 || start[7] == 49
    ensures (forall i :: 0 <= i < |ls| ==> !ConnectionLine(ls[i])) ==> (HeaderKeeps(start, ls) <==> start[7] == 49)
    ensures forall k :: 0 <= k < |ls| && LastConnectionLine(ls, k) ==>
      (HeaderKeeps(start, ls) <==> Spells(ls[k].value, KEEP_ALIVE))
  {
    VersionOf(start);
    hide Version, KeepAlive, ConnectionLine, Spells, FieldsRead;
    ConnectionRead(ls, Version(start) > 0x10);
  }

  // ---------------------------------------------------------------- a header that is cut

  lemma {:induction false} ColonStays(a: seq<Byte>, x: seq<Byte>, p: nat)
    requires p <= |a| && ColonAt(a, p) < |a|
    ensures ColonAt(a + x, p) == ColonAt(a, p)
    decreases |a| - p
  {
    if a[p] != ':' as int {
      ColonStays(a, x, p + 1);
    }
  }

  lemma {:induction false} SpacesStay(a: seq<Byte>, x: seq<Byte>, p: nat)
    requires p <= |a| && SpacesEnd(a, p) < |a|
    ensures SpacesEnd(a + x, p) == SpacesEnd(a, p)
    decreases |a| - p
  {
    if a[p] == SPACE {
      SpacesStay(a, x, p + 1);
    }
  }

  lemma {:induction false} LineStopStays(a: seq<Byte>, x: seq<Byte>, p: nat)
    requires LineStop(a, p) + 1 < |a|
    ensures LineStop(a + x, p) == LineStop(a, p)
    decreases |a| - p
  {
    if a[p] != CR && a[p + 1] != LF {
      LineStopStays(a, x, p + 1);
    }
  }

  /** The line at the start of a parse that is complete and not at its end. */
  lemma CompleteStep(a: seq<Byte>, p: nat) returns (c: nat, v: nat, e: nat, f: Field)
    requires ParseFields(a, p).Complete? && !(a[p] == CR && a[p + 1] == LF)
    ensures p <= c < v <= e && e + 2 < |a| && a[p] != 0
    ensures c == ColonAt(a, p) && v == SpacesEnd(a, c + 1) && e == LineStop(a, v)
    ensures f == Field(a[p..c], a[v..e]) && ParseFields(a, p) == AddField(f, ParseFields(a, e + 2))
    ensures ParseFields(a, e + 2).Complete?
  {
    hide ColonAt, SpacesEnd, LineStop;
    c := ColonAt(a, p);
    v := SpacesEnd(a, c + 1);
    e := LineStop(a, v);
    f := Field(a[p..c], a[v..e]);
  }

  lemma {:induction false} StepStays(a: seq<Byte>, x: seq<Byte>, p: nat, c: nat, v: nat, e: nat, f: Field)
    requires p <= c < v <= e && e + 2 < |a| && a[p] != 0 && !(a[p] == CR && a[p + 1] == LF)
    requires c == ColonAt(a, p) && v == SpacesEnd(a, c + 1) && e == LineStop(a, v)
    requires f == Field(a[p..c], a[v..e])
    ensures ParseFields(a + x, p) == AddField(f, ParseFields(a + x, e + 2))
  {
    ColonStays(a, x, p);
    SpacesStay(a, x, c + 1);
    LineStopStays(a, x, v);
    hide *;
    SamePart(a, x, p, c);
    SamePart(a, x, v, e);
    assert (a + x)[p] == a[p] && (a + x)[p + 1] == a[p + 1];
    ParseStep(a + x, p, c, v, e, f);
  }

  lemma SamePart(a: seq<Byte>, x: seq<Byte>, i: nat, j: nat)
    requires i <= j <= |a|
    ensures (a + x)[i..j] == a[i..j]
  {
  }

  /** A parse that is complete stays what it is when more bytes come. */
  lemma {:induction false} CompleteStays(a: seq<Byte>, x: seq<Byte>, p: nat)
    requires ParseFields(a, p).Complete?
    ensures ParseFields(a + x, p) == ParseFields(a, p)
    decreases |a| - p
  {
    if !(a[p] == CR && a[p + 1] == LF) {
      var c, v, e, f := CompleteStep(a, p);
      hide *;
      StepStays(a, x, p, c, v, e, f);
      CompleteStays(a, x, e + 2);
    }
  }

  /** A packet that ends before the header does is not parsed completely. */
  lemma CutHeader(start: seq<Byte>, ls: seq<HeaderLine>, a: seq<Byte>)
    requires ValidHeader(start, ls) && a <= WriteHeader(start, ls) && |a| < |WriteHeader(start, ls)|
    ensures !ParseLines(a).Complete?
  {
    var h := WriteHeader(start, ls);
    var x := h[|a|..];
    assert a + x == h && h + [] == h;
    HeaderParses(start, ls, []);
    hide WriteHeader, ValidHeader;
    if ParseLines(a).Complete? {
      CompleteInside(a);
      CompleteStays(a, x, LineStop(a, 0) + 2);
      LineStopStays(a, x, 0);
    }
  }

  lemma {:induction false} FieldsInside(b: seq<Byte>, p: nat)
    ensures ParseFields(b, p).Complete? ==> p + 2 <= ParseFields(b, p).offset <= |b|
    decreases |b| - p
  {
    hide ColonAt, SpacesEnd, LineStop;
    if p + 1 < |b| && b[p] != 0 && !(b[p] == CR && b[p + 1] == LF) {
      var colon := ColonAt(b, p);
      if colon != |b| {
        FieldsInside(b, LineStop(b, SpacesEnd(b, colon + 1)) + 2);
      }
    }
  }

  lemma {:induction false} CompleteInside(b: seq<Byte>)
    requires ParseLines(b).Complete?
    ensures ParseLines(b).offset <= |b| && LineStop(b, 0) + 4 <= |b|
  {
    FieldsInside(b, LineStop(b, 0) + 2);
  }

  // ---------------------------------------------------------------- agreement with the scanner

  function Behind(n: nat, r: Scan): Scan {
    match r case Found(m) => Found(n + m) case Searching(k) => Searching(k)
  }

  lemma {:induction false} ScanLine(t: seq<Byte>, rest: seq<Byte>, found: nat)
    requires OneLine(t) && (found == 0 || (found == 2 && t != []))
    ensures ScanFrom(t + CRLF + rest, found) == Behind(|t| + 2, ScanFrom(rest, 2))
    decreases |t|
  {
    var s := t + CRLF + rest;
    if t == [] {
      assert s[1..] == [LF] + rest && s[1..][1..] == rest;
    } else {
      assert s[1..] == t[1..] + CRLF + rest;
      ScanLine(t[1..], rest, 0);
    }
  }

  lemma {:induction false} ScanLines(ls: seq<HeaderLine>, rest: seq<Byte>)
    requires forall i :: 0 <= i < |ls| ==> ValidLine(ls[i])
    ensures ScanFrom(WriteLines(ls) + CRLF + rest, 2) == Found(|WriteLines(ls)| + 2)
  {
    if ls == [] {
      var s := WriteLines(ls) + CRLF + rest;
      assert s == CRLF + rest && s[1..] == [LF] + rest;
    } else {
      var l, more := ls[0], WriteLines(ls[1..]) + CRLF + rest;
      var t := l.name + [':' as int] + TextOf(l);
      assert WriteLines(ls) + CRLF + rest == t + CRLF + more;
      ScanLine(t, more, 2);
      ScanLines(ls[1..], rest);
    }
  }

  /** The scanner over the received chains and the field reader agree on where a well-formed header ends. */
  lemma ScannersAgree(start: seq<Byte>, ls: seq<HeaderLine>, rest: seq<Byte>)
    requires ValidHeader(start, ls)
    ensures var s := WriteHeader(start, ls) + rest;
      ParseLines(s).Complete? && ScanFrom(s, 0) == Found(ParseLines(s).offset)
  {
    HeaderParses(start, ls, rest);
    var more := WriteLines(ls) + CRLF + rest;
    assert WriteHeader(start, ls) + rest == start + CRLF + more;
    ScanLine(start, more, 0);
    ScanLines(ls, rest);
  }
}
