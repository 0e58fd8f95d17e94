/**
 Two peeks at a stream that has only begun: one at a TLS record, one at a request
 head. A peek waits for more bytes or has read its answer, and an answer once read is
 never taken back.
 */
module CellPeek {
  import opened Prelude
  import opened CellWire

  datatype Peeked = More | Read(name: Option<Bytes>)

  // ------------------------------------------------------------------------ TLS

  const HANDSHAKE: Byte := 0x16
  const CLIENT_HELLO: Byte := 0x01
  const MAX_RECORD := 16_384 + 256

  /** A place in a record, always within it: a read past the end gives nothing and moves nothing. */
  class Cursor {
    const record: Bytes
    var at: nat

    ghost predicate Valid()
      reads this
    {
      at <= |record|
    }

    constructor (record: Bytes)
      ensures this.record == record && at == 0 && Valid()
    {
      this.record := record;
      at := 0;
    }

    method Take(count: nat) returns (slice: Option<Bytes>)
      requires Valid()
      modifies this`at
      ensures Valid()
      ensures slice.Some? <==> old(at) + count <= |record|
      ensures slice.Some? ==> at == old(at) + count && slice.value == record[old(at)..at]
      ensures slice.None? ==> at == old(at)
    {
      if at + count > |record| {
        return None;
      }
      slice := Some(record[at..at + count]);
      at := at + count;
    }

    /** Skips what its own length, in one byte or two, says how long it is. */
    method SkipSized(wide: bool) returns (ok: bool)
      requires Valid()
      modifies this`at
      ensures Valid()
      ensures ok == AfterSized(record, old(at), wide).Some?
      ensures ok ==> at == AfterSized(record, old(at), wide).value
    {
      var size := Take(if wide then 2 else 1);
      if size.None? {
        return false;
      }
      var skipped := Take(if wide then ReadU16(size.value, 0) else size.value[0] as int);
      ok := skipped.Some?;
    }
  }

  /** Where a sized field ends, if it ends within the record. */
  function AfterSized(record: Bytes, at: nat, wide: bool): (r: Option<nat>)
    requires at <= |record|
    ensures r.Some? ==> at < r.value <= |record|
  {
    var head := if wide then 2 else 1;
    if at + head > |record| then None
    else
      var end := at + head + if wide then ReadU16(record, at) else record[at] as int;
      if end > |record| then None else Some(end)
  }

  /** The name in a server_name extension, as section 3 of RFC 6066 lays it out. */
  function NameIn(body: Bytes): Option<Bytes> {
    if |body| < 5 || body[2] != 0 then None
    else
      var length := ReadU16(body, 3);
      if 5 + length > |body| then None else HostName(body[5..5 + length])
  }

  /** The name in the first server_name extension from a position on. */
  function NameFrom(record: Bytes, at: nat, end: nat): Option<Bytes>
    requires end <= |record|
    decreases |record| - at
  {
    if at + 4 > end then None
    else
      var next := at + 4 + ReadU16(record, at + 2);
      if next > |record| then None
      else if ReadU16(record, at) != 0 then NameFrom(record, next, end)
      else NameIn(record[at + 4..next])
  }

  /**
   Where a hello's extensions start: after its type, length, version, random, session
   id, cipher suites and compression methods.
   */
  function ExtensionsAt(record: Bytes): (r: Option<nat>)
    ensures r.Some? ==> r.value <= |record|
  {
    if |record| < 4 + 34 || record[0] != CLIENT_HELLO then None
    else
      var session := AfterSized(record, 4 + 34, false);
      if session.None? then None
      else
        var suites := AfterSized(record, session.value, true);
        if suites.None? then None else AfterSized(record, suites.value, false)
  }

  function NameOfHello(record: Bytes): Option<Bytes> {
    var at := ExtensionsAt(record);
    if at.None? || at.value + 2 > |record| then None
    else NameFrom(record, at.value + 2, Min(|record|, at.value + 2 + ReadU16(record, at.value)))
  }

  function ServerName(bytes: Bytes): Peeked {
    if |bytes| < 5 then if bytes == [] || bytes[0] == HANDSHAKE then More else Read(None)
    else if bytes[0] != HANDSHAKE then Read(None)
    else
      var size := ReadU16(bytes, 3);
      if size > MAX_RECORD then Read(None)
      else if |bytes| < 5 + size then More
      else Read(NameOfHello(bytes[5..5 + size]))
  }

  lemma {:induction false} SliceU16(record: Bytes, start: nat, end: nat, k: nat)
    requires start + k + 2 <= end <= |record|
    ensures ReadU16(record[start..end], k) == ReadU16(record, start + k)
  {
  }

  /** Reads a record's extensions up to the server name, from where the cursor stands. */
  method ReadExtensions(cursor: Cursor, end: nat) returns (name: Option<Bytes>)
    requires cursor.Valid() && end <= |cursor.record|
    modifies cursor`at
    ensures cursor.Valid()
    ensures name == NameFrom(cursor.record, old(cursor.at), end)
  {
    hide ReadU16, NameIn;
    while cursor.at + 4 <= end
      invariant cursor.Valid()
      invariant NameFrom(cursor.record, cursor.at, end) == NameFrom(cursor.record, old(cursor.at), end)
      decreases |cursor.record| - cursor.at
    {
      ghost var start := cursor.at;
      var header := cursor.Take(4);
      SliceU16(cursor.record, start, start + 4, 0);
      SliceU16(cursor.record, start, start + 4, 2);
      var body := cursor.Take(ReadU16(header.value, 2));
      if body.None? {
        return None;
      }
      if ReadU16(header.value, 0) == 0 {
        return NameIn(body.value);
      }
    }
    name := None;
  }

  method ReadHello(record: Bytes) returns (name: Option<Bytes>)
    ensures name == NameOfHello(record)
  {
    hide AfterSized, NameFrom, ReadU16;
    var cursor := new Cursor(record);
    var head := cursor.Take(4);
    if head.None? || head.value[0] != CLIENT_HELLO {
      return None;
    }
    var random := cursor.Take(34);
    if random.None? {
      return None;
    }
    var session := cursor.SkipSized(false);
    if !session {
      return None;
    }
    var suites := cursor.SkipSized(true);
    if !suites {
      return None;
    }
    var compression := cursor.SkipSized(false);
    if !compression {
      return None;
    }
    var size := cursor.Take(2);
    if size.None? {
      return None;
    }
    SliceU16(record, cursor.at - 2, cursor.at, 0);
    name := ReadExtensions(cursor, Min(|record|, cursor.at + ReadU16(size.value, 0)));
  }

  method TlsServerName(bytes: Bytes) returns (p: Peeked)
    ensures p == ServerName(bytes)
  {
    if |bytes| < 5 {
      return if |bytes| == 0 || bytes[0] == HANDSHAKE then More else Read(None);
    }
    if bytes[0] != HANDSHAKE {
      return Read(None);
    }
    var recordEnd := 5 + ReadU16(bytes, 3);
    if recordEnd > 5 + MAX_RECORD {
      return Read(None);
    }
    if |bytes| < recordEnd {
      return More;
    }
    var name := ReadHello(bytes[5..recordEnd]);
    p := Read(name);
  }

  /** A peek whose answer, once it has one, is the same for everything the bytes go on to be. */
  ghost predicate Stable(peek: Bytes -> Peeked) {
    forall bytes: Bytes, more: Bytes :: peek(bytes).Read? ==> peek(bytes + more) == peek(bytes)
  }

  lemma {:induction false} ServerNameIsStable()
    ensures Stable(ServerName)
  {
    forall bytes: Bytes, more: Bytes | ServerName(bytes).Read? ensures ServerName(bytes + more) == ServerName(bytes) {
      var whole := bytes + more;
      assert forall i :: 0 <= i < |bytes| ==> whole[i] == bytes[i];
      if |bytes| >= 5 {
        var size := ReadU16(bytes, 3);
        if size <= MAX_RECORD && 5 + size <= |bytes| {
          assert whole[5..5 + size] == bytes[5..5 + size];
        }
      }
    }
  }

  // -------------------------------------------------------- a hello is read back

  datatype Extension = Extension(kind: nat, body: Bytes)

  predicate Fits(e: Extension) {
    e.kind < 0x1_0000 && |e.body| < 0x1_0000
  }

  function EncodeExtension(e: Extension): Bytes
    requires Fits(e)
  {
    U16(e.kind) + U16(|e.body|) + e.body
  }

  function EncodeExtensions(list: seq<Extension>): Bytes
    requires forall i :: 0 <= i < |list| ==> Fits(list[i])
  {
    if list == [] then [] else EncodeExtension(list[0]) + EncodeExtensions(list[1..])
  }

  /** A server_name extension naming one host, whatever entries follow it in the list. */
  function NameExtension(name: Bytes, others: Bytes): Extension
    requires 5 + |name| + |others| < 0x1_0000
  {
    Extension(0, U16(3 + |name| + |others|) + [0] + U16(|name|) + name + others)
  }

  /** A field after its length, in one byte or two. */
  function Sized(field: Bytes, wide: bool): Bytes
    requires |field| < if wide then 0x1_0000 else 0x100
  {
    (if wide then U16(|field|) else [|field|]) + field
  }

  lemma {:induction false} SizedIsSkipped(record: Bytes, at: nat, field: Bytes, wide: bool, rest: Bytes)
    requires |field| < if wide then 0x1_0000 else 0x100
    requires at <= |record| && record[at..] == Sized(field, wide) + rest
    ensures var next := at + |Sized(field, wide)|;
      next <= |record| && AfterSized(record, at, wide) == Some(next) && record[next..] == rest
  {
    var size := if wide then U16(|field|) else [|field|];
    Associates(size, field, rest);
    TailAt(record, at, size, field + rest);
    TailAt(record, at + |size|, field, rest);
    if wide {
      U16IsRead(record, at, |field|, field + rest);
    } else {
      assert record[at] == record[at..at + 1][0];
    }
  }

  /** An extension that names no server is passed over. */
  lemma {:induction false} OtherIsSkipped(record: Bytes, at: nat, end: nat, e: Extension, rest: Bytes)
    requires Fits(e) && e.kind != 0 && at + 4 <= end <= |record|
    requires record[at..] == EncodeExtension(e) + rest
    ensures var next := at + 4 + |e.body|;
      next <= |record| && record[next..] == rest && NameFrom(record, at, end) == NameFrom(record, next, end)
  {
    ExtensionIsRead(record, at, e, rest);
  }

  lemma {:induction false} ExtensionIsRead(record: Bytes, at: nat, e: Extension, rest: Bytes)
    requires Fits(e) && at <= |record| && record[at..] == EncodeExtension(e) + rest
    ensures var next := at + 4 + |e.body|;
      && next <= |record| && record[next..] == rest && record[at + 4..next] == e.body
      && ReadU16(record, at) == e.kind && ReadU16(record, at + 2) == |e.body|
  {
    hide U16, ReadU16;
    FourAssociate(U16(e.kind), U16(|e.body|), e.body, rest);
    U16IsRead(record, at, e.kind, U16(|e.body|) + (e.body + rest));
    U16IsRead(record, at + 2, |e.body|, e.body + rest);
    TailAt(record, at + 4, e.body, rest);
  }

  lemma {:induction false} NameExtensionIsRead(name: Bytes, others: Bytes)
    requires 5 + |name| + |others| < 0x1_0000
    ensures NameIn(NameExtension(name, others).body) == HostName(name)
  {
    var size := U16(3 + |name| + |others|);
    var body := NameExtension(name, others).body;
    var tail := U16(|name|) + (name + others);
    assert body == size + [0] + tail;
    assert body[3..] == tail && body[2] == 0;
    U16IsRead(body, 3, |name|, name + others);
    TailAt(body, 5, name, others);
  }

  /** The first server name is found after any number of other extensions. */
  lemma {:induction false} NameIsFound(record: Bytes, at: nat, end: nat, before: seq<Extension>, name: Bytes,
      others: Bytes, rest: Bytes)
    requires forall i :: 0 <= i < |before| ==> Fits(before[i]) && before[i].kind != 0
    requires 5 + |name| + |others| < 0x1_0000
    requires at <= |record| && end <= |record|
    requires record[at..] == EncodeExtensions(before) + (EncodeExtension(NameExtension(name, others)) + rest)
    requires at + |EncodeExtensions(before)| + 4 <= end
    ensures NameFrom(record, at, end) == HostName(name)
    decreases |before|
  {
    hide U16, ReadU16, NameIn;
    var last := NameExtension(name, others);
    var tail := EncodeExtension(last) + rest;
    if before == [] {
      assert record[at..] == tail;
      ExtensionIsRead(record, at, last, rest);
      NameExtensionIsRead(name, others);
    } else {
      hide NameFrom;
      var first, more := before[0], EncodeExtensions(before[1..]);
      assert |EncodeExtension(first)| == 4 + |first.body|;
      Associates(EncodeExtension(first), more, tail);
      OtherIsSkipped(record, at, end, first, more + tail);
      NameIsFound(record, at + 4 + |first.body|, end, before[1..], name, others, rest);
    }
  }

  /** A client hello as section 4.1.2 of RFC 8446 lays it out, in a record of its own. */
  datatype Hello = Hello(
    recordVersion: Bytes,
    helloLength: Bytes,
    versionAndRandom: Bytes,
    session: Bytes,
    suites: Bytes,
    compression: Bytes,
    before: seq<Extension>,
    name: Bytes,
    otherNames: Bytes,
    after: seq<Extension>)

  ghost predicate WellFormed(h: Hello) {
    && |h.recordVersion| == 2 && |h.helloLength| == 3 && |h.versionAndRandom| == 34
    && |h.session| < 0x100 && |h.suites| < 0x1_0000 && |h.compression| < 0x100
    && (forall i :: 0 <= i < |h.before| ==> Fits(h.before[i]) && h.before[i].kind != 0)
    && (forall i :: 0 <= i < |h.after| ==> Fits(h.after[i]))
    && 5 + |h.name| + |h.otherNames| < 0x1_0000
    && |Extensions(h)| < 0x1_0000
  }

  function Extensions(h: Hello): Bytes
    requires forall i :: 0 <= i < |h.before| ==> Fits(h.before[i])
    requires forall i :: 0 <= i < |h.after| ==> Fits(h.after[i])
    requires 5 + |h.name| + |h.otherNames| < 0x1_0000
  {
    EncodeExtensions(h.before) + (EncodeExtension(NameExtension(h.name, h.otherNames)) + EncodeExtensions(h.after))
  }

  function HelloRecord(h: Hello): Bytes
    requires WellFormed(h)
  {
    ([CLIENT_HELLO] + h.helloLength + h.versionAndRandom)
    + (Sized(h.session, false) + (Sized(h.suites, true) + (Sized(h.compression, false) + Sized(Extensions(h), true))))
  }

  lemma {:induction false} HelloIsSkipped(h: Hello)
    requires WellFormed(h)
    ensures var record := HelloRecord(h); var at := |record| - |Sized(Extensions(h), true)|;
      ExtensionsAt(record) == Some(at) && record[at..] == Sized(Extensions(h), true) + []
  {
    hide U16, ReadU16, Sized, Extensions, AfterSized;
    var record := HelloRecord(h);
    var fixed := [CLIENT_HELLO] + h.helloLength + h.versionAndRandom;
    var d := Sized(Extensions(h), true);
    var c := Sized(h.compression, false) + d;
    var b := Sized(h.suites, true) + c;
    TailAt(record, 0, fixed, Sized(h.session, false) + b) by { assert record[0..] == record; }
    SizedIsSkipped(record, 38, h.session, false, b);
    SizedIsSkipped(record, 38 + |Sized(h.session, false)|, h.suites, true, c);
    SizedIsSkipped(record, 38 + |Sized(h.session, false)| + |Sized(h.suites, true)|, h.compression, false, d);
    assert d + [] == d;
    assert record[0] == fixed[0];
  }

  lemma {:induction false} NameOfHelloIsRead(h: Hello)
    requires WellFormed(h)
    ensures NameOfHello(HelloRecord(h)) == HostName(h.name)
  {
    hide U16, ReadU16, ExtensionsAt, EncodeExtensions, HelloRecord;
    var record, list := HelloRecord(h), Extensions(h);
    var at := |record| - |Sized(list, true)|;
    HelloIsSkipped(h);
    assert Sized(list, true) + [] == U16(|list|) + list;
    U16IsRead(record, at, |list|, list);
    NameIsFound(record, at + 2, |record|, h.before, h.name, h.otherNames, EncodeExtensions(h.after));
  }

  /**
   Reading undoes writing: of every client hello in one record that a cell carries,
   whatever extensions stand before and after its server name and whatever follows
   the record, the reader gives the name.
   */
  lemma {:induction false} HelloIsRead(h: Hello, more: Bytes)
    requires WellFormed(h) && |HelloRecord(h)| <= MAX_RECORD
    ensures ServerName([HANDSHAKE] + h.recordVersion + U16(|HelloRecord(h)|) + HelloRecord(h) + more)
      == Read(HostName(h.name))
  {
    hide HelloRecord, NameOfHello;
    var record := HelloRecord(h);
    var head := [HANDSHAKE] + h.recordVersion;
    var bytes := head + U16(|record|) + record + more;
    FourAssociate(head, U16(|record|), record, more);
    TailAt(bytes, 0, head, U16(|record|) + (record + more)) by { assert bytes[0..] == bytes; }
    U16IsRead(bytes, 3, |record|, record + more);
    TailAt(bytes, 5, record, more);
    NameOfHelloIsRead(h);
  }

  // ----------------------------------------------------------------------- HTTP

  const MAX_HTTP_HEAD := 8_192
  const CR: Byte := 0x0d
  const LF: Byte := 0x0a
  const COLON: Byte := 0x3a
  const CRLF: Bytes := [CR, LF]
  const BLANK: Bytes := [CR, LF, CR, LF]
  const HOST_FIELD: Bytes := [0x68, 0x6f, 0x73, 0x74, COLON]

  function SplitLines(text: Bytes): seq<Bytes>
    decreases |text|
  {
    var end := Find(text, CRLF, 0);
    if end.None? then [text] else [text[..end.value]] + SplitLines(text[end.value + 2..])
  }

  predicate IsSpace(b: Byte) {
    0x09 <= b <= 0x0d || b == 0x20 || b == 0xa0
  }

  function TrimLeft(s: Bytes): Bytes {
    if s != [] && IsSpace(s[0]) then TrimLeft(s[1..]) else s
  }

  function TrimRight(s: Bytes): Bytes {
    if s != [] && IsSpace(s[|s| - 1]) then TrimRight(s[..|s| - 1]) else s
  }

  predicate HasPrefix(line: Bytes, prefix: Bytes) {
    |line| >= |prefix| && LowerCase(line[..|prefix|]) == prefix
  }

  /** The value of a `Host` line, without the space around it; a value that runs over a line end is none. */
  function HostLine(line: Bytes): Option<Bytes> {
    if !HasPrefix(line, HOST_FIELD) then None
    else
      var value := TrimRight(TrimLeft(line[|HOST_FIELD|..]));
      if CR in value || LF in value then None else Some(value)
  }

  function Digits(s: Bytes): (n: nat)
    ensures n <= |s|
  {
    if s != [] && 0x30 <= s[|s| - 1] <= 0x39 then 1 + Digits(s[..|s| - 1]) else 0
  }

  /** A host without the port it ends in. */
  function WithoutPort(s: Bytes): Bytes {
    var n := Digits(s);
    if n > 0 && n < |s| && s[|s| - n - 1] == COLON then s[..|s| - n - 1] else s
  }

  function FirstHost(lines: seq<Bytes>): Option<Bytes> {
    if lines == [] then None
    else if HostLine(lines[0]).Some? then HostName(WithoutPort(HostLine(lines[0]).value))
    else FirstHost(lines[1..])
  }

  function Head(bytes: Bytes): Bytes {
    bytes[..Min(|bytes|, MAX_HTTP_HEAD)]
  }

  function RequestHost(bytes: Bytes): Peeked {
    var end := Find(Head(bytes), BLANK, 0);
    if end.None? then if |bytes| >= MAX_HTTP_HEAD then Read(None) else More
    else Read(FirstHost(SplitLines(Head(bytes)[..end.value])[1..]))
  }

  method HttpHost(bytes: Bytes) returns (p: Peeked)
    ensures p == RequestHost(bytes)
  {
    var text := Head(bytes);
    var end := Find(text, BLANK, 0);
    if end.None? {
      return if |bytes| >= MAX_HTTP_HEAD then Read(None) else More;
    }
    var lines := SplitLines(text[..end.value])[1..];
    for i := 0 to |lines|
      invariant FirstHost(lines) == FirstHost(lines[i..])
    {
      assert lines[i..][1..] == lines[i + 1..];
      var value := HostLine(lines[i]);
      if value.Some? {
        return Read(HostName(WithoutPort(value.value)));
      }
    }
    p := Read(None);
  }

  lemma {:induction false} FindInMore(text: Bytes, more: Bytes, pattern: Bytes)
    requires Find(text, pattern, 0).Some?
    ensures Find(text + more, pattern, 0) == Find(text, pattern, 0)
  {
    var at := Find(text, pattern, 0).value;
    forall k | 0 <= k <= at ensures MatchAt(text + more, pattern, k) <==> MatchAt(text, pattern, k) {
      assert (text + more)[k..k + |pattern|] == text[k..k + |pattern|];
    }
  }

  lemma {:induction false} RequestHostIsStable()
    ensures Stable(RequestHost)
  {
    forall bytes: Bytes, more: Bytes | RequestHost(bytes).Read? ensures RequestHost(bytes + more) == RequestHost(bytes)
    {
      var text, whole := Head(bytes), Head(bytes + more);
      assert whole == text + whole[|text|..];
      if |bytes| >= MAX_HTTP_HEAD {
        assert whole == text;
      } else {
        FindInMore(text, whole[|text|..], BLANK);
        var end := Find(text, BLANK, 0).value;
        assert whole[..end] == text[..end];
      }
    }
  }

  // ------------------------------------------------- a request head is read back

  /** A line of a request head: not empty, and without the byte that ends lines. */
  predicate IsLine(line: Bytes) {
    line != [] && CR !in line
  }

  function JoinLines(lines: seq<Bytes>): Bytes {
    if lines == [] then []
    else if |lines| == 1 then lines[0]
    else lines[0] + CRLF + JoinLines(lines[1..])
  }

  lemma {:induction false} NoLineEnd(line: Bytes, rest: Bytes, k: nat)
    requires CR !in line && k < |line|
    ensures !MatchAt(line + rest, CRLF, k) && !MatchAt(line + rest, BLANK, k)
  {
    var text := line + rest;
    assert text[k] == line[k];
    MatchStarts(text, CRLF, k);
    MatchStarts(text, BLANK, k);
  }

  lemma {:induction false} MatchStarts(text: Bytes, pattern: Bytes, k: nat)
    requires pattern != []
    ensures MatchAt(text, pattern, k) ==> text[k] == pattern[0]
  {
    if MatchAt(text, pattern, k) {
      assert text[k] == text[k..k + |pattern|][0];
    }
  }

  /** The end of a line is where it is found. */
  lemma {:induction false} LineEndIsFound(line: Bytes, rest: Bytes)
    requires CR !in line
    ensures Find(line + CRLF + rest, CRLF, 0) == Some(|line|)
    ensures Find(line, CRLF, 0) == None
  {
    var text := line + (CRLF + rest);
    Associates(line, CRLF, rest);
    forall k | 0 <= k < |line| ensures !MatchAt(text, CRLF, k) && !MatchAt(line, CRLF, k) {
      NoLineEnd(line, CRLF + rest, k);
      NoLineEnd(line, [], k);
      assert line + [] == line;
    }
    assert MatchAt(text, CRLF, |line|);
  }

  lemma {:induction false} LinesAreSplit(lines: seq<Bytes>)
    requires lines != [] && forall i :: 0 <= i < |lines| ==> IsLine(lines[i])
    ensures SplitLines(JoinLines(lines)) == lines
  {
    var first := lines[0];
    assert IsLine(first);
    if |lines| == 1 {
      LineEndIsFound(first, []);
    } else {
      var rest := JoinLines(lines[1..]);
      LineEndIsFound(first, rest);
      var text := first + CRLF + rest;
      assert text[..|first|] == first && text[|first| + 2..] == rest;
      LinesAreSplit(lines[1..]);
      assert [first] + lines[1..] == lines;
    }
  }

  lemma {:induction false} ShiftedMatch(front: Bytes, rest: Bytes, pattern: Bytes, k: nat)
    ensures MatchAt(front + rest, pattern, |front| + k) <==> MatchAt(rest, pattern, k)
  {
    if k + |pattern| <= |rest| {
      assert (front + rest)[|front| + k..|front| + k + |pattern|] == rest[k..k + |pattern|];
    }
  }

  lemma {:induction false} BlankNeedsTwo(text: Bytes, k: nat)
    ensures MatchAt(text, BLANK, k) ==> text[k] == CR && text[k + 2] == CR
  {
    if MatchAt(text, BLANK, k) {
      assert text[k] == text[k..k + 4][0] && text[k + 2] == text[k..k + 4][2];
    }
  }

  /** No blank line stands before the end of a list of lines. */
  lemma {:induction false} NoBlankWithin(lines: seq<Bytes>, after: Bytes, k: nat)
    requires lines != [] && forall i :: 0 <= i < |lines| ==> IsLine(lines[i])
    requires k < |JoinLines(lines)|
    ensures !MatchAt(JoinLines(lines) + after, BLANK, k)
    decreases |lines|
  {
    var first := lines[0];
    assert IsLine(first);
    if |lines| == 1 {
      NoLineEnd(first, after, k);
    } else {
      assert IsLine(lines[1]);
      var rest := JoinLines(lines[1..]);
      var text, tail := JoinLines(lines) + after, rest + after;
      assert text == first + (CRLF + tail) && text == (first + CRLF) + tail;
      assert rest != [] && tail[0] == lines[1][0];
      if k < |first| {
        NoLineEnd(first, CRLF + tail, k);
      } else if k < |first| + 2 {
        BlankIsNotHere(first, tail, k);
      } else {
        NoBlankWithin(lines[1..], after, k - |first| - 2);
        ShiftedMatch(first + CRLF, tail, BLANK, k - |first| - 2);
      }
    }
  }

  lemma {:induction false} BlankIsNotHere(first: Bytes, tail: Bytes, k: nat)
    requires tail != [] && tail[0] != CR && |first| <= k < |first| + 2
    ensures !MatchAt(first + CRLF + tail, BLANK, k)
  {
    var text := first + CRLF + tail;
    assert text[|first| + 1] == LF && text[|first| + 2] == tail[0];
    BlankNeedsTwo(text, k);
  }

  /** Where a head ends is where its blank line is. */
  lemma {:induction false} HeadEndIsFound(lines: seq<Bytes>, more: Bytes)
    requires lines != [] && forall i :: 0 <= i < |lines| ==> IsLine(lines[i])
    ensures Find(JoinLines(lines) + BLANK + more, BLANK, 0) == Some(|JoinLines(lines)|)
  {
    var joined := JoinLines(lines);
    var text := joined + (BLANK + more);
    Associates(joined, BLANK, more);
    forall k | 0 <= k < |joined| ensures !MatchAt(text, BLANK, k) {
      NoBlankWithin(lines, BLANK + more, k);
    }
    assert MatchAt(text, BLANK, |joined|);
  }

  /** Whether the first line that is a `Host` line stands at `at`. */
  predicate HostStandsAt(lines: seq<Bytes>, at: int) {
    0 <= at < |lines| && HostLine(lines[at]).Some? && forall i :: 0 <= i < at ==> HostLine(lines[i]).None?
  }

  lemma {:induction false} FirstHostIs(lines: seq<Bytes>)
    ensures forall at :: HostStandsAt(lines, at) ==>
      FirstHost(lines) == HostName(WithoutPort(HostLine(lines[at]).value))
    ensures (forall i :: 0 <= i < |lines| ==> HostLine(lines[i]).None?) ==> FirstHost(lines).None?
    decreases |lines|
  {
    if lines != [] && HostLine(lines[0]).None? {
      FirstHostIs(lines[1..]);
      forall at | HostStandsAt(lines, at) ensures HostStandsAt(lines[1..], at - 1) && lines[1..][at - 1] == lines[at] {
        assert at > 0;
      }
    }
  }

  /**
   Reading undoes writing: of every request head of a request line and header
   lines that fits the bound, the reader gives the host of the first line that is a
   `Host` line, whatever stands around it and whatever the body is; and without one
   it gives none.
   */
  lemma {:induction false} RequestIsRead(requestLine: Bytes, lines: seq<Bytes>, more: Bytes)
    requires IsLine(requestLine) && forall i :: 0 <= i < |lines| ==> IsLine(lines[i])
    requires |JoinLines([requestLine] + lines)| + |BLANK| <= MAX_HTTP_HEAD
    ensures var read := RequestHost(JoinLines([requestLine] + lines) + BLANK + more);
      && (forall at :: HostStandsAt(lines, at) ==> read == Read(HostName(WithoutPort(HostLine(lines[at]).value))))
      && ((forall i :: 0 <= i < |lines| ==> HostLine(lines[i]).None?) ==> read == Read(None))
  {
    hide HostLine, HostName;
    FirstHostIs(lines);
    var all := [requestLine] + lines;
    var joined := JoinLines(all);
    var bytes := joined + BLANK + more;
    var cut := Head(bytes)[|joined| + |BLANK|..];
    assert Head(bytes) == joined + BLANK + cut;
    HeadEndIsFound(all, cut);
    assert Head(bytes)[..|joined|] == joined;
    LinesAreSplit(all);
    assert all[1..] == lines;
  }

  predicate Spaces(s: Bytes) {
    forall i :: 0 <= i < |s| ==> IsSpace(s[i])
  }

  predicate Trimmed(s: Bytes) {
    s != [] ==> !IsSpace(s[0]) && !IsSpace(s[|s| - 1])
  }

  lemma {:induction false} SpaceIsTrimmedLeft(space: Bytes, s: Bytes)
    requires Spaces(space) && (s != [] ==> !IsSpace(s[0]))
    ensures TrimLeft(space + s) == s
    decreases |space|
  {
    if space == [] {
      assert space + s == s;
    } else {
      assert (space + s)[1..] == space[1..] + s;
      SpaceIsTrimmedLeft(space[1..], s);
    }
  }

  lemma {:induction false} SpaceIsTrimmedRight(s: Bytes, space: Bytes)
    requires Spaces(space) && (s != [] ==> !IsSpace(s[|s| - 1]))
    ensures TrimRight(s + space) == s
    decreases |space|
  {
    if space == [] {
      assert s + space == s;
    } else {
      assert (s + space)[..|s + space| - 1] == s + space[..|space| - 1];
      SpaceIsTrimmedRight(s, space[..|space| - 1]);
    }
  }

  /** A `Host` line gives the value it was written with, in whatever case and with whatever space around it. */
  lemma {:induction false} HostLineIsRead(field: Bytes, left: Bytes, value: Bytes, right: Bytes)
    requires |field| == |HOST_FIELD| && LowerCase(field) == HOST_FIELD
    requires Spaces(left) && Spaces(right) && value != [] && Trimmed(value) && CR !in value && LF !in value
    ensures HostLine(field + left + value + right) == Some(value)
  {
    var line := field + left + value + right;
    assert line[..|HOST_FIELD|] == field;
    assert line[|HOST_FIELD|..] == left + (value + right);
    SpaceIsTrimmedLeft(left, value + right);
    SpaceIsTrimmedRight(value, right);
  }

  lemma {:induction false} DigitsCounted(front: Bytes, digits: Bytes)
    requires forall i :: 0 <= i < |digits| ==> 0x30 <= digits[i] <= 0x39
    requires front != [] ==> !(0x30 <= front[|front| - 1] <= 0x39)
    ensures Digits(front + digits) == |digits|
    decreases |digits|
  {
    if digits == [] {
      assert front + digits == front;
    } else {
      assert (front + digits)[..|front + digits| - 1] == front + digits[..|digits| - 1];
      DigitsCounted(front, digits[..|digits| - 1]);
    }
  }

  /** A port is cut off a host, and nothing is cut off a host without one. */
  lemma {:induction false} PortIsCut(host: Bytes, digits: Bytes)
    requires forall i :: 0 <= i < |digits| ==> 0x30 <= digits[i] <= 0x39
    ensures digits != [] ==> WithoutPort(host + [COLON] + digits) == host
    ensures COLON !in host ==> WithoutPort(host) == host
  {
    DigitsCounted(host + [COLON], digits);
    var all := host + [COLON] + digits;
    assert all[..|host|] == host && all[|host|] == COLON;
  }
}
