/**
 What the cell's readers read, in terms of the bytes alone, and both ways round: a
 reader names a host exactly when the bytes are of the form their format gives.
 */
module CellMeaning {
  import opened Prelude
  import opened CellWire
  import opened CellPeek

  // ------------------------------------------------------------------ host names

  predicate NameUnit(b: Byte) {
    ('a' as int <= b <= 'z' as int) || ('0' as int <= b <= '9' as int) || b == '_' as int
  }

  /** A label: letters, digits, underscores and dashes, no dash first or last. */
  predicate LabelBytes(s: Bytes) {
    && s != [] && s[0] != DASH && s[|s| - 1] != DASH
    && forall i :: 0 <= i < |s| ==> NameUnit(s[i]) || s[i] == '-' as int
  }

  ghost predicate AreLabels(labels: seq<Bytes>) {
    labels != [] && forall i :: 0 <= i < |labels| ==> LabelBytes(labels[i])
  }

  /** A name is labels with a dot between each two. */
  ghost predicate IsJoined(name: Bytes) {
    exists labels :: AreLabels(labels) && JoinDots(labels) == name
  }

  lemma {:induction false} LabelIs(s: Bytes)
    ensures IsLabel(s) <==> LabelBytes(s)
    ensures IsLabel(s) ==> DOT !in s
  {
    assert forall b: Byte :: NameUnit(b) <==> NameByte(b);
  }

  lemma {:induction false} NameIsJoined(name: Bytes)
    ensures IsName(name) ==> IsJoined(name)
    decreases |name|
  {
    var dot := FindByte(name, DOT, 0);
    if IsName(name) {
      LabelIs(name[..dot]);
      if dot == |name| {
        assert name[..dot] == name;
        assert AreLabels([name]) && JoinDots([name]) == name;
      } else {
        NameIsJoined(name[dot + 1..]);
        var rest :| AreLabels(rest) && JoinDots(rest) == name[dot + 1..];
        var labels := [name[..dot]] + rest;
        assert labels[1..] == rest && name == name[..dot] + [DOT] + name[dot + 1..];
        assert AreLabels(labels) && JoinDots(labels) == name;
      }
    }
  }

  lemma {:induction false} JoinedIsAName(name: Bytes)
    ensures IsJoined(name) ==> IsName(name)
  {
    if IsJoined(name) {
      var labels :| AreLabels(labels) && JoinDots(labels) == name;
      forall i | 0 <= i < |labels| ensures IsLabel(labels[i]) && DOT !in labels[i] {
        LabelIs(labels[i]);
      }
      JoinedIsName(labels);
    }
  }

  function Undotted(lower: Bytes): Bytes {
    if lower != [] && lower[|lower| - 1] == DOT then lower[..|lower| - 1] else lower
  }

  lemma {:induction false} UndottedIs(lower: Bytes, name: Bytes)
    requires name != [] && name[|name| - 1] != DOT
    ensures Undotted(lower) == name <==> lower == name || lower == name + [DOT]
  {
    if lower != [] && lower[|lower| - 1] == DOT {
      assert lower == lower[..|lower| - 1] + [DOT];
    }
    if lower == name + [DOT] {
      assert lower[|lower| - 1] == DOT && lower[..|lower| - 1] == name;
    }
  }

  /**
   A host name is read exactly from the texts that are it, in any case and with or without
   a dot at the end, when it is labels joined by dots and no longer than 253 bytes.
   */
  lemma {:induction false} HostNameIsRead(raw: Bytes, name: Bytes)
    ensures HostName(raw) == Some(name) <==>
      && (LowerCase(raw) == name || LowerCase(raw) == name + [DOT])
      && |name| <= 253 && IsJoined(name)
  {
    NameIsJoined(name);
    JoinedIsAName(name);
    assert HostName(raw).Some? ==> HostName(raw).value == Undotted(LowerCase(raw)) && IsName(HostName(raw).value);
    if IsName(name) {
      NameBytes(name);
      UndottedIs(LowerCase(raw), name);
    }
    hide IsName, IsJoined, LowerCase;
  }

  // ------------------------------------------------------------------------- DNS

  lemma {:induction false} LabelsAreWritten(m: Bytes, at: nat)
    requires LabelsAt(m, at).Some?
    ensures var labels := LabelsAt(m, at).value;
      LabelSizes(labels.labels) && m[at..labels.end + 1] == EncodeLabels(labels.labels)
    decreases |m| - at
  {
    var labels := LabelsAt(m, at).value;
    if m[at] == 0 {
      assert m[at..at + 1] == [0];
    } else {
      var end: nat := at + 1 + m[at] as int;
      var rest := LabelsAt(m, end).value;
      LabelsAreWritten(m, end);
      LabelAndRest(m, at, end, labels.end + 1);
      assert labels.labels == [m[at + 1..end]] + rest.labels && labels.labels[1..] == rest.labels;
      hide LabelsAt;
    }
  }

  lemma {:induction false} LabelAndRest(m: Bytes, at: nat, end: nat, last: nat)
    requires at < end <= last <= |m|
    ensures m[at..last] == [m[at]] + m[at + 1..end] + m[end..last]
  {
  }

  lemma {:induction false} U16IsWritten(m: Bytes, at: nat)
    requires at + 2 <= |m|
    ensures m[at..at + 2] == U16(ReadU16(m, at))
  {
  }

  /** A query's parts: its header less the count of its questions, its one question, and what follows. */
  datatype Query = Query(id: nat, flags: nat, counts: Bytes, labels: seq<Bytes>, kind: nat, qclass: nat, after: Bytes)

  /** A query of operation code zero whose response bit is clear, its labels each of 1 to 63 bytes. */
  ghost predicate Standard(q: Query) {
    && q.id < 0x1_0000 && q.flags < 0x0800 && |q.counts| == 6
    && (forall i :: 0 <= i < |q.labels| ==> 1 <= |q.labels[i]| <= 63)
    && q.kind < 0x1_0000 && q.qclass < 0x1_0000
  }

  function QueryBytes(q: Query): Bytes
    requires Standard(q)
  {
    EncodeQuery(q.id, q.flags, q.counts, q.labels, q.kind, q.qclass, q.after)
  }

  /** A message is the query, and what is read of it is what the query asks. */
  ghost predicate Asks(m: Bytes, q: Query, read: DnsQuestion) {
    && Standard(q) && m == QueryBytes(q)
    && read.id == q.id && read.kind == q.kind && read.name == HostName(JoinDots(q.labels))
    && (read.recursionDesired <==> q.flags / 0x100 % 2 == 1)
    && read.question == EncodeLabels(q.labels) + U16(q.kind) + U16(q.qclass)
  }

  lemma {:induction false} FlagsOfQuery(flags: nat)
    requires flags < 0x1_0000
    ensures IsQuery(flags) <==> flags < 0x0800
    ensures WantsRecursion(flags) <==> flags / 0x100 % 2 == 1
  {
  }

  lemma {:induction false} SplitMessage(m: Bytes, end: nat)
    requires 12 <= end && end + 5 <= |m|
    ensures m[12..end + 5] == m[12..end + 1] + m[end + 1..end + 3] + m[end + 3..end + 5]
    ensures m == m[0..2] + m[2..4] + m[4..6] + m[6..12] + m[12..end + 5] + m[end + 5..]
  {
  }

  /** A message whose question's labels end at `end`, taken apart. */
  function QueryAt(m: Bytes, labels: seq<Bytes>, end: nat): Query
    requires 12 <= end && end + 5 <= |m|
  {
    Query(ReadU16(m, 0), ReadU16(m, 2), m[6..12], labels, ReadU16(m, end + 1), ReadU16(m, end + 3), m[end + 5..])
  }

  lemma {:induction false} QuestionIsWritten(m: Bytes, labels: seq<Bytes>, end: nat)
    requires 12 <= end && end + 5 <= |m| && LabelSizes(labels) && m[12..end + 1] == EncodeLabels(labels)
    ensures m[12..end + 5] == EncodeLabels(labels) + U16(ReadU16(m, end + 1)) + U16(ReadU16(m, end + 3))
  {
    U16IsWritten(m, end + 1);
    U16IsWritten(m, end + 3);
    hide U16, ReadU16, EncodeLabels;
    SplitMessage(m, end);
  }

  lemma {:induction false} QueryIsStandard(m: Bytes, labels: seq<Bytes>, end: nat)
    requires 12 <= end && end + 5 <= |m| && LabelSizes(labels) && ReadU16(m, 2) < 0x0800
    ensures Standard(QueryAt(m, labels, end))
  {
    hide ReadU16;
  }

  lemma {:induction false} QueryUnfolds(q: Query)
    requires Standard(q)
    ensures QueryBytes(q) == U16(q.id) + U16(q.flags) + U16(1) + q.counts
      + (EncodeLabels(q.labels) + U16(q.kind) + U16(q.qclass)) + q.after
  {
    hide U16, EncodeLabels;
  }

  lemma {:induction false} QueryIsWritten(m: Bytes, labels: seq<Bytes>, end: nat)
    requires 12 <= end && end + 5 <= |m| && LabelSizes(labels) && m[12..end + 1] == EncodeLabels(labels)
    requires ReadU16(m, 2) < 0x0800 && ReadU16(m, 4) == 1
    ensures Standard(QueryAt(m, labels, end)) && QueryBytes(QueryAt(m, labels, end)) == m
  {
    QuestionIsWritten(m, labels, end);
    QueryIsStandard(m, labels, end);
    U16IsWritten(m, 0);
    U16IsWritten(m, 2);
    U16IsWritten(m, 4);
    hide Standard, LabelSizes, U16, ReadU16, EncodeLabels, QueryBytes;
    QueryUnfolds(QueryAt(m, labels, end));
    SplitMessage(m, end);
  }

  lemma {:induction false} QuestionFields(m: Bytes)
    requires Question(m).Some?
    ensures LabelsAt(m, 12).Some?
    ensures var read, labels := Question(m).value, LabelsAt(m, 12).value;
      && labels.end + 5 <= |m| && IsQuery(ReadU16(m, 2)) && ReadU16(m, 4) == 1
      && read == DnsQuestion(ReadU16(m, 0), HostName(JoinDots(labels.labels)), ReadU16(m, labels.end + 1),
        m[12..labels.end + 5], WantsRecursion(ReadU16(m, 2)))
  {
  }

  /** A message that is read is a query written out. */
  lemma {:induction false} ReadIsWritten(m: Bytes) returns (q: Query)
    requires Question(m).Some?
    ensures Asks(m, q, Question(m).value)
  {
    QuestionFields(m);
    var read := LabelsAt(m, 12).value;
    q := QueryAt(m, read.labels, read.end);
    FlagsOfQuery(ReadU16(m, 2));
    LabelsAreWritten(m, 12);
    hide Question, U16, ReadU16, LabelsAt, EncodeLabels, HostName, JoinDots, IsQuery, WantsRecursion, QueryBytes,
      Standard;
    QuestionIsWritten(m, read.labels, read.end);
    QueryIsWritten(m, read.labels, read.end);
  }

  /**
   A message is read as a question exactly when it is a standard query with one question
   (section 4.1 of RFC 1035), and then as what that question asks.
   */
  lemma {:induction false} QuestionIsAsked(m: Bytes, read: DnsQuestion)
    ensures Question(m) == Some(read) <==> exists q :: Asks(m, q, read)
  {
    if Question(m) == Some(read) {
      var q := ReadIsWritten(m);
    }
    if q :| Asks(m, q, read) {
      FlagsOfQuery(q.flags);
      QuestionIsRead(q.id, q.flags, q.counts, q.labels, q.kind, q.qclass, q.after);
    }
  }

  /**
   A reply's bytes: the header of section 4.1.1 of RFC 1035 with the response and the
   recursion bits, an error code of three for a name there is none of, and counts of one
   question and of as many answers as there are; the question as it was asked; and of an
   address its record by section 4.1.3, which refers back to the question's name and is
   not to be kept.
   */
  lemma {:induction false} ReplyIsLaidOut(q: DnsQuestion, answer: Answer)
    requires q.id < 0x1_0000
    ensures var reply, n := Reply(q, answer), 12 + |q.question|;
      && |reply| >= n && ReadU16(reply, 0) == q.id
      && ReadU16(reply, 2) == 0x8000 + 0x80 + (if q.recursionDesired then 0x100 else 0)
        + (if answer.NxDomain? then 3 else 0)
      && ReadU16(reply, 4) == 1 && ReadU16(reply, 6) == (if answer.Address? then 1 else 0)
      && ReadU16(reply, 8) == 0 && ReadU16(reply, 10) == 0
      && reply[12..n] == q.question
      && reply[n..] == if answer.Address? then [0xc0, 12] + U16(1) + U16(1) + [0, 0, 0, 0] + U16(4) + answer.octets
        else []
  {
    var header := ReplyHeader(q, answer);
    var rest := q.question + if answer.Address? then ANSWER_RECORD + answer.octets else [];
    assert ANSWER_RECORD == [0xc0, 12] + U16(1) + U16(1) + [0, 0, 0, 0] + U16(4);
    assert Reply(q, answer) == header + rest;
    assert forall i :: 0 <= i < 12 ==> Reply(q, answer)[i] == header[i];
  }

  // ------------------------------------------------------------------------ HTTP

  /** A `Host` line taken apart: the field's name and colon in any case, its value, and white space around that. */
  datatype Field = Field(head: Bytes, left: Bytes, value: Bytes, right: Bytes)

  ghost predicate IsHostField(line: Bytes, f: Field) {
    && line == f.head + f.left + f.value + f.right
    && LowerCase(f.head) == ['h' as int, 'o' as int, 's' as int, 't' as int, ':' as int]
    && Spaces(f.left) && Spaces(f.right) && Trimmed(f.value)
  }

  lemma {:induction false} LeftIsTrimmed(s: Bytes) returns (space: Bytes)
    ensures Spaces(space) && s == space + TrimLeft(s)
    ensures TrimLeft(s) != [] ==> !IsSpace(TrimLeft(s)[0])
  {
    if s != [] && IsSpace(s[0]) {
      var rest := LeftIsTrimmed(s[1..]);
      space := [s[0]] + rest;
      assert s == [s[0]] + s[1..];
    } else {
      space := [];
    }
  }

  lemma {:induction false} RightIsTrimmed(s: Bytes) returns (space: Bytes)
    ensures Spaces(space) && s == TrimRight(s) + space
    ensures TrimRight(s) != [] ==> !IsSpace(TrimRight(s)[|TrimRight(s)| - 1]) && TrimRight(s)[0] == s[0]
  {
    if s != [] && IsSpace(s[|s| - 1]) {
      var rest := RightIsTrimmed(s[..|s| - 1]);
      space := rest + [s[|s| - 1]];
      assert s == s[..|s| - 1] + [s[|s| - 1]];
      Associates(TrimRight(s), rest, [s[|s| - 1]]);
      hide TrimRight, IsSpace;
    } else {
      space := [];
    }
  }

  lemma {:induction false} HostLineIsTaken(line: Bytes) returns (f: Field)
    requires HostLine(line).Some?
    ensures IsHostField(line, f) && f.value == HostLine(line).value
  {
    var rest := line[5..];
    var left := LeftIsTrimmed(rest);
    var right := RightIsTrimmed(TrimLeft(rest));
    f := Field(line[..5], left, TrimRight(TrimLeft(rest)), right);
    hide TrimLeft, TrimRight, Spaces, IsSpace, LowerCase;
    assert line == line[..5] + (left + (f.value + right));
    Associates(line[..5], left, f.value + right);
    Associates(line[..5] + left, f.value, right);
  }

  /**
   A header line names a host exactly when its field is `Host`, in any case, and then the
   value is what stands after the colon with the white space around it taken off; a value
   with a line's end in it is none.
   */
  lemma {:induction false} HostLineSays(line: Bytes, value: Bytes)
    requires value != []
    ensures HostLine(line) == Some(value)
      <==> CR !in value && LF !in value && exists f :: IsHostField(line, f) && f.value == value
  {
    if HostLine(line) == Some(value) {
      var f := HostLineIsTaken(line);
    }
    if CR !in value && LF !in value {
      if f :| IsHostField(line, f) && f.value == value {
        HostLineIsRead(f.head, f.left, value, f.right);
      }
    }
  }

  predicate AllDigits(s: Bytes) {
    forall i :: 0 <= i < |s| ==> '0' as int <= s[i] <= '9' as int
  }

  /** A text that ends in a colon and one or more digits. */
  ghost predicate EndsInPort(s: Bytes, host: Bytes) {
    exists digits :: digits != [] && AllDigits(digits) && s == host + [':' as int] + digits
  }

  lemma {:induction false} DigitsEnd(s: Bytes)
    ensures forall i :: |s| - Digits(s) <= i < |s| ==> '0' as int <= s[i] <= '9' as int
  {
    if s != [] && 0x30 <= s[|s| - 1] <= 0x39 {
      DigitsEnd(s[..|s| - 1]);
      assert forall i :: 0 <= i < |s| - 1 ==> s[..|s| - 1][i] == s[i];
    }
  }

  /** A port is cut off exactly where there is one. */
  lemma {:induction false} OnlyAPortIsCut(s: Bytes)
    ensures forall host: Bytes :: EndsInPort(s, host) ==> WithoutPort(s) == host
    ensures (forall host: Bytes :: !EndsInPort(s, host)) ==> WithoutPort(s) == s
  {
    forall host: Bytes | EndsInPort(s, host) ensures WithoutPort(s) == host {
      var digits :| digits != [] && AllDigits(digits) && s == host + [':' as int] + digits;
      PortIsCut(host, digits);
    }
    var n := Digits(s);
    hide Digits;
    if 0 < n < |s| && s[|s| - n - 1] == ':' as int {
      DigitsEnd(s);
      var digits := s[|s| - n..];
      assert forall i :: 0 <= i < |digits| ==> digits[i] == s[|s| - n + i];
      assert AllDigits(digits) && s == s[..|s| - n - 1] + [':' as int] + digits;
      assert EndsInPort(s, s[..|s| - n - 1]);
    }
  }

  /** A head's lines are its text cut at every line end: joined they are the text, and none has a line end in it. */
  lemma {:induction false} LinesAreJoined(text: Bytes)
    ensures JoinLines(SplitLines(text)) == text
    ensures forall i :: 0 <= i < |SplitLines(text)| ==> Find(SplitLines(text)[i], CRLF, 0).None?
    decreases |text|
  {
    var end := Find(text, CRLF, 0);
    if end.Some? {
      var first, rest := text[..end.value], text[end.value + 2..];
      LinesAreJoined(rest);
      assert text == first + CRLF + rest;
      forall k: nat | MatchAt(first, CRLF, k) ensures MatchAt(text, CRLF, k) {
        assert first[k..k + 2] == text[k..k + 2];
      }
    }
  }

  /** A request's head ends in a blank line at `e`, and at none before. */
  predicate EndsAt(bytes: Bytes, e: nat) {
    MatchAt(bytes, BLANK, e) && forall k: nat :: k < e ==> !MatchAt(bytes, BLANK, k)
  }

  lemma {:induction false} HeadMatches(bytes: Bytes, k: nat)
    ensures MatchAt(Head(bytes), BLANK, k) <==> MatchAt(bytes, BLANK, k) && k + 4 <= |Head(bytes)|
  {
    assert k + 4 <= |Head(bytes)| ==> Head(bytes)[k..k + 4] == bytes[k..k + 4];
  }

  lemma {:induction false} HeadEndsAt(bytes: Bytes, e: nat)
    requires EndsAt(bytes, e)
    ensures Find(Head(bytes), BLANK, 0) == if e + 4 <= 8192 then Some(e) else None
  {
    var head := Head(bytes);
    forall k: nat ensures MatchAt(head, BLANK, k) <==> MatchAt(bytes, BLANK, k) && k + 4 <= |head| {
      HeadMatches(bytes, k);
    }
  }

  lemma {:induction false} BlankIsFirst(bytes: Bytes, e: nat)
    requires Find(Head(bytes), BLANK, 0) == Some(e)
    ensures EndsAt(bytes, e) && e + 4 <= 8192
  {
    var head := Head(bytes);
    assert MatchAt(head, BLANK, e);
    forall k: nat | k <= e ensures MatchAt(bytes, BLANK, k) <==> MatchAt(head, BLANK, k) {
      HeadMatches(bytes, k);
    }
  }

  /**
   A request whose head ends within 8192 bytes names the host of its first `Host` line
   after the first line, less its port, and none where it has no such line.
   */
  lemma {:induction false} RequestNames(bytes: Bytes, e: nat)
    requires EndsAt(bytes, e) && e + 4 <= 8192
    ensures |SplitLines(bytes[..e])| > 0
    ensures var lines := SplitLines(bytes[..e])[1..];
      && (forall at :: HostStandsAt(lines, at) ==>
           RequestHost(bytes) == Read(HostName(WithoutPort(HostLine(lines[at]).value))))
      && ((forall i :: 0 <= i < |lines| ==> HostLine(lines[i]).None?) ==> RequestHost(bytes) == Read(None))
  {
    HeadEndsAt(bytes, e);
    assert Head(bytes)[..e] == bytes[..e];
    FirstHostIs(SplitLines(bytes[..e])[1..]);
    hide HostLine, HostName, WithoutPort, SplitLines, Find, EndsAt;
  }

  /** Any other says nothing until it has come to 8192 bytes, and then names none. */
  lemma {:induction false} OthersNameNone(bytes: Bytes)
    requires forall e: nat :: EndsAt(bytes, e) ==> e + 4 > 8192
    ensures RequestHost(bytes) == if |bytes| >= 8192 then Read(None) else More
  {
    hide Find, EndsAt, FirstHost, SplitLines;
    if Find(Head(bytes), BLANK, 0).Some? {
      BlankIsFirst(bytes, Find(Head(bytes), BLANK, 0).value);
    }
  }

  // ------------------------------------------------------------------------- TLS

  /** A client hello up to its first server_name extension, taken apart. */
  datatype HelloParts = HelloParts(fixed: Bytes, session: Bytes, suites: Bytes, compression: Bytes, listLength: nat,
      before: seq<Extension>, body: Bytes, rest: Bytes)

  ghost predicate OthersFit(before: seq<Extension>) {
    forall i :: 0 <= i < |before| ==> Fits(before[i]) && before[i].kind != 0
  }

  ghost predicate PartsFit(p: HelloParts) {
    && |p.fixed| == 38 && p.fixed[0] == 1
    && |p.session| < 0x100 && |p.suites| < 0x1_0000 && |p.compression| < 0x100 && p.listLength < 0x1_0000
    && OthersFit(p.before) && |p.body| < 0x1_0000
    && |EncodeExtensions(p.before)| + 4 <= p.listLength
  }

  /** The bytes of a hello from its list of extensions on, and from each field before that. */
  function FromList(p: HelloParts): Bytes
    requires PartsFit(p)
  {
    EncodeExtensions(p.before) + (EncodeExtension(Extension(0, p.body)) + p.rest)
  }

  function FromLength(p: HelloParts): Bytes
    requires PartsFit(p)
  {
    U16(p.listLength) + FromList(p)
  }

  function FromCompression(p: HelloParts): Bytes
    requires PartsFit(p)
  {
    Sized(p.compression, false) + FromLength(p)
  }

  function FromSuites(p: HelloParts): Bytes
    requires PartsFit(p)
  {
    Sized(p.suites, true) + FromCompression(p)
  }

  function FromSession(p: HelloParts): Bytes
    requires PartsFit(p)
  {
    Sized(p.session, false) + FromSuites(p)
  }

  function HelloBytes(p: HelloParts): Bytes
    requires PartsFit(p)
  {
    p.fixed + FromSession(p)
  }

  /** A server_name extension whose first entry is a host name, and which host it is. */
  ghost predicate NamesHost(body: Bytes, name: Bytes) {
    exists size, raw, others :: NamesAs(body, name, size, raw, others)
  }

  predicate NamesAs(body: Bytes, name: Bytes, size: Bytes, raw: Bytes, others: Bytes) {
    |size| == 2 && |raw| < 0x1_0000 && body == size + [0] + U16(|raw|) + raw + others && HostName(raw) == Some(name)
  }

  lemma {:induction false} NameInSays(body: Bytes, name: Bytes)
    ensures NameIn(body) == Some(name) <==> NamesHost(body, name)
  {
    hide HostName;
    if NameIn(body) == Some(name) {
      var n := ReadU16(body, 3);
      U16IsWritten(body, 3);
      var raw := body[5..5 + n];
      assert body == body[..2] + [0] + U16(|raw|) + raw + body[5 + n..];
      assert NamesAs(body, name, body[..2], raw, body[5 + n..]);
    }
    if size, raw, others :| NamesAs(body, name, size, raw, others) {
      var tail := U16(|raw|) + (raw + others);
      assert body == size + [0] + tail && body[3..] == tail && body[2] == 0;
      U16IsRead(body, 3, |raw|, raw + others);
      TailAt(body, 5, raw, others);
    }
  }

  lemma {:induction false} ExtensionIsWritten(record: Bytes, at: nat)
    requires at + 4 <= |record| && at + 4 + ReadU16(record, at + 2) <= |record|
    ensures var e := Extension(ReadU16(record, at), record[at + 4..at + 4 + ReadU16(record, at + 2)]);
      Fits(e) && record[at..] == EncodeExtension(e) + record[at + 4 + |e.body|..]
  {
    var n := ReadU16(record, at + 2);
    U16IsWritten(record, at);
    U16IsWritten(record, at + 2);
    hide U16, ReadU16;
    assert record[at..] == record[at..at + 2] + record[at + 2..at + 4] + record[at + 4..at + 4 + n]
      + record[at + 4 + n..];
  }

  lemma {:induction false} ListIsWritten(record: Bytes, at: nat, end: nat, name: Bytes)
    returns (before: seq<Extension>, body: Bytes, rest: Bytes)
    requires at <= |record| && end <= |record| && NameFrom(record, at, end) == Some(name)
    ensures OthersFit(before) && |body| < 0x1_0000 && at + |EncodeExtensions(before)| + 4 <= end
    ensures NameIn(body) == Some(name)
    ensures record[at..] == EncodeExtensions(before) + (EncodeExtension(Extension(0, body)) + rest)
    decreases |record| - at
  {
    hide NameIn;
    var n := ReadU16(record, at + 2);
    var next := at + 4 + n;
    ExtensionIsWritten(record, at);
    if ReadU16(record, at) == 0 {
      before, body, rest := [], record[at + 4..next], record[next..];
      assert EncodeExtensions(before) + (EncodeExtension(Extension(0, body)) + rest)
        == EncodeExtension(Extension(0, body)) + rest;
    } else {
      var first := Extension(ReadU16(record, at), record[at + 4..next]);
      var more;
      more, body, rest := ListIsWritten(record, next, end, name);
      before := [first] + more;
      hide NameFrom, U16, ReadU16;
      assert before[1..] == more;
      Associates(EncodeExtension(first), EncodeExtensions(more), EncodeExtension(Extension(0, body)) + rest);
    }
  }

  lemma {:induction false} ListIsRead(record: Bytes, at: nat, end: nat, before: seq<Extension>, body: Bytes,
      rest: Bytes)
    requires OthersFit(before) && |body| < 0x1_0000
    requires at <= |record| && end <= |record| && at + |EncodeExtensions(before)| + 4 <= end
    requires record[at..] == EncodeExtensions(before) + (EncodeExtension(Extension(0, body)) + rest)
    ensures NameFrom(record, at, end) == NameIn(body)
    decreases |before|
  {
    hide U16, ReadU16, NameIn;
    var tail := EncodeExtension(Extension(0, body)) + rest;
    if before == [] {
      assert record[at..] == tail;
      ExtensionIsRead(record, at, Extension(0, body), rest);
    } else {
      hide NameFrom;
      var first, more := before[0], EncodeExtensions(before[1..]);
      assert |EncodeExtension(first)| == 4 + |first.body|;
      Associates(EncodeExtension(first), more, tail);
      OtherIsSkipped(record, at, end, first, more + tail);
      ListIsRead(record, at + 4 + |first.body|, end, before[1..], body, rest);
    }
  }

  lemma {:induction false} SizedIsWritten(record: Bytes, at: nat, wide: bool) returns (field: Bytes)
    requires at <= |record| && AfterSized(record, at, wide).Some?
    ensures |field| < if wide then 0x1_0000 else 0x100
    ensures record[at..] == Sized(field, wide) + record[AfterSized(record, at, wide).value..]
  {
    var head, next := if wide then 2 else 1, AfterSized(record, at, wide).value;
    field := record[at + head..next];
    if wide {
      U16IsWritten(record, at);
    }
    assert record[at..] == record[at..at + head] + record[at + head..next] + record[next..];
  }

  /** Where the fields of a hello that names a host end. */
  lemma {:induction false} HelloSteps(record: Bytes, name: Bytes) returns (a: nat, b: nat, c: nat)
    requires NameOfHello(record) == Some(name)
    ensures |record| >= 38 && record[0] == 1 && AfterSized(record, 38, false) == Some(a)
    ensures a <= |record| && AfterSized(record, a, true) == Some(b)
    ensures b <= |record| && AfterSized(record, b, false) == Some(c)
    ensures c + 2 <= |record| && NameFrom(record, c + 2, Min(|record|, c + 2 + ReadU16(record, c))) == Some(name)
  {
    hide AfterSized, NameFrom, ReadU16;
    a := AfterSized(record, 38, false).value;
    b := AfterSized(record, a, true).value;
    c := AfterSized(record, b, false).value;
  }

  /** The three sized fields of a hello, cut out of it where they end. */
  ghost predicate CutAt(record: Bytes, p: HelloParts, a: nat, b: nat, c: nat)
    requires |p.session| < 0x100 && |p.suites| < 0x1_0000 && |p.compression| < 0x100
  {
    && 38 <= |record| && a <= |record| && b <= |record| && c <= |record|
    && record[38..] == Sized(p.session, false) + record[a..]
    && record[a..] == Sized(p.suites, true) + record[b..]
    && record[b..] == Sized(p.compression, false) + record[c..]
  }

  lemma {:induction false} FieldsAreCut(record: Bytes, a: nat, b: nat, c: nat, listLength: nat, before: seq<Extension>,
      body: Bytes, rest: Bytes)
    returns (p: HelloParts)
    requires |record| >= 38 && AfterSized(record, 38, false) == Some(a)
    requires a <= |record| && AfterSized(record, a, true) == Some(b)
    requires b <= |record| && AfterSized(record, b, false) == Some(c)
    ensures p == HelloParts(record[..38], p.session, p.suites, p.compression, listLength, before, body, rest)
    ensures |p.session| < 0x100 && |p.suites| < 0x1_0000 && |p.compression| < 0x100 && CutAt(record, p, a, b, c)
  {
    hide AfterSized, Sized;
    var session := SizedIsWritten(record, 38, false);
    var suites := SizedIsWritten(record, a, true);
    var compression := SizedIsWritten(record, b, false);
    p := HelloParts(record[..38], session, suites, compression, listLength, before, body, rest);
  }

  /** The reader's whole path through a hello, written out. */
  lemma {:induction false} HelloIsWritten(record: Bytes, name: Bytes) returns (p: HelloParts)
    requires NameOfHello(record) == Some(name)
    ensures PartsFit(p) && record == HelloBytes(p) && NameIn(p.body) == Some(name)
  {
    var a, b, c := HelloSteps(record, name);
    hide NameOfHello, ReadU16, AfterSized, NameIn, NameFrom, EncodeExtensions, EncodeExtension, OthersFit, CutAt,
      HelloBytes;
    var n := ReadU16(record, c);
    var before, body, rest := ListIsWritten(record, c + 2, Min(|record|, c + 2 + n), name);
    p := FieldsAreCut(record, a, b, c, n, before, body, rest);
    FieldsAreWritten(record, p, a, b, c);
  }

  lemma {:induction false} FieldsAreWritten(record: Bytes, p: HelloParts, a: nat, b: nat, c: nat)
    requires PartsFit(p) && c + 2 <= |record| && CutAt(record, p, a, b, c)
    requires p.fixed == record[..38] && p.listLength == ReadU16(record, c) && record[c + 2..] == FromList(p)
    ensures record == HelloBytes(p)
  {
    LengthIsWritten(record, p, c);
    hide PartsFit, FromLength, Sized;
    assert record == record[..38] + record[38..];
    assert record[b..] == FromCompression(p);
    hide FromCompression;
    assert record[a..] == FromSuites(p);
    hide FromSuites;
    assert record[38..] == FromSession(p);
    hide CutAt, FromSession;
  }

  lemma {:induction false} LengthIsWritten(record: Bytes, p: HelloParts, c: nat)
    requires PartsFit(p) && c + 2 <= |record|
    requires p.listLength == ReadU16(record, c) && record[c + 2..] == FromList(p)
    ensures record[c..] == FromLength(p)
  {
    U16IsWritten(record, c);
    hide U16, ReadU16, PartsFit, FromList;
    assert record[c..] == record[c..c + 2] + record[c + 2..];
  }

  lemma {:induction false} FixedIsRead(p: HelloParts)
    requires PartsFit(p)
    ensures |HelloBytes(p)| >= 38 && HelloBytes(p)[0] == 1 && HelloBytes(p)[38..] == FromSession(p)
  {
    hide FromSession;
    var record := HelloBytes(p);
    TailAt(record, 0, p.fixed, FromSession(p)) by { assert record[0..] == record; }
    assert record[0] == p.fixed[0];
  }

  lemma {:induction false} SizesFit(p: HelloParts)
    requires PartsFit(p)
    ensures |p.session| < 0x100 && |p.suites| < 0x1_0000 && |p.compression| < 0x100
  {
  }

  lemma {:induction false} SessionIsSkipped(p: HelloParts) returns (a: nat)
    requires PartsFit(p)
    ensures |HelloBytes(p)| >= 38 && HelloBytes(p)[0] == 1 && AfterSized(HelloBytes(p), 38, false) == Some(a)
    ensures a <= |HelloBytes(p)| && HelloBytes(p)[a..] == FromSuites(p)
  {
    SizesFit(p);
    FixedIsRead(p);
    hide PartsFit, HelloBytes, Sized, AfterSized, FromSuites;
    SizedIsSkipped(HelloBytes(p), 38, p.session, false, FromSuites(p));
    a := 38 + |Sized(p.session, false)|;
  }

  lemma {:induction false} SuitesAreSkipped(p: HelloParts, record: Bytes, a: nat) returns (b: nat)
    requires PartsFit(p) && a <= |record| && record[a..] == FromSuites(p)
    ensures AfterSized(record, a, true) == Some(b) && b <= |record| && record[b..] == FromCompression(p)
  {
    SizesFit(p);
    hide PartsFit, Sized, AfterSized, FromCompression;
    SizedIsSkipped(record, a, p.suites, true, FromCompression(p));
    b := a + |Sized(p.suites, true)|;
  }

  lemma {:induction false} CompressionIsSkipped(p: HelloParts, record: Bytes, b: nat) returns (c: nat)
    requires PartsFit(p) && b <= |record| && record[b..] == FromCompression(p)
    ensures AfterSized(record, b, false) == Some(c) && c <= |record| && record[c..] == FromLength(p)
  {
    SizesFit(p);
    hide PartsFit, Sized, AfterSized, FromLength;
    SizedIsSkipped(record, b, p.compression, false, FromLength(p));
    c := b + |Sized(p.compression, false)|;
  }

  lemma {:induction false} FieldsAreSkipped(p: HelloParts) returns (c: nat)
    requires PartsFit(p)
    ensures c <= |HelloBytes(p)| && ExtensionsAt(HelloBytes(p)) == Some(c) && HelloBytes(p)[c..] == FromLength(p)
  {
    hide PartsFit, HelloBytes, AfterSized, FromLength, FromCompression, FromSuites, ExtensionsAt;
    var a := SessionIsSkipped(p);
    var b := SuitesAreSkipped(p, HelloBytes(p), a);
    c := CompressionIsSkipped(p, HelloBytes(p), b);
    FieldsEndAt(HelloBytes(p), a, b, c);
  }

  lemma {:induction false} FieldsEndAt(record: Bytes, a: nat, b: nat, c: nat)
    requires |record| >= 38 && record[0] == 1 && AfterSized(record, 38, false) == Some(a)
    requires a <= |record| && AfterSized(record, a, true) == Some(b)
    requires b <= |record| && AfterSized(record, b, false) == Some(c)
    ensures ExtensionsAt(record) == Some(c)
  {
    hide AfterSized;
  }

  lemma {:induction false} NamedFromList(record: Bytes, c: nat)
    requires ExtensionsAt(record) == Some(c) && c + 2 <= |record|
    ensures NameOfHello(record) == NameFrom(record, c + 2, Min(|record|, c + 2 + ReadU16(record, c)))
  {
    hide ExtensionsAt, NameFrom, ReadU16;
  }

  lemma {:induction false} ListFits(p: HelloParts, record: Bytes, c: nat)
    requires PartsFit(p) && c + 2 <= |record| && record[c + 2..] == FromList(p)
    ensures c + 2 + |EncodeExtensions(p.before)| + 4 <= Min(|record|, c + 2 + p.listLength)
  {
    assert |EncodeExtension(Extension(0, p.body))| >= 4;
    assert |record[c + 2..]| == |record| - c - 2;
    hide EncodeExtensions, EncodeExtension;
  }

  lemma {:induction false} LengthIsRead(p: HelloParts, record: Bytes, c: nat)
    requires PartsFit(p) && c <= |record| && record[c..] == FromLength(p)
    ensures c + 2 <= |record| && ReadU16(record, c) == p.listLength && record[c + 2..] == FromList(p)
  {
    hide U16, ReadU16, FromList;
    U16IsRead(record, c, p.listLength, FromList(p));
  }

  lemma {:induction false} WrittenHelloIsRead(p: HelloParts)
    requires PartsFit(p)
    ensures NameOfHello(HelloBytes(p)) == NameIn(p.body)
  {
    hide PartsFit, HelloBytes, ExtensionsAt, ReadU16, FromList, FromLength, NameOfHello, NameFrom, NameIn,
      EncodeExtensions;
    var c := FieldsAreSkipped(p);
    LengthIsRead(p, HelloBytes(p), c);
    NamedFromList(HelloBytes(p), c);
    ListFits(p, HelloBytes(p), c);
    FromListIsRead(p, HelloBytes(p), c + 2, Min(|HelloBytes(p)|, c + 2 + ReadU16(HelloBytes(p), c)));
  }

  lemma {:induction false} FromListIsRead(p: HelloParts, record: Bytes, at: nat, end: nat)
    requires PartsFit(p) && at <= |record| && record[at..] == FromList(p)
    requires end <= |record| && at + |EncodeExtensions(p.before)| + 4 <= end
    ensures NameFrom(record, at, end) == NameIn(p.body)
  {
    hide EncodeExtensions, EncodeExtension, NameIn, NameFrom, OthersFit;
    ListIsRead(record, at, end, p.before, p.body, p.rest);
  }

  /**
   A client hello names a host exactly when it is of the form section 4.1.2 of RFC 8446
   gives as far as its first server_name extension, that extension's first entry is a host
   name by section 3 of RFC 6066, and it is the name read.
   */
  lemma {:induction false} HelloNamesExactly(record: Bytes, name: Bytes)
    ensures NameOfHello(record) == Some(name)
      <==> exists p :: PartsFit(p) && record == HelloBytes(p) && NamesHost(p.body, name)
  {
    hide NameOfHello, HelloBytes, PartsFit, NameIn, NamesHost;
    if NameOfHello(record) == Some(name) {
      var p := HelloIsWritten(record, name);
      NameInSays(p.body, name);
    }
    if p :| PartsFit(p) && record == HelloBytes(p) && NamesHost(p.body, name) {
      WrittenHelloIsRead(p);
      NameInSays(p.body, name);
    }
  }

  /** A record is waited for to its end, when it can still be one of a handshake that a cell carries. */
  ghost predicate MayBecomeARecord(bytes: Bytes) {
    && (bytes == [] || bytes[0] == 0x16)
    && (|bytes| >= 5 ==> |bytes| < 5 + ReadU16(bytes, 3) <= 5 + 16_384 + 256)
  }

  /** And a stream names a host exactly when its first record is a handshake's, whole, and such a hello. */
  lemma {:induction false} StreamNamesExactly(bytes: Bytes)
    ensures ServerName(bytes).More? <==> MayBecomeARecord(bytes)
    ensures forall name :: ServerName(bytes) == Read(Some(name)) <==>
      && |bytes| >= 5 && bytes[0] == 0x16 && ReadU16(bytes, 3) <= 16_384 + 256 && |bytes| >= 5 + ReadU16(bytes, 3)
      && NameOfHello(bytes[5..5 + ReadU16(bytes, 3)]) == Some(name)
  {
    hide NameOfHello;
  }
}
