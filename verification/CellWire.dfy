/**
 Host names and the DNS messages that ask for them, byte for byte. Every reader is
 total, since every byte is the build's own.
 */
module CellWire {
  import opened Prelude

  // ----------------------------------------------------------------- host names

  const DOT: Byte := 0x2e
  const DASH: Byte := 0x2d
  const MAX_NAME := 253

  function Lower(b: Byte): Byte {
    if 0x41 <= b <= 0x5a then b + 0x20 else b
  }

  function LowerCase(s: Bytes): (r: Bytes)
    ensures |r| == |s| && forall i :: 0 <= i < |s| ==> r[i] == Lower(s[i])
  {
    seq(|s|, i requires 0 <= i < |s| => Lower(s[i]))
  }

  predicate NameByte(b: Byte) {
    0x61 <= b <= 0x7a || 0x30 <= b <= 0x39 || b == 0x5f
  }

  /** A letter, a digit or an underscore at either end, dashes allowed between. */
  predicate IsLabel(s: Bytes) {
    && s != []
    && NameByte(s[0]) && NameByte(s[|s| - 1])
    && forall i :: 0 <= i < |s| ==> NameByte(s[i]) || s[i] == DASH
  }

  /** Labels with a dot between each two. */
  predicate IsName(s: Bytes) {
    var dot := FindByte(s, DOT, 0);
    if dot == |s| then IsLabel(s) else IsLabel(s[..dot]) && IsName(s[dot + 1..])
  }

  /** Where a byte first stands at or after a position; the end when it does not. */
  function FindByte(s: Bytes, b: Byte, start: nat): (i: nat)
    requires start <= |s|
    ensures start <= i <= |s|
    ensures i < |s| ==> s[i] == b
    ensures forall k :: start <= k < i ==> s[k] != b
    decreases |s| - start
  {
    if start == |s| || s[start] == b then start else FindByte(s, b, start + 1)
  }

  function HostName(raw: Bytes): (name: Option<Bytes>)
  {
    var lower := LowerCase(raw);
    var name := if lower != [] && lower[|lower| - 1] == DOT then lower[..|lower| - 1] else lower;
    if name == [] || |name| > MAX_NAME || !IsName(name) then None else Some(name)
  }

  lemma {:induction false} NameBytes(s: Bytes)
    requires IsName(s)
    ensures s != [] && s[|s| - 1] != DOT
    ensures forall i :: 0 <= i < |s| ==> NameByte(s[i]) || s[i] == DASH || s[i] == DOT
    decreases |s|
  {
    var dot := FindByte(s, DOT, 0);
    if dot < |s| {
      NameBytes(s[dot + 1..]);
      assert forall i :: 0 <= i < dot ==> s[i] == s[..dot][i];
      assert forall i :: dot < i < |s| ==> s[i] == s[dot + 1..][i - dot - 1];
    }
  }

  /**
   A host name is in its one form: lower case, bounded, of letters, digits, dots and
   dashes alone, and left alone when it is read again.
   */
  lemma {:induction false} HostNameIsCanonical(raw: Bytes)
    requires HostName(raw).Some?
    ensures var name := HostName(raw).value;
      && 0 < |name| <= MAX_NAME
      && (forall i :: 0 <= i < |name| ==> NameByte(name[i]) || name[i] == DASH || name[i] == DOT)
      && HostName(name) == Some(name)
  {
    hide IsName;
    var name := HostName(raw).value;
    NameBytes(name);
    assert LowerCase(name) == name;
  }

  // ------------------------------------------------------------------ DNS

  const DNS_HEADER := 12
  const MAX_LABEL := 63

  datatype DnsQuestion = DnsQuestion(id: nat, name: Option<Bytes>, kind: nat, question: Bytes, recursionDesired: bool)

  datatype Answer = Address(octets: Bytes) | Empty | NxDomain

  function JoinDots(labels: seq<Bytes>): Bytes {
    if labels == [] then []
    else if |labels| == 1 then labels[0]
    else labels[0] + [DOT] + JoinDots(labels[1..])
  }

  lemma {:induction false} FirstDot(first: Bytes, rest: Bytes)
    requires DOT !in first
    ensures FindByte(first, DOT, 0) == |first|
    ensures var s := first + [DOT] + rest;
      FindByte(s, DOT, 0) == |first| && s[..|first|] == first && s[|first| + 1..] == rest
  {
    var s := first + [DOT] + rest;
    assert forall i :: 0 <= i < |first| ==> s[i] == first[i];
    assert s[|first|] == DOT;
  }

  lemma {:induction false} FirstLabelFirst(first: Bytes, rest: Bytes)
    requires DOT !in first
    ensures IsName(first) <==> IsLabel(first)
    ensures IsName(first + [DOT] + rest) <==> IsLabel(first) && IsName(rest)
  {
    hide FindByte, IsLabel;
    FirstDot(first, rest);
  }

  /** Labels joined are a name exactly when each of them is a label. */
  lemma {:induction false} JoinedIsName(labels: seq<Bytes>)
    requires labels != [] && forall i :: 0 <= i < |labels| ==> DOT !in labels[i]
    ensures IsName(JoinDots(labels)) <==> forall i :: 0 <= i < |labels| ==> IsLabel(labels[i])
    decreases |labels|
  {
    hide IsName, IsLabel;
    if |labels| == 1 {
      FirstLabelFirst(labels[0], []);
    } else {
      FirstLabelFirst(labels[0], JoinDots(labels[1..]));
      JoinedIsName(labels[1..]);
      assert labels == [labels[0]] + labels[1..];
    }
  }

  datatype Labels = Labels(labels: seq<Bytes>, end: nat)

  function LabelsAt(m: Bytes, at: nat): (r: Option<Labels>)
    ensures r.Some? ==> at <= r.value.end < |m|
    decreases |m| - at
  {
    if at >= |m| then None
    else if m[at] == 0 then Some(Labels([], at))
    else
      var end: nat := at + 1 + m[at] as int;
      if m[at] as int > MAX_LABEL || end > |m| then None
      else PutFirst(m[at + 1..end], LabelsAt(m, end))
  }

  function PutFirst(first: Bytes, rest: Option<Labels>): Option<Labels> {
    if rest.None? then None else Some(Labels([first] + rest.value.labels, rest.value.end))
  }

  /** A standard query: no response bit and operation code zero. */
  predicate IsQuery(flags: nat) {
    flags / 0x8000 % 2 == 0 && flags / 0x800 % 16 == 0
  }

  predicate WantsRecursion(flags: nat) {
    flags / 0x100 % 2 == 1
  }

  function Question(m: Bytes): Option<DnsQuestion> {
    if |m| < DNS_HEADER || !IsQuery(ReadU16(m, 2)) || ReadU16(m, 4) != 1 then None
    else
      var labels := LabelsAt(m, DNS_HEADER);
      if labels.None? || labels.value.end + 5 > |m| then None
      else
        var end := labels.value.end;
        Some(DnsQuestion(
          ReadU16(m, 0),
          HostName(JoinDots(labels.value.labels)),
          ReadU16(m, end + 1),
          m[DNS_HEADER..end + 5],
          WantsRecursion(ReadU16(m, 2))))
  }

  method ReadDnsQuestion(m: Bytes) returns (q: Option<DnsQuestion>)
    ensures q == Question(m)
  {
    hide ReadU16, IsQuery, WantsRecursion, HostName, JoinDots;
    if |m| < DNS_HEADER {
      return None;
    }
    var flags := ReadU16(m, 2);
    if !IsQuery(flags) || ReadU16(m, 4) != 1 {
      return None;
    }
    var labels: seq<Bytes> := [];
    var at := DNS_HEADER;
    ghost var whole := LabelsAt(m, at);
    assert whole.Some? ==> [] + whole.value.labels == whole.value.labels;
    while at >= |m| || m[at] != 0
      invariant whole == Continue(labels, LabelsAt(m, at))
      decreases |m| - at
    {
      if at >= |m| || m[at] as int > MAX_LABEL {
        return None;
      }
      var end: nat := at + 1 + m[at] as int;
      if end > |m| {
        return None;
      }
      ContinueOneMore(labels, m[at + 1..end], LabelsAt(m, end));
      labels := labels + [m[at + 1..end]];
      at := end;
    }
    assert labels + [] == labels;
    var end := at + 5;
    if end > |m| {
      return None;
    }
    return Some(DnsQuestion(ReadU16(m, 0), HostName(JoinDots(labels)), ReadU16(m, at + 1), m[DNS_HEADER..end],
      WantsRecursion(flags)));
  }

  function Continue(seen: seq<Bytes>, rest: Option<Labels>): Option<Labels> {
    if rest.None? then None else Some(Labels(seen + rest.value.labels, rest.value.end))
  }

  lemma {:induction false} ContinueOneMore(seen: seq<Bytes>, next: Bytes, rest: Option<Labels>)
    ensures Continue(seen, PutFirst(next, rest)) == Continue(seen + [next], rest)
  {
    if rest.Some? {
      assert seen + ([next] + rest.value.labels) == seen + [next] + rest.value.labels;
    }
  }

  function ReplyFlags(recursionDesired: bool, answer: Answer): nat {
    0x8080 + (if recursionDesired then 0x100 else 0) + (if answer.NxDomain? then 3 else 0)
  }

  function ReplyHeader(q: DnsQuestion, answer: Answer): (h: Bytes)
    requires q.id < 0x1_0000
    ensures |h| == DNS_HEADER
  {
    U16(q.id) + U16(ReplyFlags(q.recursionDesired, answer)) + U16(1) + U16(if answer.Address? then 1 else 0)
      + [0, 0, 0, 0]
  }

  /** A reference back to the question's name, an address of class IN that is never cached, and its bytes. */
  const ANSWER_RECORD: Bytes := [0xc0, 0x0c, 0, 1, 0, 1, 0, 0, 0, 0, 0, 4]

  function Reply(q: DnsQuestion, answer: Answer): Bytes
    requires q.id < 0x1_0000
  {
    ReplyHeader(q, answer) + q.question + if answer.Address? then ANSWER_RECORD + answer.octets else []
  }

  method WriteU16(buffer: array<Byte>, at: nat, n: nat)
    requires at + 2 <= buffer.Length && n < 0x1_0000
    modifies buffer
    ensures buffer[..] == old(buffer[..])[at := n / 0x100][at + 1 := n % 0x100]
  {
    buffer[at], buffer[at + 1] := n / 0x100, n % 0x100;
  }

  method DnsReply(q: DnsQuestion, answer: Answer) returns (reply: Bytes)
    requires q.id < 0x1_0000
    ensures reply == Reply(q, answer)
  {
    var header := new Byte[DNS_HEADER](_ => 0);
    WriteU16(header, 0, q.id);
    WriteU16(header, 2, ReplyFlags(q.recursionDesired, answer));
    WriteU16(header, 4, 1);
    if !answer.Address? {
      assert header[..] == ReplyHeader(q, answer);
      return header[..] + q.question;
    }
    WriteU16(header, 6, 1);
    assert header[..] == ReplyHeader(q, answer);
    return header[..] + q.question + (ANSWER_RECORD + answer.octets);
  }

  // ------------------------------------------------------ the DNS round trips

  /** Labels as RFC 1035, section 4.1.2, writes them: each after its length, a zero length last. */
  function EncodeLabels(labels: seq<Bytes>): Bytes
    requires LabelSizes(labels)
  {
    if labels == [] then [0] else [|labels[0]|] + labels[0] + EncodeLabels(labels[1..])
  }

  ghost predicate LabelSizes(labels: seq<Bytes>) {
    forall i :: 0 <= i < |labels| ==> 0 < |labels[i]| <= MAX_LABEL
  }

  /** What stands before the rest of a message's tail, by position. */
  lemma {:induction false} TailAt(m: Bytes, at: nat, front: Bytes, rest: Bytes)
    requires at <= |m| && m[at..] == front + rest
    ensures at + |front| <= |m| && m[at..at + |front|] == front && m[at + |front|..] == rest
  {
    var tail := m[at..];
    assert tail[..|front|] == front && tail[|front|..] == rest;
  }

  /** Where a label stands that a tail opens with. */
  lemma {:induction false} LabelStands(m: Bytes, at: nat, first: Bytes, rest: Bytes)
    requires |first| < 0x100 && at <= |m| && m[at..] == [|first|] + first + rest
    ensures at + 1 + |first| <= |m| && m[at] == |first|
    ensures m[at + 1..at + 1 + |first|] == first && m[at + 1 + |first|..] == rest
  {
    Associates([|first|], first, rest);
    TailAt(m, at, [|first|], first + rest);
    TailAt(m, at + 1, first, rest);
    assert m[at] == m[at..at + 1][0];
  }

  lemma {:induction false} OneLabelIsRead(m: Bytes, at: nat, first: Bytes, rest: Bytes)
    requires 0 < |first| <= MAX_LABEL && at <= |m| && m[at..] == [|first|] + first + rest
    ensures at + 1 + |first| <= |m| && m[at + 1 + |first|..] == rest
    ensures LabelsAt(m, at) == PutFirst(first, LabelsAt(m, at + 1 + |first|))
  {
    hide PutFirst;
    LabelStands(m, at, first, rest);
  }

  lemma {:induction false} NoLabelIsRead(m: Bytes, at: nat, after: Bytes)
    requires at <= |m| && m[at..] == [0] + after
    ensures LabelsAt(m, at) == Some(Labels([], at))
  {
    TailAt(m, at, [0], after);
    assert m[at] == m[at..at + 1][0];
  }

  lemma {:induction false} FirstIsPut(labels: seq<Bytes>, end: nat)
    requires labels != []
    ensures PutFirst(labels[0], Some(Labels(labels[1..], end))) == Some(Labels(labels, end))
  {
    assert [labels[0]] + labels[1..] == labels;
  }

  lemma {:induction false} EncodedFirst(labels: seq<Bytes>, after: Bytes)
    requires LabelSizes(labels) && labels != []
    ensures EncodeLabels(labels) + after == [|labels[0]|] + labels[0] + (EncodeLabels(labels[1..]) + after)
    ensures |EncodeLabels(labels)| == 1 + |labels[0]| + |EncodeLabels(labels[1..])|
  {
  }

  lemma {:induction false} LabelsAreRead(m: Bytes, at: nat, labels: seq<Bytes>, after: Bytes)
    requires LabelSizes(labels) && at <= |m| && m[at..] == EncodeLabels(labels) + after
    ensures LabelsAt(m, at) == Some(Labels(labels, at + |EncodeLabels(labels)| - 1))
    decreases |labels|
  {
    hide LabelsAt, PutFirst;
    if labels == [] {
      NoLabelIsRead(m, at, after);
    } else {
      hide EncodeLabels;
      var first, rest := labels[0], EncodeLabels(labels[1..]);
      EncodedFirst(labels, after);
      OneLabelIsRead(m, at, first, rest + after);
      LabelsAreRead(m, at + 1 + |first|, labels[1..], after);
      FirstIsPut(labels, at + |EncodeLabels(labels)| - 1);
    }
  }

  /**
   A query as RFC 1035, sections 4.1.1 and 4.1.2, writes it; `counts` are the three
   counts of the sections after the question, and `after` is those sections.
   */
  function EncodeQuery(id: nat, flags: nat, counts: Bytes, labels: seq<Bytes>, kind: nat, qclass: nat,
      after: Bytes): Bytes
    requires id < 0x1_0000 && flags < 0x1_0000 && |counts| == 6 && LabelSizes(labels) && kind < 0x1_0000
      && qclass < 0x1_0000
  {
    U16(id) + U16(flags) + U16(1) + counts + EncodeQuestion(labels, kind, qclass) + after
  }

  function EncodeQuestion(labels: seq<Bytes>, kind: nat, qclass: nat): Bytes
    requires LabelSizes(labels) && kind < 0x1_0000 && qclass < 0x1_0000
  {
    EncodeLabels(labels) + U16(kind) + U16(qclass)
  }

  lemma {:induction false} HeaderIsRead(a: nat, b: nat, c: nat, counts: Bytes, rest: Bytes)
    requires a < 0x1_0000 && b < 0x1_0000 && c < 0x1_0000 && |counts| == 6
    ensures var m := U16(a) + U16(b) + U16(c) + counts + rest;
      |m| >= DNS_HEADER && ReadU16(m, 0) == a && ReadU16(m, 2) == b && ReadU16(m, 4) == c && m[DNS_HEADER..] == rest
  {
  }

  lemma {:induction false} U16IsRead(m: Bytes, at: nat, n: nat, rest: Bytes)
    requires n < 0x1_0000 && at <= |m| && m[at..] == U16(n) + rest
    ensures at + 2 <= |m| && ReadU16(m, at) == n && m[at + 2..] == rest
  {
    TailAt(m, at, U16(n), rest);
    assert m[at] == m[at..at + 2][0] && m[at + 1] == m[at..at + 2][1];
  }

  lemma {:induction false} FourAssociate(a: Bytes, b: Bytes, c: Bytes, d: Bytes)
    ensures a + b + c + d == a + (b + (c + d))
  {
  }

  lemma {:induction false} QuestionPartsAreRead(m: Bytes, labels: seq<Bytes>, kind: nat, qclass: nat, after: Bytes)
    requires LabelSizes(labels) && kind < 0x1_0000 && qclass < 0x1_0000
    requires |m| >= DNS_HEADER && m[DNS_HEADER..] == EncodeQuestion(labels, kind, qclass) + after
    ensures var end := DNS_HEADER + |EncodeLabels(labels)| - 1;
      && LabelsAt(m, DNS_HEADER) == Some(Labels(labels, end))
      && end + 5 <= |m| && ReadU16(m, end + 1) == kind && m[DNS_HEADER..end + 5] == EncodeQuestion(labels, kind, qclass)
  {
    hide U16, ReadU16, LabelsAt, EncodeLabels;
    var names := EncodeLabels(labels);
    var tail := U16(kind) + (U16(qclass) + after);
    FourAssociate(names, U16(kind), U16(qclass), after);
    LabelsAreRead(m, DNS_HEADER, labels, tail);
    TailAt(m, DNS_HEADER, names, tail);
    U16IsRead(m, DNS_HEADER + |names|, kind, U16(qclass) + after);
    TailAt(m, DNS_HEADER, EncodeQuestion(labels, kind, qclass), after);
  }

  /**
   Reading undoes writing: of every standard query with one question, whatever
   else it carries, the reader gives its id, its name, its type, whether recursion
   is desired, and the question byte for byte.
   */
  lemma {:induction false} QuestionIsRead(id: nat, flags: nat, counts: Bytes, labels: seq<Bytes>, kind: nat,
      qclass: nat, after: Bytes)
    requires id < 0x1_0000 && flags < 0x1_0000 && |counts| == 6 && LabelSizes(labels) && kind < 0x1_0000
      && qclass < 0x1_0000
    ensures Question(EncodeQuery(id, flags, counts, labels, kind, qclass, after))
      == if IsQuery(flags)
         then Some(DnsQuestion(id, HostName(JoinDots(labels)), kind, EncodeQuestion(labels, kind, qclass),
           WantsRecursion(flags)))
         else None
  {
    var question := EncodeQuestion(labels, kind, qclass);
    var m := EncodeQuery(id, flags, counts, labels, kind, qclass, after);
    assert m == U16(id) + U16(flags) + U16(1) + counts + (question + after);
    HeaderIsRead(id, flags, 1, counts, question + after);
    QuestionPartsAreRead(m, labels, kind, qclass, after);
  }

  lemma {:induction false} ReplyFlagsFit(recursionDesired: bool, answer: Answer)
    ensures var flags := ReplyFlags(recursionDesired, answer);
      && flags < 0x1_0000 && !IsQuery(flags)
      && IsQuery(flags - 0x8000) && (WantsRecursion(flags - 0x8000) <==> recursionDesired)
  {
  }

  /** A message with its response bit cleared. */
  function Unanswered(reply: Bytes): Bytes
    requires |reply| > 2 && reply[2] >= 0x80
  {
    reply[2 := reply[2] - 0x80]
  }

  lemma {:induction false} ReplyParts(q: DnsQuestion, answer: Answer)
    requires q.id < 0x1_0000
    ensures Reply(q, answer)
      == U16(q.id) + U16(ReplyFlags(q.recursionDesired, answer)) + U16(1)
        + (U16(if answer.Address? then 1 else 0) + [0, 0, 0, 0])
         + (q.question + if answer.Address? then ANSWER_RECORD + answer.octets else [])
  {
    hide U16, ReplyFlags;
  }

  lemma {:induction false} ClearResponseBit(id: nat, flags: nat, counts: Bytes, rest: Bytes)
    requires id < 0x1_0000 && 0x8000 <= flags < 0x1_0000 && |counts| == 6
    ensures var reply := U16(id) + U16(flags) + U16(1) + counts + rest;
      && reply[2] >= 0x80
      && Unanswered(reply) == U16(id) + U16(flags - 0x8000) + U16(1) + counts + rest
  {
    var reply := U16(id) + U16(flags) + U16(1) + counts + rest;
    assert reply[2] == flags / 0x100 && reply[3] == flags % 0x100;
    assert (flags - 0x8000) / 0x100 == flags / 0x100 - 0x80 && (flags - 0x8000) % 0x100 == flags % 0x100;
  }

  /** No reply is ever read as a question, so a reply sent to the reader is never answered. */
  lemma {:induction false} ReplyIsNoQuestion(q: DnsQuestion, answer: Answer)
    requires q.id < 0x1_0000
    ensures Question(Reply(q, answer)) == None
  {
    hide U16, ReadU16, Reply, ReplyFlags;
    ReplyFlagsFit(q.recursionDesired, answer);
    var rest := q.question + if answer.Address? then ANSWER_RECORD + answer.octets else [];
    var counts := U16(if answer.Address? then 1 else 0) + [0, 0, 0, 0];
    ReplyParts(q, answer);
    HeaderIsRead(q.id, ReplyFlags(q.recursionDesired, answer), 1, counts, rest);
  }

  /** Labels are read from the bytes they stand in and no others. */
  lemma {:induction false} LabelsAreLocal(m: Bytes, other: Bytes, at: nat)
    requires LabelsAt(m, at).Some? && LabelsAt(m, at).value.end < |other|
    requires forall i :: at <= i <= LabelsAt(m, at).value.end ==> m[i] == other[i]
    ensures LabelsAt(other, at) == LabelsAt(m, at)
    decreases |m| - at
  {
    if m[at] != 0 {
      var end: nat := at + 1 + m[at] as int;
      LabelsAreLocal(m, other, end);
      assert m[at + 1..end] == other[at + 1..end];
    }
  }

  lemma {:induction false} SameU16(m: Bytes, other: Bytes, at: nat)
    requires at + 2 <= |m| && at + 2 <= |other| && m[at] == other[at] && m[at + 1] == other[at + 1]
    ensures ReadU16(m, at) == ReadU16(other, at)
  {
  }

  lemma {:induction false} SameQuestion(m: Bytes, other: Bytes)
    requires Question(m).Some? && |other| >= DNS_HEADER
    requires var q := Question(m).value;
      && ReadU16(other, 0) == q.id && ReadU16(other, 4) == 1 && IsQuery(ReadU16(other, 2))
      && (WantsRecursion(ReadU16(other, 2)) <==> q.recursionDesired)
      && DNS_HEADER + |q.question| <= |other| && other[DNS_HEADER..DNS_HEADER + |q.question|] == q.question
    ensures Question(other) == Question(m)
  {
    hide ReadU16, IsQuery, WantsRecursion, HostName, JoinDots;
    var q := Question(m).value;
    var end := LabelsAt(m, DNS_HEADER).value.end;
    forall i | DNS_HEADER <= i < end + 5 ensures other[i] == m[i] {
      assert other[i] == other[DNS_HEADER..DNS_HEADER + |q.question|][i - DNS_HEADER]
        == m[DNS_HEADER..end + 5][i - DNS_HEADER];
    }
    LabelsAreLocal(m, other, DNS_HEADER);
    SameU16(m, other, end + 1);
    hide LabelsAt;
  }

  lemma {:induction false} AskedInU16(m: Bytes)
    ensures Question(m).Some? ==> Question(m).value.id < 0x1_0000
  {
  }

  /** A reply answers the very question it was asked: with its response bit cleared, it reads as that question. */
  lemma {:induction false} ReplyCarriesQuestion(m: Bytes, answer: Answer)
    requires Question(m).Some?
    ensures var q := Question(m).value; var reply := Reply(q, answer);
      |reply| > 2 && reply[2] >= 0x80 && Question(Unanswered(reply)) == Some(q)
  {
    var q := Question(m).value;
    var flags := ReplyFlags(q.recursionDesired, answer);
    AskedInU16(m);
    hide U16, ReadU16, Reply, Question, ReplyFlags, IsQuery, WantsRecursion;
    ReplyFlagsFit(q.recursionDesired, answer);
    var counts := U16(if answer.Address? then 1 else 0) + [0, 0, 0, 0];
    var record := if answer.Address? then ANSWER_RECORD + answer.octets else [];
    var other := U16(q.id) + U16(flags - 0x8000) + U16(1) + counts + (q.question + record);
    ReplyParts(q, answer);
    ClearResponseBit(q.id, flags, counts, q.question + record);
    HeaderIsRead(q.id, flags - 0x8000, 1, counts, q.question + record);
    assert |other| >= DNS_HEADER && other[DNS_HEADER..] == q.question + record;
    TailAt(other, DNS_HEADER, q.question, record);
    SameQuestion(m, other);
  }
}
