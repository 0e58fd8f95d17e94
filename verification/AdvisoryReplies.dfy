/**
 The data a sweep's record carries: how a value is embedded between a marker and the
 end of a markup comment, which must not come early, and how it is read back. The
 sweeps themselves are modelled apart.
 */
module AdvisoryReplies {
  import opened Prelude
  import opened JsonText

  // ------------------------------------------------------------ data in a comment

  const MARKER_END := Ascii(" -->")

  function Embed(marker: Text, value: Json): Text {
    marker + Dashed(Print(value, false)) + MARKER_END
  }

  function Embedded(body: Text, marker: Text): Option<Json> {
    match Find(body, marker, 0)
    case None => None
    case Some(start) =>
      match Find(body, MARKER_END, start + |marker|)
      case None => None
      case Some(end) => Parse(body[start + |marker|..end])
  }

  lemma {:induction false} EndsAt(body: Text, k: nat)
    ensures MatchAt(body, MARKER_END, k) ==> k + 4 <= |body| && body[k + 1] == DASH && body[k + 2] == DASH
  {
    if MatchAt(body, MARKER_END, k) {
      assert MARKER_END == [0x20, DASH, DASH, 0x3e];
      assert body[k + 1] == body[k..k + 4][1] && body[k + 2] == body[k..k + 4][2];
    }
  }

  /** Where the units of the middle and the end of a body come from. */
  lemma {:induction false} BodyAt(body: Text, front: Text, data: Text, after: Text, i: nat)
    requires body == front + data + (MARKER_END + after) && |front| <= i < |front| + |data| + 4
    ensures body[i] == if i < |front| + |data| then data[i - |front|] else MARKER_END[i - |front| - |data|]
  {
  }

  lemma {:induction false} NoEndWithin(body: Text, front: Text, data: Text, after: Text, k: nat)
    requires NoTwoDashes(data) && body == front + data + (MARKER_END + after) && |front| <= k < |front| + |data|
    ensures !MatchAt(body, MARKER_END, k)
  {
    hide MatchAt;
    assert MARKER_END[0] == 0x20;
    EndsAt(body, k);
    BodyAt(body, front, data, after, k + 1);
    BodyAt(body, front, data, after, k + 2);
  }

  /** Data with no two dashes in a row does not end the comment it stands in before its own end. */
  lemma {:induction false} NoEarlyEnd(body: Text, front: Text, data: Text, after: Text)
    requires NoTwoDashes(data) && body == front + data + (MARKER_END + after)
    ensures Find(body, MARKER_END, |front|) == Some(|front| + |data|)
  {
    var end := |front| + |data|;
    forall k | |front| <= k < end ensures !MatchAt(body, MARKER_END, k) {
      NoEndWithin(body, front, data, after, k);
    }
    assert body[end..end + 4] == MARKER_END;
    assert MatchAt(body, MARKER_END, end);
  }

  lemma {:induction false} MarkerIsFound(body: Text, before: Text, marker: Text, rest: Text)
    requires body == (before + marker) + rest
    requires forall k :: 0 <= k < |before| ==> !MatchAt(body, marker, k)
    ensures Find(body, marker, 0) == Some(|before|)
  {
    assert body[|before|..|before| + |marker|] == marker;
    assert MatchAt(body, marker, |before|);
  }

  /**
   Reading undoes writing, for every value, whatever stands before the data (so long as
   it is not the marker itself) and after it.
   */
  lemma {:induction false} EmbeddedUndoesEmbed(before: Text, marker: Text, value: Json, after: Text)
    requires ValidJson(value)
    requires forall k :: 0 <= k < |before| ==> !MatchAt(before + Embed(marker, value) + after, marker, k)
    ensures Embedded(before + Embed(marker, value) + after, marker) == Some(value)
  {
    hide Print, Dashed, ValidJson, Parse;
    var data := Dashed(Print(value, false));
    var body := before + Embed(marker, value) + after;
    var front, rest := before + marker, data + (MARKER_END + after);
    assert body == front + rest && body == front + data + (MARKER_END + after);
    MarkerIsFound(body, before, marker, rest);
    DashedHasNoTwoDashes(Print(value, false));
    NoEarlyEnd(body, front, data, after);
    assert body[|front|..|front| + |data|] == data;
    DashedPrint(value);
    ParseUndoesPrint(value, true);
  }

  // ---------------------------------------------------------------- a reply's record

  const REPLY_MARKER := Ascii("<!-- qare:advisory-reply ")

  const COMMENT := Ascii("comment")
  const DISMISSED := Ascii("dismissed")
  const PROMOTED := Ascii("promoted")
  const ID := Ascii("id")
  const ISSUE := Ascii("issue")
  const SCREEN := Ascii("screen")
  const CATEGORY := Ascii("category")
  const SAW := Ascii("saw")
  const ELEMENT := Ascii("element")

  /** A dismissed finding as a record holds it; its element may be anything at all. */
  datatype Dismissed = Dismissed(id: Text, screen: Text, category: Text, saw: Text, element: Option<Json>)

  /** A promoted finding with its issue's number, by the text it prints as. */
  datatype Promoted = Promoted(id: Text, issue: Text)

  /** What a sweep did for one comment. */
  datatype Record = Record(comment: Text, dismissed: seq<Dismissed>, promoted: seq<Promoted>)

  function DismissedJson(d: Dismissed): Json {
    JObj([Member(ID, JStr(d.id)), Member(SCREEN, JStr(d.screen)), Member(CATEGORY, JStr(d.category)),
      Member(SAW, JStr(d.saw))]
         + if d.element.Some? then [Member(ELEMENT, d.element.value)] else [])
  }

  function PromotedJson(p: Promoted): Json {
    JObj([Member(ID, JStr(p.id)), Member(ISSUE, JNum(p.issue))])
  }

  function DismissedItems(list: seq<Dismissed>): (items: seq<Json>)
    ensures |items| == |list| && forall i :: 0 <= i < |list| ==> items[i] == DismissedJson(list[i])
  {
    seq(|list|, i requires 0 <= i < |list| => DismissedJson(list[i]))
  }

  function PromotedItems(list: seq<Promoted>): (items: seq<Json>)
    ensures |items| == |list| && forall i :: 0 <= i < |list| ==> items[i] == PromotedJson(list[i])
  {
    seq(|list|, i requires 0 <= i < |list| => PromotedJson(list[i]))
  }

  /** A record as data: a list it has nothing in is left out. */
  function RecordJson(r: Record): Json {
    JObj([Member(COMMENT, JNum(r.comment))]
         + (if r.dismissed == [] then [] else [Member(DISMISSED, JArr(DismissedItems(r.dismissed)))])
         + (if r.promoted == [] then [] else [Member(PROMOTED, JArr(PromotedItems(r.promoted)))]))
  }

  /** The value under a key: the last one's where a key is repeated. */
  function ValueOf(members: seq<Member>, key: Text): Option<Json> {
    if members == [] then None
    else if members[|members| - 1].key == key then Some(members[|members| - 1].value)
    else ValueOf(members[..|members| - 1], key)
  }

  function TextUnder(j: Json, key: Text): Option<Text> {
    if !j.JObj? then None
    else
      match ValueOf(j.members, key)
      case Some(JStr(text)) => Some(text)
      case _ => None
  }

  function ReadDismissed(j: Json): Option<Dismissed> {
    var id, screen, category, saw := TextUnder(j, ID), TextUnder(j, SCREEN), TextUnder(j, CATEGORY), TextUnder(j, SAW);
    if id.None? || screen.None? || category.None? || saw.None? then None
    else Some(Dismissed(id.value, screen.value, category.value, saw.value, ValueOf(j.members, ELEMENT)))
  }

  function ReadPromoted(j: Json): Option<Promoted> {
    var id := TextUnder(j, ID);
    if id.None? then None
    else
      match ValueOf(j.members, ISSUE)
      case Some(JNum(issue)) => Some(Promoted(id.value, issue))
      case _ => None
  }

  /** Every item read, or none when one cannot be. */
  function ReadAll<T>(items: seq<Json>, read: Json -> Option<T>): Option<seq<T>> {
    if items == [] then Some([])
    else
      var before, last := ReadAll(items[..|items| - 1], read), read(items[|items| - 1]);
      if before.None? || last.None? then None else Some(before.value + [last.value])
  }

  function ReadList<T>(list: Option<Json>, read: Json -> Option<T>): Option<seq<T>> {
    match list
    case None => Some([])
    case Some(JArr(items)) => ReadAll(items, read)
    case _ => None
  }

  function ReadRecord(body: Text): Option<Record> {
    match Embedded(body, REPLY_MARKER)
    case Some(JObj(members)) => RecordOf(members)
    case _ => None
  }

  function RecordOf(members: seq<Member>): Option<Record> {
    match ValueOf(members, COMMENT)
    case Some(JNum(comment)) =>
      var dismissed, promoted := ReadList(ValueOf(members, DISMISSED), ReadDismissed),
        ReadList(ValueOf(members, PROMOTED), ReadPromoted);
      if dismissed.None? || promoted.None? then None else Some(Record(comment, dismissed.value, promoted.value))
    case _ => None
  }

  /** Every item of a list is read by itself, or the list is not read at all. */
  ghost predicate EachRead<T>(list: Option<Json>, read: Json -> Option<T>, got: seq<T>) {
    if list.None? then got == []
    else
      && list.value.JArr? && |got| == |list.value.items|
      && forall i :: 0 <= i < |got| ==> read(list.value.items[i]) == Some(got[i])
  }

  /** A list that is there, and is none, or holds an item that is not read. */
  ghost predicate Unreadable<T>(list: Option<Json>, read: Json -> Option<T>) {
    && list.Some?
    && (!list.value.JArr? || exists i :: 0 <= i < |list.value.items| && read(list.value.items[i]).None?)
  }

  lemma {:induction false} ReadAllReads<T>(items: seq<Json>, read: Json -> Option<T>)
    ensures ReadAll(items, read).None? <==> exists i :: 0 <= i < |items| && read(items[i]).None?
    ensures ReadAll(items, read).Some? ==>
      && |ReadAll(items, read).value| == |items|
      && forall i :: 0 <= i < |items| ==> read(items[i]) == Some(ReadAll(items, read).value[i])
  {
    if items != [] {
      var n := |items| - 1;
      ReadAllReads(items[..n], read);
      assert forall i :: 0 <= i < n ==> items[..n][i] == items[i];
    }
  }

  /**
   A record is read with everything it says or not at all: it needs the number of its comment,
   and neither of its lists may hold anything else than what is dismissed or promoted.
   */
  lemma {:induction false} RecordIsReadWhole(members: seq<Member>)
    ensures var comment := ValueOf(members, COMMENT);
      var dismissed, promoted := ValueOf(members, DISMISSED), ValueOf(members, PROMOTED);
      match RecordOf(members)
      case Some(r) =>
        && comment == Some(JNum(r.comment))
        && EachRead(dismissed, ReadDismissed, r.dismissed) && EachRead(promoted, ReadPromoted, r.promoted)
      case None =>
        || comment.None? || !comment.value.JNum?
        || Unreadable(dismissed, ReadDismissed) || Unreadable(promoted, ReadPromoted)
  {
    var dismissed, promoted := ValueOf(members, DISMISSED), ValueOf(members, PROMOTED);
    if dismissed.Some? && dismissed.value.JArr? {
      ReadAllReads(dismissed.value.items, ReadDismissed);
    }
    if promoted.Some? && promoted.value.JArr? {
      ReadAllReads(promoted.value.items, ReadPromoted);
    }
    hide ReadAll, ReadDismissed, ReadPromoted, ValueOf;
  }

  /** What is read of an entry: the last text under each of its keys, when every one of them has one. */
  lemma {:induction false} EntryIsReadWhole(j: Json)
    ensures match ReadDismissed(j)
      case Some(d) =>
        && j.JObj? && ValueOf(j.members, ID) == Some(JStr(d.id)) && ValueOf(j.members, SCREEN) == Some(JStr(d.screen))
        && ValueOf(j.members, CATEGORY) == Some(JStr(d.category)) && ValueOf(j.members, SAW) == Some(JStr(d.saw))
        && d.element == ValueOf(j.members, ELEMENT)
      case None =>
        !(HasText(j, ID) && HasText(j, SCREEN) && HasText(j, CATEGORY) && HasText(j, SAW))
    ensures match ReadPromoted(j)
      case Some(p) =>
        j.JObj? && ValueOf(j.members, ID) == Some(JStr(p.id)) && ValueOf(j.members, ISSUE) == Some(JNum(p.issue))
      case None =>
        !(HasText(j, ID) && ValueOf(j.members, ISSUE).Some? && ValueOf(j.members, ISSUE).value.JNum?)
  {
  }

  predicate HasText(j: Json, key: Text) {
    j.JObj? && ValueOf(j.members, key).Some? && ValueOf(j.members, key).value.JStr?
  }

  lemma {:induction false} LastValue(members: seq<Member>, m: Member, key: Text)
    ensures ValueOf(members + [m], key) == if m.key == key then Some(m.value) else ValueOf(members, key)
  {
    assert (members + [m])[..|members|] == members;
  }

  lemma {:induction false} OneValue(m: Member, key: Text)
    ensures ValueOf([m], key) == if m.key == key then Some(m.value) else None
  {
    LastValue([], m, key);
    assert [] + [m] == [m];
  }

  lemma {:induction false} DismissedValue(d: Dismissed, key: Text)
    ensures ValueOf(DismissedJson(d).members, key)
      == if key == ELEMENT then d.element
         else if key == SAW then Some(JStr(d.saw))
         else if key == CATEGORY then Some(JStr(d.category))
         else if key == SCREEN then Some(JStr(d.screen))
         else if key == ID then Some(JStr(d.id))
         else None
  {
    var one := [Member(ID, JStr(d.id))];
    var two := one + [Member(SCREEN, JStr(d.screen))];
    var three := two + [Member(CATEGORY, JStr(d.category))];
    var four := three + [Member(SAW, JStr(d.saw))];
    OneValue(one[0], key);
    LastValue(one, Member(SCREEN, JStr(d.screen)), key);
    LastValue(two, Member(CATEGORY, JStr(d.category)), key);
    LastValue(three, Member(SAW, JStr(d.saw)), key);
    if d.element.Some? {
      LastValue(four, Member(ELEMENT, d.element.value), key);
      assert DismissedJson(d).members == four + [Member(ELEMENT, d.element.value)];
    } else {
      assert DismissedJson(d).members == four;
    }
  }

  lemma {:induction false} DismissedIsRead(d: Dismissed)
    ensures ReadDismissed(DismissedJson(d)) == Some(d)
  {
    hide ValueOf;
    DismissedValue(d, ID);
    DismissedValue(d, SCREEN);
    DismissedValue(d, CATEGORY);
    DismissedValue(d, SAW);
    DismissedValue(d, ELEMENT);
  }

  lemma {:induction false} PromotedIsRead(p: Promoted)
    ensures ReadPromoted(PromotedJson(p)) == Some(p)
  {
    var one := [Member(ID, JStr(p.id))];
    forall key ensures ValueOf(PromotedJson(p).members, key)
      == if key == ISSUE then Some(JNum(p.issue)) else if key == ID then Some(JStr(p.id)) else None
    {
      OneValue(one[0], key);
      LastValue(one, Member(ISSUE, JNum(p.issue)), key);
      assert PromotedJson(p).members == one + [Member(ISSUE, JNum(p.issue))];
    }
  }

  lemma {:induction false} DismissedAreRead(list: seq<Dismissed>)
    ensures ReadAll(DismissedItems(list), ReadDismissed) == Some(list)
  {
    if list != [] {
      var n := |list| - 1;
      DismissedAreRead(list[..n]);
      DismissedIsRead(list[n]);
      assert DismissedItems(list)[..n] == DismissedItems(list[..n]);
      assert list[..n] + [list[n]] == list;
    }
  }

  lemma {:induction false} PromotedAreRead(list: seq<Promoted>)
    ensures ReadAll(PromotedItems(list), ReadPromoted) == Some(list)
  {
    if list != [] {
      var n := |list| - 1;
      PromotedAreRead(list[..n]);
      PromotedIsRead(list[n]);
      assert PromotedItems(list)[..n] == PromotedItems(list[..n]);
      assert list[..n] + [list[n]] == list;
    }
  }

  lemma {:induction false} RecordValue(r: Record, key: Text)
    ensures ValueOf(RecordJson(r).members, key)
      == if key == PROMOTED && r.promoted != [] then Some(JArr(PromotedItems(r.promoted)))
         else if key == DISMISSED && r.dismissed != [] then Some(JArr(DismissedItems(r.dismissed)))
         else if key == COMMENT then Some(JNum(r.comment))
         else None
  {
    hide DismissedItems, PromotedItems;
    var one := [Member(COMMENT, JNum(r.comment))];
    var two := one + if r.dismissed == [] then [] else [Member(DISMISSED, JArr(DismissedItems(r.dismissed)))];
    OneValue(one[0], key);
    assert one + [] == one && two + [] == two;
    if r.dismissed != [] {
      LastValue(one, Member(DISMISSED, JArr(DismissedItems(r.dismissed))), key);
    }
    if r.promoted != [] {
      LastValue(two, Member(PROMOTED, JArr(PromotedItems(r.promoted))), key);
    }
  }

  lemma {:induction false} RecordJsonIsRead(r: Record)
    ensures RecordOf(RecordJson(r).members) == Some(r)
  {
    hide ValueOf, RecordJson, ReadAll, DismissedItems, PromotedItems;
    RecordValue(r, COMMENT);
    RecordValue(r, DISMISSED);
    RecordValue(r, PROMOTED);
    DismissedAreRead(r.dismissed);
    PromotedAreRead(r.promoted);
  }

  /** Its numbers are numbers, and its elements JSON. */
  ghost predicate ValidRecord(r: Record) {
    && NumberToken(r.comment)
    && (forall i :: 0 <= i < |r.promoted| ==> NumberToken(r.promoted[i].issue))
    && forall i :: 0 <= i < |r.dismissed| && r.dismissed[i].element.Some? ==> ValidJson(r.dismissed[i].element.value)
  }

  lemma {:induction false} RecordIsJson(r: Record)
    requires ValidRecord(r)
    ensures ValidJson(RecordJson(r))
  {
    hide NumberToken;
    forall i | 0 <= i < |r.dismissed| ensures ValidJson(DismissedItems(r.dismissed)[i]) {
      assert ValidJson(DismissedJson(r.dismissed[i]));
    }
    forall i | 0 <= i < |r.promoted| ensures ValidJson(PromotedItems(r.promoted)[i]) {
      assert ValidJson(PromotedJson(r.promoted[i]));
    }
    assert ValidJson(JArr(DismissedItems(r.dismissed))) && ValidJson(JArr(PromotedItems(r.promoted)));
  }

  /**
   A record that was written reads back as the same comment, dismissals and promotions,
   whatever the comment goes on to say.
   */
  lemma {:induction false} RecordReadsBack(r: Record, after: Text)
    requires ValidRecord(r)
    ensures ReadRecord(Embed(REPLY_MARKER, RecordJson(r)) + after) == Some(r)
  {
    hide Embed, Embedded, RecordOf, ValidJson;
    RecordIsJson(r);
    RecordJsonIsRead(r);
    var nothing: Text := [];
    EmbeddedUndoesEmbed(nothing, REPLY_MARKER, RecordJson(r), after);
    assert nothing + Embed(REPLY_MARKER, RecordJson(r)) + after == Embed(REPLY_MARKER, RecordJson(r)) + after;
  }
}
