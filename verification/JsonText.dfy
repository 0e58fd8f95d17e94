/**
 JSON as text: how a value is printed, and how a text is read back. Strings are
 sequences of UTF-16 code units, well formed or not. A text may also be printed
 with no two dashes in a row, so that it can stand inside an HTML comment.
 */
module JsonText {
  import opened Prelude

  type Unit = x: int | 0 <= x < 0x1_0000

  type Text = seq<Unit>

  const QUOTE: Unit := 0x22
  const BACKSLASH: Unit := 0x5c
  const COMMA: Unit := 0x2c
  const COLON: Unit := 0x3a
  const DASH: Unit := 0x2d
  const LETTER_U: Unit := 0x75
  const OPEN_ARRAY: Unit := 0x5b
  const CLOSE_ARRAY: Unit := 0x5d
  const OPEN_OBJECT: Unit := 0x7b
  const CLOSE_OBJECT: Unit := 0x7d

  function Ascii(s: string): (t: Text)
    requires forall i :: 0 <= i < |s| ==> s[i] as int < 0x80
    ensures |t| == |s| && forall i :: 0 <= i < |s| ==> t[i] == s[i] as int
  {
    seq(|s|, i requires 0 <= i < |s| => s[i] as int)
  }

  // -------------------------------------------------------------------- strings

  predicate IsHigh(u: Unit) {
    0xd800 <= u < 0xdc00
  }

  predicate IsLow(u: Unit) {
    0xdc00 <= u < 0xe000
  }

  function HexDigit(n: nat): Unit
    requires n < 16
  {
    if n < 10 then 0x30 + n else 0x57 + n
  }

  /** The letter of a unit's short escape. */
  function ShortEscape(u: Unit): Option<Unit> {
    if u == QUOTE || u == BACKSLASH then Some(u)
    else if u == 0x08 then Some(0x62)
    else if u == 0x09 then Some(0x74)
    else if u == 0x0a then Some(0x6e)
    else if u == 0x0c then Some(0x66)
    else if u == 0x0d then Some(0x72)
    else None
  }

  function HexEscape(u: Unit): Text {
    [BACKSLASH, LETTER_U, HexDigit(u / 0x1000), HexDigit(u / 0x100 % 16), HexDigit(u / 16 % 16), HexDigit(u % 16)]
  }

  function EscapeUnit(u: Unit): Text {
    if ShortEscape(u).Some? then [BACKSLASH, ShortEscape(u).value]
    else if u < 0x20 || IsHigh(u) || IsLow(u) then HexEscape(u)
    else [u]
  }

  /** A string's content as it stands between the quotes: a surrogate pair stands as it is, a lone half is escaped. */
  function Escape(s: Text, dashed: bool): Text {
    if s == [] then []
    else if |s| > 1 && IsHigh(s[0]) && IsLow(s[1]) then [s[0], s[1]] + Escape(s[2..], dashed)
    else if dashed && |s| > 1 && s[0] == DASH && s[1] == DASH then [DASH] + HexEscape(DASH) + Escape(s[2..], dashed)
    else EscapeUnit(s[0]) + Escape(s[1..], dashed)
  }

  function Quote(s: Text, dashed: bool): Text {
    [QUOTE] + Escape(s, dashed) + [QUOTE]
  }

  function HexValue(u: Unit): nat {
    if 0x30 <= u < 0x3a then u - 0x30 else if 0x61 <= u < 0x67 then u - 0x57 else 0
  }

  function LongEscaped(u: Unit): Unit {
    if u == 0x62 then 0x08
    else if u == 0x74 then 0x09
    else if u == 0x6e then 0x0a
    else if u == 0x66 then 0x0c
    else if u == 0x72 then 0x0d
    else u
  }

  function HexUnit(a: Unit, b: Unit, c: Unit, d: Unit): Unit {
    0x1000 * HexValue(a) + 0x100 * HexValue(b) + 16 * HexValue(c) + HexValue(d)
  }

  datatype Read<+T> = Fail | Got(value: T, rest: Text)

  /** Reads a string up to its closing quote. */
  function Unescape(t: Text): (r: Read<Text>)
    ensures r.Got? ==> |r.rest| < |t|
  {
    if t == [] then Fail
    else if t[0] == QUOTE then Got([], t[1..])
    else if t[0] != BACKSLASH then Before([t[0]], Unescape(t[1..]))
    else if |t| < 2 then Fail
    else if t[1] != LETTER_U then Before([LongEscaped(t[1])], Unescape(t[2..]))
    else if |t| < 6 then Fail
    else Before([HexUnit(t[2], t[3], t[4], t[5])], Unescape(t[6..]))
  }

  function Before(u: Text, rest: Read<Text>): Read<Text> {
    if rest.Fail? then Fail else Got(u + rest.value, rest.rest)
  }

  lemma {:induction false} DigitIsRead(n: nat)
    requires n < 16
    ensures HexValue(HexDigit(n)) == n
  {
  }

  lemma {:induction false} HexRoundTrip(u: Unit)
    ensures HexUnit(HexDigit(u / 0x1000), HexDigit(u / 0x100 % 16), HexDigit(u / 16 % 16), HexDigit(u % 16)) == u
  {
    hide HexDigit, HexValue;
    DigitIsRead(u / 0x1000);
    DigitIsRead(u / 0x100 % 16);
    DigitIsRead(u / 16 % 16);
    DigitIsRead(u % 16);
    assert u / 0x100 == 16 * (u / 0x1000) + u / 0x100 % 16;
    assert u / 16 == 16 * (u / 0x100) + u / 16 % 16;
    assert u == 16 * (u / 16) + u % 16;
  }

  lemma {:induction false} LongIsRead(a: Unit, b: Unit, c: Unit, d: Unit, rest: Text)
    ensures Unescape([BACKSLASH, LETTER_U, a, b, c, d] + rest) == Before([HexUnit(a, b, c, d)], Unescape(rest))
  {
    hide HexUnit;
    var t := [BACKSLASH, LETTER_U, a, b, c, d] + rest;
    assert t[6..] == rest;
  }

  lemma {:induction false} HexIsRead(u: Unit, rest: Text)
    ensures Unescape(HexEscape(u) + rest) == Before([u], Unescape(rest))
  {
    hide HexDigit, HexUnit;
    HexRoundTrip(u);
    LongIsRead(HexDigit(u / 0x1000), HexDigit(u / 0x100 % 16), HexDigit(u / 16 % 16), HexDigit(u % 16), rest);
  }

  lemma {:induction false} ShortIsRead(u: Unit, letter: Unit, rest: Text)
    requires ShortEscape(u) == Some(letter)
    ensures Unescape([BACKSLASH, letter] + rest) == Before([u], Unescape(rest))
  {
    var t := [BACKSLASH, letter] + rest;
    assert t[2..] == rest && LongEscaped(letter) == u && letter != LETTER_U;
  }

  lemma {:induction false} PlainIsRead(u: Unit, rest: Text)
    requires u != QUOTE && u != BACKSLASH
    ensures Unescape([u] + rest) == Before([u], Unescape(rest))
  {
    assert ([u] + rest)[1..] == rest;
  }

  /** One escaped unit is read back as the unit. */
  lemma {:induction false} UnitIsRead(u: Unit, rest: Text)
    ensures Unescape(EscapeUnit(u) + rest) == Before([u], Unescape(rest))
  {
    hide Unescape, HexEscape;
    if ShortEscape(u).Some? {
      ShortIsRead(u, ShortEscape(u).value, rest);
    } else if u < 0x20 || IsHigh(u) || IsLow(u) {
      HexIsRead(u, rest);
    } else {
      PlainIsRead(u, rest);
    }
  }

  /** A quoted string says what was quoted, whatever follows it. */
  lemma {:induction false} QuotedIsRead(s: Text, dashed: bool, rest: Text)
    ensures Unescape(Escape(s, dashed) + ([QUOTE] + rest)) == Got(s, rest)
    decreases |s|
  {
    hide EscapeUnit, HexEscape, Unescape;
    var tail := [QUOTE] + rest;
    if s == [] {
      QuoteEnds(rest);
      assert Escape(s, dashed) + tail == tail;
    } else if |s| > 1 && IsHigh(s[0]) && IsLow(s[1]) {
      assert [s[0], s[1]] == [s[0]] + [s[1]];
      TwoMore(s, [s[0]], [s[1]], dashed, rest);
      PlainIsRead(s[0], [s[1]] + (Escape(s[2..], dashed) + tail));
      PlainIsRead(s[1], Escape(s[2..], dashed) + tail);
    } else if dashed && |s| > 1 && s[0] == DASH && s[1] == DASH {
      TwoMore(s, [DASH], HexEscape(DASH), dashed, rest);
      PlainIsRead(DASH, HexEscape(DASH) + (Escape(s[2..], dashed) + tail));
      HexIsRead(DASH, Escape(s[2..], dashed) + tail);
    } else {
      QuotedIsRead(s[1..], dashed, rest);
      Associates(EscapeUnit(s[0]), Escape(s[1..], dashed), tail);
      UnitIsRead(s[0], Escape(s[1..], dashed) + tail);
      assert [s[0]] + s[1..] == s;
    }
  }

  lemma {:induction false} QuoteEnds(rest: Text)
    ensures Unescape([QUOTE] + rest) == Got([], rest)
  {
    assert ([QUOTE] + rest)[1..] == rest;
  }

  lemma {:induction false} TwoMore(s: Text, first: Text, second: Text, dashed: bool, rest: Text)
    requires |s| > 1
    ensures first + second + Escape(s[2..], dashed) + ([QUOTE] + rest)
      == first + (second + (Escape(s[2..], dashed) + ([QUOTE] + rest)))
    ensures Unescape(Escape(s[2..], dashed) + ([QUOTE] + rest)) == Got(s[2..], rest)
    ensures Before([s[0]], Before([s[1]], Got(s[2..], rest))) == Got(s, rest)
    decreases |s| - 1
  {
    hide Escape, Unescape;
    QuotedIsRead(s[2..], dashed, rest);
    assert [s[0]] + ([s[1]] + s[2..]) == s;
  }

  /** Strings are escaped unit by unit, but that the two halves of a pair stand together. */
  lemma {:induction false} EscapesApart(a: Text, b: Text)
    requires a == [] || b == [] || !(IsHigh(a[|a| - 1]) && IsLow(b[0]))
    ensures Escape(a + b, false) == Escape(a, false) + Escape(b, false)
    decreases |a|
  {
    if a == [] {
      assert a + b == b;
    } else {
      var n := if |a| > 1 && IsHigh(a[0]) && IsLow(a[1]) then 2 else 1;
      assert (a + b)[n..] == a[n..] + b && forall i :: 0 <= i < |a| ==> (a + b)[i] == a[i];
      EscapesApart(a[n..], b);
      hide EscapeUnit, HexEscape;
      var first := if n == 2 then [a[0], a[1]] else EscapeUnit(a[0]);
      assert Escape(a, false) == first + Escape(a[n..], false);
      assert Escape(a + b, false) == first + Escape(a[n..] + b, false);
      Associates(first, Escape(a[n..], false), Escape(b, false));
    }
  }

  /** The hexadecimal digits, the letters small. */
  const HEX: Text := [0x30, 0x31, 0x32, 0x33, 0x34, 0x35, 0x36, 0x37, 0x38, 0x39, 0x61, 0x62, 0x63, 0x64, 0x65, 0x66]

  /**
   What becomes of one unit: the escapes of section 7 of RFC 8259 that ECMAScript writes,
   and lone halves of pairs.
   */
  lemma {:induction false} UnitEscapes(u: Unit)
    ensures Escape([u], false) ==
      if u == 0x22 then Ascii("\\\"")
      else if u == 0x5c then Ascii("\\\\")
      else if u == 0x08 then Ascii("\\b")
      else if u == 0x0c then Ascii("\\f")
      else if u == 0x0a then Ascii("\\n")
      else if u == 0x0d then Ascii("\\r")
      else if u == 0x09 then Ascii("\\t")
      else if u < 0x20 || 0xd800 <= u < 0xe000 then
        Ascii("\\u") + [HEX[u / 0x1000], HEX[u / 0x100 % 16], HEX[u / 16 % 16], HEX[u % 16]]
      else [u]
  {
    hide HexEscape, HexDigit, HEX;
    assert [u][1..] == [];
    assert Escape([u], false) == EscapeUnit(u) + [] == EscapeUnit(u);
    if ShortEscape(u).None? && (u < 0x20 || IsHigh(u) || IsLow(u)) {
      HexIsWritten(u);
    }
  }

  lemma {:induction false} DigitIsWritten(n: nat)
    requires n < 16
    ensures HexDigit(n) == HEX[n]
  {
  }

  lemma {:induction false} HexIsWritten(u: Unit)
    ensures HexEscape(u) == Ascii("\\u") + [HEX[u / 0x1000], HEX[u / 0x100 % 16], HEX[u / 16 % 16], HEX[u % 16]]
  {
    hide HexDigit;
    DigitIsWritten(u / 0x1000);
    DigitIsWritten(u / 0x100 % 16);
    DigitIsWritten(u / 16 % 16);
    DigitIsWritten(u % 16);
  }

  /** A pair stands as it is. */
  lemma {:induction false} PairStands(high: Unit, low: Unit)
    requires 0xd800 <= high < 0xdc00 <= low < 0xe000
    ensures Escape([high, low], false) == [high, low]
  {
    assert [high, low][2..] == [] && [high, low] + [] == [high, low];
  }

  // ------------------------------------------------------------------- printing

  /** A value a text can say. A finite number is the decimal text it prints as. */
  datatype Json =
    | JNull
    | JBool(truth: bool)
    | JNum(token: Text)
    | JStr(text: Text)
    | JArr(items: seq<Json>)
    | JObj(members: seq<Member>)

  datatype Member = Member(key: Text, value: Json)

  predicate NumberUnit(u: Unit) {
    u == DASH || u == 0x2b || u == 0x2e || 0x30 <= u < 0x3a || u == 0x65
  }

  predicate NumberStart(u: Unit) {
    u == DASH || 0x30 <= u < 0x3a
  }

  /**
   What a number prints as: a sign or a digit first, digits, a point or an exponent
   after it, and never two signs in a row.
   */
  predicate NumberToken(t: Text) {
    && t != [] && NumberStart(t[0])
    && (forall i :: 0 <= i < |t| ==> NumberUnit(t[i]))
    && NoTwoDashes(t)
  }

  predicate NoTwoDashes(t: Text) {
    forall i :: 0 <= i < |t| - 1 ==> !(t[i] == DASH && t[i + 1] == DASH)
  }

  ghost predicate ValidJson(j: Json) {
    match j
    case JNum(token) => NumberToken(token)
    case JArr(items) => forall i :: 0 <= i < |items| ==> ValidJson(items[i])
    case JObj(members) => forall i :: 0 <= i < |members| ==> ValidJson(members[i].value)
    case _ => true
  }

  const NULL := Ascii("null")
  const TRUE := Ascii("true")
  const FALSE := Ascii("false")

  function Print(j: Json, dashed: bool): Text {
    match j
    case JNull => NULL
    case JBool(truth) => if truth then TRUE else FALSE
    case JNum(token) => token
    case JStr(text) => Quote(text, dashed)
    case JArr(items) => [OPEN_ARRAY] + PrintItems(items, dashed) + [CLOSE_ARRAY]
    case JObj(members) => [OPEN_OBJECT] + PrintMembers(members, dashed) + [CLOSE_OBJECT]
  }

  function PrintItems(items: seq<Json>, dashed: bool): Text {
    if items == [] then []
    else if |items| == 1 then Print(items[0], dashed)
    else Print(items[0], dashed) + [COMMA] + PrintItems(items[1..], dashed)
  }

  function PrintMember(m: Member, dashed: bool): Text {
    Quote(m.key, dashed) + [COLON] + Print(m.value, dashed)
  }

  function PrintMembers(members: seq<Member>, dashed: bool): Text {
    if members == [] then []
    else if |members| == 1 then PrintMember(members[0], dashed)
    else PrintMember(members[0], dashed) + [COMMA] + PrintMembers(members[1..], dashed)
  }

  // -------------------------------------------------------------------- reading

  function NumberLength(t: Text): (n: nat)
    ensures n <= |t|
    ensures forall i :: 0 <= i < n ==> NumberUnit(t[i])
    ensures n < |t| ==> !NumberUnit(t[n])
  {
    if t == [] || !NumberUnit(t[0]) then 0 else 1 + NumberLength(t[1..])
  }

  predicate StartsWith(t: Text, word: Text) {
    |word| <= |t| && t[..|word|] == word
  }

  function ReadWord(t: Text, word: Text, value: Json): (r: Read<Json>)
    requires word != []
    ensures r.Got? ==> |r.rest| < |t|
  {
    if StartsWith(t, word) then Got(value, t[|word|..]) else Fail
  }

  /** Reads one value from the front of a text. */
  function ReadValue(t: Text): (r: Read<Json>)
    ensures r.Got? ==> |r.rest| < |t|
    decreases |t|, 1
  {
    if t == [] then Fail
    else if t[0] == QUOTE then
      var s := Unescape(t[1..]);
      if s.Fail? then Fail else Got(JStr(s.value), s.rest)
    else if NumberStart(t[0]) then Got(JNum(t[..NumberLength(t)]), t[NumberLength(t)..])
    else if t[0] == OPEN_ARRAY then
      if StartsWith(t[1..], [CLOSE_ARRAY]) then Got(JArr([]), t[2..])
      else
        var items := ReadItems(t[1..]);
        if items.Fail? then Fail else Got(JArr(items.value), items.rest)
    else if t[0] == OPEN_OBJECT then
      if StartsWith(t[1..], [CLOSE_OBJECT]) then Got(JObj([]), t[2..])
      else
        var members := ReadMembers(t[1..]);
        if members.Fail? then Fail else Got(JObj(members.value), members.rest)
    else if t[0] == NULL[0] then ReadWord(t, NULL, JNull)
    else if t[0] == TRUE[0] then ReadWord(t, TRUE, JBool(true))
    else ReadWord(t, FALSE, JBool(false))
  }

  /** Reads the items of a list up to its end, one at least. */
  function ReadItems(t: Text): (r: Read<seq<Json>>)
    ensures r.Got? ==> |r.rest| < |t|
    decreases |t|, 2
  {
    var first := ReadValue(t);
    if first.Fail? || first.rest == [] then Fail
    else if first.rest[0] == CLOSE_ARRAY then Got([first.value], first.rest[1..])
    else if first.rest[0] != COMMA then Fail
    else
      var others := ReadItems(first.rest[1..]);
      if others.Fail? then Fail else Got([first.value] + others.value, others.rest)
  }

  function ReadMember(t: Text): (r: Read<Member>)
    ensures r.Got? ==> |r.rest| < |t|
    decreases |t|, 2
  {
    if t == [] || t[0] != QUOTE then Fail
    else
      var key := Unescape(t[1..]);
      if key.Fail? || key.rest == [] || key.rest[0] != COLON then Fail
      else
        var value := ReadValue(key.rest[1..]);
        if value.Fail? then Fail else Got(Member(key.value, value.value), value.rest)
  }

  function ReadMembers(t: Text): (r: Read<seq<Member>>)
    ensures r.Got? ==> |r.rest| < |t|
    decreases |t|, 3
  {
    var first := ReadMember(t);
    if first.Fail? || first.rest == [] then Fail
    else if first.rest[0] == CLOSE_OBJECT then Got([first.value], first.rest[1..])
    else if first.rest[0] != COMMA then Fail
    else
      var others := ReadMembers(first.rest[1..]);
      if others.Fail? then Fail else Got([first.value] + others.value, others.rest)
  }

  /** Reads a text that is one value and nothing else. */
  function Parse(t: Text): Option<Json> {
    var r := ReadValue(t);
    if r.Got? && r.rest == [] then Some(r.value) else None
  }

  // ------------------------------------------------------- what is printed is read

  /** What may follow a value in a text: the end, or what ends the value before it. */
  predicate Stop(x: Text) {
    x == [] || x[0] == COMMA || x[0] == CLOSE_ARRAY || x[0] == CLOSE_OBJECT
  }

  lemma {:induction false} TokenLength(t: Text, x: Text)
    requires Stop(x) && forall i :: 0 <= i < |t| ==> NumberUnit(t[i])
    ensures NumberLength(t + x) == |t|
  {
    if t == [] {
      assert t + x == x;
    } else {
      assert (t + x)[1..] == t[1..] + x;
      TokenLength(t[1..], x);
    }
  }

  lemma {:induction false} TokenIsRead(token: Text, x: Text)
    requires NumberToken(token) && Stop(x)
    ensures ReadValue(token + x) == Got(JNum(token), x)
  {
    TokenLength(token, x);
    assert (token + x)[..|token|] == token && (token + x)[|token|..] == x;
  }

  lemma {:induction false} WordIsRead(word: Text, value: Json, x: Text)
    requires (word == NULL && value == JNull) || (word == TRUE && value == JBool(true))
      || (word == FALSE && value == JBool(false))
    ensures ReadValue(word + x) == Got(value, x)
  {
    assert NULL[0] == 0x6e && TRUE[0] == 0x74 && FALSE[0] == 0x66 && |NULL| == |TRUE| == 4 && |FALSE| == 5;
    assert (word + x)[0] == word[0];
    assert (word + x)[..|word|] == word && (word + x)[|word|..] == x;
  }

  lemma {:induction false} StringIsRead(s: Text, dashed: bool, x: Text)
    ensures ReadValue(Quote(s, dashed) + x) == Got(JStr(s), x)
  {
    hide Escape, Unescape;
    QuotedIsRead(s, dashed, x);
    assert (Quote(s, dashed) + x)[1..] == Escape(s, dashed) + ([QUOTE] + x);
  }

  /** A printed value starts with nothing that ends a list or an object. */
  lemma {:induction false} PrintedStarts(j: Json, dashed: bool)
    requires ValidJson(j)
    ensures Print(j, dashed) != [] && Print(j, dashed)[0] != CLOSE_ARRAY && Print(j, dashed)[0] != CLOSE_OBJECT
  {
  }

  /** Reading undoes printing, dashed or not, whatever follows the value. */
  lemma {:induction false} PrintedIsRead(j: Json, dashed: bool, x: Text)
    requires ValidJson(j) && Stop(x)
    ensures ReadValue(Print(j, dashed) + x) == Got(j, x)
    decreases j, 0
  {
    hide Quote, ReadValue, PrintItems, PrintMembers;
    match j
    case JNull => WordIsRead(NULL, j, x);
    case JBool(truth) => WordIsRead(if truth then TRUE else FALSE, j, x);
    case JNum(token) => TokenIsRead(token, x);
    case JStr(text) => StringIsRead(text, dashed, x);
    case JArr(items) =>
      if items != [] { ItemsAreRead(items, dashed, x); }
      ArrayIsRead(items, dashed, x);
    case JObj(members) =>
      if members != [] { MembersAreRead(members, dashed, x); }
      ObjectIsRead(members, dashed, x);
  }

  lemma {:induction false} ArrayIsRead(items: seq<Json>, dashed: bool, x: Text)
    requires items != [] ==>
      ValidJson(items[0]) && ReadItems(PrintItems(items, dashed) + ([CLOSE_ARRAY] + x)) == Got(items, x)
    ensures ReadValue([OPEN_ARRAY] + PrintItems(items, dashed) + [CLOSE_ARRAY] + x) == Got(JArr(items), x)
  {
    hide ReadItems, Print;
    var inner := PrintItems(items, dashed) + ([CLOSE_ARRAY] + x);
    var t := [OPEN_ARRAY] + PrintItems(items, dashed) + [CLOSE_ARRAY] + x;
    assert t[1..] == inner && t[0] == OPEN_ARRAY;
    if items == [] {
      assert inner == [CLOSE_ARRAY] + x && t[2..] == x;
    } else {
      PrintedStarts(items[0], dashed);
      assert inner[0] == Print(items[0], dashed)[0];
    }
  }

  lemma {:induction false} ObjectIsRead(members: seq<Member>, dashed: bool, x: Text)
    requires members != [] ==> ReadMembers(PrintMembers(members, dashed) + ([CLOSE_OBJECT] + x)) == Got(members, x)
    ensures ReadValue([OPEN_OBJECT] + PrintMembers(members, dashed) + [CLOSE_OBJECT] + x) == Got(JObj(members), x)
  {
    hide ReadMembers, Print, Escape;
    var inner := PrintMembers(members, dashed) + ([CLOSE_OBJECT] + x);
    var t := [OPEN_OBJECT] + PrintMembers(members, dashed) + [CLOSE_OBJECT] + x;
    assert t[1..] == inner && t[0] == OPEN_OBJECT;
    if members == [] {
      assert inner == [CLOSE_OBJECT] + x && t[2..] == x;
    } else {
      assert inner[0] == QUOTE;
    }
  }

  /** What follows a list's first item: its end, or a comma and the others. */
  function After(one: bool, others: Text, close: Unit, x: Text): Text {
    if one then [close] + x else [COMMA] + (others + ([close] + x))
  }

  lemma {:induction false} FirstItem(items: seq<Json>, dashed: bool, x: Text)
    requires items != []
    ensures PrintItems(items, dashed) + ([CLOSE_ARRAY] + x)
      == Print(items[0], dashed) + After(|items| == 1, PrintItems(items[1..], dashed), CLOSE_ARRAY, x)
  {
    hide Print;
  }

  lemma {:induction false} FirstMember(members: seq<Member>, dashed: bool, x: Text)
    requires members != []
    ensures PrintMembers(members, dashed) + ([CLOSE_OBJECT] + x)
      == PrintMember(members[0], dashed) + After(|members| == 1, PrintMembers(members[1..], dashed), CLOSE_OBJECT, x)
  {
    hide PrintMember;
  }

  lemma {:induction false} ItemsAreRead(items: seq<Json>, dashed: bool, x: Text)
    requires items != [] && forall i :: 0 <= i < |items| ==> ValidJson(items[i])
    ensures ReadItems(PrintItems(items, dashed) + ([CLOSE_ARRAY] + x)) == Got(items, x)
    decreases items, 0
  {
    hide Print, PrintItems, ReadValue, ValidJson;
    var tail := After(|items| == 1, PrintItems(items[1..], dashed), CLOSE_ARRAY, x);
    FirstItem(items, dashed, x);
    PrintedIsRead(items[0], dashed, tail);
    if |items| > 1 {
      ItemsAreRead(items[1..], dashed, x);
      assert tail[1..] == PrintItems(items[1..], dashed) + ([CLOSE_ARRAY] + x);
      assert [items[0]] + items[1..] == items;
    } else {
      assert tail[1..] == x && [items[0]] == items;
    }
  }

  lemma {:induction false} MemberIsRead(m: Member, dashed: bool, x: Text)
    requires ValidJson(m.value) && Stop(x)
    ensures ReadMember(PrintMember(m, dashed) + x) == Got(m, x)
    decreases m, 0
  {
    hide Escape, Unescape, Print, ReadValue, ValidJson;
    var value := Print(m.value, dashed) + x;
    var t := PrintMember(m, dashed) + x;
    assert t[1..] == Escape(m.key, dashed) + ([QUOTE] + ([COLON] + value));
    QuotedIsRead(m.key, dashed, [COLON] + value);
    assert ([COLON] + value)[1..] == value;
    PrintedIsRead(m.value, dashed, x);
  }

  lemma {:induction false} MembersAreRead(members: seq<Member>, dashed: bool, x: Text)
    requires members != [] && forall i :: 0 <= i < |members| ==> ValidJson(members[i].value)
    ensures ReadMembers(PrintMembers(members, dashed) + ([CLOSE_OBJECT] + x)) == Got(members, x)
    decreases members, 0
  {
    hide PrintMember, PrintMembers, ReadMember, ValidJson;
    var tail := After(|members| == 1, PrintMembers(members[1..], dashed), CLOSE_OBJECT, x);
    FirstMember(members, dashed, x);
    MemberIsRead(members[0], dashed, tail);
    if |members| > 1 {
      MembersAreRead(members[1..], dashed, x);
      assert tail[1..] == PrintMembers(members[1..], dashed) + ([CLOSE_OBJECT] + x);
      assert [members[0]] + members[1..] == members;
    } else {
      assert tail[1..] == x && [members[0]] == members;
    }
  }

  lemma {:induction false} ParseUndoesPrint(j: Json, dashed: bool)
    requires ValidJson(j)
    ensures Parse(Print(j, dashed)) == Some(j)
  {
    hide Print, ReadValue, ValidJson;
    PrintedIsRead(j, dashed, []);
    assert Print(j, dashed) + [] == Print(j, dashed);
  }

  // ---------------------------------------------------------- no two dashes in a row

  /** A text with the second of every two dashes escaped, two at a time from the left. */
  function Dashed(t: Text): Text {
    if |t| < 2 then t
    else if t[0] == DASH && t[1] == DASH then [DASH] + HexEscape(DASH) + Dashed(t[2..])
    else [t[0]] + Dashed(t[1..])
  }

  lemma {:induction false} DashedHasNoTwoDashes(t: Text)
    ensures NoTwoDashes(Dashed(t))
    ensures Dashed(t) == [] <==> t == []
    ensures t != [] ==> Dashed(t)[0] == t[0]
    decreases |t|
  {
    if |t| >= 2 {
      if t[0] == DASH && t[1] == DASH {
        DashedHasNoTwoDashes(t[2..]);
        assert HexEscape(DASH)[0] == BACKSLASH && HexEscape(DASH)[5] != DASH;
      } else {
        DashedHasNoTwoDashes(t[1..]);
      }
    }
  }

  predicate Splits(a: Text, b: Text) {
    a == [] || b == [] || a[|a| - 1] != DASH || b[0] != DASH
  }

  predicate TwoDashes(t: Text) {
    |t| >= 2 && t[0] == DASH && t[1] == DASH
  }

  lemma {:induction false} DashedFront(front: Text, rest: Text)
    requires |front| == (if TwoDashes(front + rest) then 2 else 1)
    ensures Dashed(front + rest) == (if TwoDashes(front + rest) then [DASH] + HexEscape(DASH) else front) + Dashed(rest)
  {
    hide HexEscape;
    var t := front + rest;
    assert t[|front|..] == rest;
    if |t| == 1 {
      assert t == front && rest == [];
    } else if |front| == 1 {
      assert front == [t[0]];
    }
  }

  lemma {:induction false} SplitsKeepsDashes(a: Text, b: Text)
    requires Splits(a, b) && a != []
    ensures TwoDashes(a + b) == TwoDashes(a)
    ensures Splits(a[if TwoDashes(a) then 2 else 1..], b)
  {
  }

  lemma {:induction false} DashedInParts(a: Text, b: Text)
    requires Splits(a, b)
    ensures Dashed(a + b) == Dashed(a) + Dashed(b)
    decreases |a|
  {
    if a == [] {
      assert a + b == b;
    } else {
      hide Dashed, HexEscape;
      SplitsKeepsDashes(a, b);
      var n := if TwoDashes(a) then 2 else 1;
      var front, rest := a[..n], a[n..];
      assert a == front + rest;
      Associates(front, rest, b);
      var start := if TwoDashes(a) then [DASH] + HexEscape(DASH) else front;
      assert Dashed(a) == start + Dashed(rest) by { DashedFront(front, rest); }
      assert Dashed(a + b) == start + Dashed(rest + b) by { DashedFront(front, rest + b); }
      DashedInParts(rest, b);
      Associates(start, Dashed(rest), Dashed(b));
    }
  }

  lemma {:induction false} NothingToDash(t: Text)
    requires NoTwoDashes(t)
    ensures Dashed(t) == t
    decreases |t|
  {
    if |t| >= 2 {
      NothingToDash(t[1..]);
      assert [t[0]] + t[1..] == t;
    }
  }

  lemma {:induction false} UnitHasNoDash(u: Unit)
    ensures EscapeUnit(u) != []
    ensures u == DASH ==> EscapeUnit(u) == [DASH]
    ensures u != DASH ==> DASH !in EscapeUnit(u)
  {
  }

  lemma {:induction false} EscapeStarts(s: Text)
    ensures Escape(s, false) == [] <==> s == []
    ensures s != [] ==> (Escape(s, false)[0] == DASH <==> s[0] == DASH)
  {
    if s != [] {
      UnitHasNoDash(s[0]);
    }
  }

  lemma {:induction false} DashedEscape(s: Text)
    ensures Dashed(Escape(s, false)) == Escape(s, true)
    decreases |s|
  {
    hide EscapeUnit, HexEscape;
    if s != [] {
      if |s| > 1 && IsHigh(s[0]) && IsLow(s[1]) {
        DashedEscape(s[2..]);
        DashedInParts([s[0], s[1]], Escape(s[2..], false));
        NothingToDash([s[0], s[1]]);
      } else if |s| > 1 && s[0] == DASH && s[1] == DASH {
        DashedEscape(s[2..]);
        UnitHasNoDash(DASH);
        TwoDashesEscape(s);
      } else {
        DashedEscape(s[1..]);
        UnitHasNoDash(s[0]);
        EscapeStarts(s[1..]);
        DashedInParts(EscapeUnit(s[0]), Escape(s[1..], false));
        NothingToDash(EscapeUnit(s[0]));
      }
    }
  }

  lemma {:induction false} TwoDashesEscape(s: Text)
    requires |s| > 1 && s[0] == DASH && s[1] == DASH
    ensures Dashed(Escape(s, false)) == [DASH] + HexEscape(DASH) + Dashed(Escape(s[2..], false))
  {
    hide HexEscape;
    UnitHasNoDash(DASH);
    var t := Escape(s, false);
    assert s[1..][1..] == s[2..] && s[1..][0] == DASH;
    assert Escape(s[1..], false) == [DASH] + Escape(s[2..], false);
    assert t == [DASH] + ([DASH] + Escape(s[2..], false));
    assert t[2..] == Escape(s[2..], false);
  }

  /** A text between two units that are no dashes. */
  lemma {:induction false} DashedBetween(open: Unit, t: Text, close: Unit)
    requires open != DASH && close != DASH
    ensures Dashed([open] + t + [close]) == [open] + Dashed(t) + [close]
  {
    DashedInParts([open] + t, [close]);
    DashedInParts([open], t);
  }

  /** Two texts with a unit between that is no dash. */
  lemma {:induction false} DashedAround(a: Text, middle: Unit, b: Text)
    requires middle != DASH
    ensures Dashed(a + [middle] + b) == Dashed(a) + [middle] + Dashed(b)
  {
    DashedInParts(a + [middle], b);
    DashedInParts(a, [middle]);
  }

  /** Escaping the dashes of a printed value escapes them inside its strings and nowhere else. */
  lemma {:induction false} DashedPrint(j: Json)
    requires ValidJson(j)
    ensures Dashed(Print(j, false)) == Print(j, true)
    decreases j, 0
  {
    hide Dashed, Escape;
    match j
    case JNull => NothingToDash(NULL);
    case JBool(truth) => NothingToDash(if truth then TRUE else FALSE);
    case JNum(token) => NothingToDash(token);
    case JStr(text) => DashedQuote(text);
    case JArr(items) =>
      DashedItems(items);
      DashedBetween(OPEN_ARRAY, PrintItems(items, false), CLOSE_ARRAY);
    case JObj(members) =>
      DashedMembers(members);
      DashedBetween(OPEN_OBJECT, PrintMembers(members, false), CLOSE_OBJECT);
  }

  lemma {:induction false} DashedQuote(s: Text)
    ensures Dashed(Quote(s, false)) == Quote(s, true)
  {
    hide Dashed, Escape;
    DashedEscape(s);
    DashedBetween(QUOTE, Escape(s, false), QUOTE);
  }

  lemma {:induction false} DashedItems(items: seq<Json>)
    requires forall i :: 0 <= i < |items| ==> ValidJson(items[i])
    ensures Dashed(PrintItems(items, false)) == PrintItems(items, true)
    decreases items, 0
  {
    if items == [] {
    } else {
      hide Dashed, Print, ValidJson;
      DashedPrint(items[0]);
      if |items| > 1 {
        DashedItems(items[1..]);
        DashedAround(Print(items[0], false), COMMA, PrintItems(items[1..], false));
      }
    }
  }

  lemma {:induction false} DashedMember(m: Member)
    requires ValidJson(m.value)
    ensures Dashed(PrintMember(m, false)) == PrintMember(m, true)
    decreases m, 0
  {
    hide Dashed, Print, Quote, ValidJson;
    DashedQuote(m.key);
    DashedPrint(m.value);
    DashedAround(Quote(m.key, false), COLON, Print(m.value, false));
  }

  lemma {:induction false} DashedMembers(members: seq<Member>)
    requires forall i :: 0 <= i < |members| ==> ValidJson(members[i].value)
    ensures Dashed(PrintMembers(members, false)) == PrintMembers(members, true)
    decreases members, 0
  {
    if members == [] {
    } else {
      hide Dashed, PrintMember, ValidJson;
      DashedMember(members[0]);
      if |members| > 1 {
        DashedMembers(members[1..]);
        DashedAround(PrintMember(members[0], false), COMMA, PrintMembers(members[1..], false));
      }
    }
  }
}
