/**
 Canonical JSON and the cache keys made of it. A value is printed with its keys
 sorted and its undefined fields dropped; the text is a function of what the value
 means and of nothing else, and what it means can be read back from the text.
 */
module StableJson {
  import opened Prelude
  import opened JsonText

  /**
   A value as the language holds it. A finite number is the decimal text it prints
   as; `NonFinite` is NaN and both infinities.
   */
  datatype Value =
    | Undefined
    | Null
    | NonFinite
    | Bool(truth: bool)
    | Num(token: Text)
    | Str(text: Text)
    | Arr(items: seq<Value>)
    | Obj(fields: seq<Field>)

  datatype Field = Field(key: Text, value: Value)

  // ------------------------------------------------------------------ key order

  /** The order of the keys: by code unit, a prefix first. */
  predicate Less(a: Text, b: Text) {
    b != [] && (a == [] || a[0] < b[0] || (a[0] == b[0] && Less(a[1..], b[1..])))
  }

  lemma {:induction false} LessIsTotal(a: Text, b: Text)
    ensures Less(a, b) || a == b || Less(b, a)
    ensures !(Less(a, b) && (a == b || Less(b, a)))
    decreases |a|
  {
    if a != [] && b != [] && a[0] == b[0] {
      LessIsTotal(a[1..], b[1..]);
      assert a == [a[0]] + a[1..] && b == [b[0]] + b[1..];
    }
  }

  lemma {:induction false} LessIsTransitive(a: Text, b: Text, c: Text)
    requires Less(a, b) && Less(b, c)
    ensures Less(a, c)
    decreases |a|
  {
    if a != [] && a[0] == b[0] == c[0] {
      LessIsTransitive(a[1..], b[1..], c[1..]);
    }
  }

  ghost predicate Ascending(keys: seq<Text>) {
    forall i, j :: 0 <= i < j < |keys| ==> Less(keys[i], keys[j])
  }

  function Insert(keys: seq<Text>, key: Text): (r: seq<Text>)
    requires Ascending(keys) && key !in keys
    ensures Ascending(r) && |r| == |keys| + 1
    ensures forall k :: k in r <==> k in keys || k == key
  {
    if keys == [] then [key]
    else if Less(key, keys[0]) then
      assert Ascending([key] + keys) by {
        forall i | 0 < i < |keys| ensures Less(key, keys[i]) {
          LessIsTransitive(key, keys[0], keys[i]);
        }
      }
      [key] + keys
    else
      var rest := Insert(keys[1..], key);
      assert Ascending([keys[0]] + rest) by {
        LessIsTotal(keys[0], key);
        forall i | 0 <= i < |rest| ensures Less(keys[0], rest[i]) {
          assert rest[i] in rest;
        }
      }
      assert forall k :: k in keys <==> k == keys[0] || k in keys[1..];
      [keys[0]] + rest
  }

  /** The keys in order. */
  function Sorted(keys: seq<Text>): (r: seq<Text>)
    requires Distinct(keys)
    ensures Ascending(r) && |r| == |keys|
    ensures forall k :: k in r <==> k in keys
  {
    if keys == [] then []
    else
      var before, last := keys[..|keys| - 1], keys[|keys| - 1];
      assert forall k :: k in keys <==> k in before || k == last;
      Insert(Sorted(before), last)
  }

  ghost predicate Distinct(keys: seq<Text>) {
    forall i, j :: 0 <= i < j < |keys| ==> keys[i] != keys[j]
  }

  /** There is one way to put a set of keys in order. */
  lemma {:induction false} OneOrder(a: seq<Text>, b: seq<Text>)
    requires Ascending(a) && Ascending(b)
    requires forall k :: k in a <==> k in b
    ensures a == b
    decreases |a|
  {
    if a == [] {
      assert b == [] by {
        if b != [] {
          NoneOf(a, b);
        }
      }
    } else {
      assert a[0] in b && b[0] in a;
      FirstIsLeast(a, b[0]);
      FirstIsLeast(b, a[0]);
      LessIsTotal(a[0], b[0]);
      forall k ensures k in a[1..] <==> k in b[1..] {
        LaterKeys(a, k);
        LaterKeys(b, k);
      }
      OneOrder(a[1..], b[1..]);
      assert a == [a[0]] + a[1..] && b == [b[0]] + b[1..];
    }
  }

  lemma {:induction false} NoneOf(a: seq<Text>, b: seq<Text>)
    requires b != [] && forall k :: k in a <==> k in b
    ensures a != []
  {
    assert b[0] in a;
  }

  lemma {:induction false} FirstIsLeast(keys: seq<Text>, k: Text)
    requires Ascending(keys) && k in keys
    ensures k == keys[0] || Less(keys[0], k)
  {
  }

  lemma {:induction false} LaterKeys(keys: seq<Text>, k: Text)
    requires Ascending(keys) && keys != []
    ensures k in keys[1..] <==> k in keys && k != keys[0]
  {
    LessIsTotal(keys[0], keys[0]);
  }

  // ------------------------------------------------------------------- printing

  /** The keys an object is printed with, in its own order. */
  function DefinedKeys(fields: seq<Field>): (keys: seq<Text>)
    requires Keyed(fields)
    ensures forall k :: k in keys <==> Has(fields, k)
    ensures Distinct(keys)
  {
    if fields == [] then []
    else
      var n := |fields| - 1;
      HasOneMore(fields);
      if fields[n].value.Undefined? then DefinedKeys(fields[..n]) else DefinedKeys(fields[..n]) + [fields[n].key]
  }

  lemma {:induction false} HasOneMore(fields: seq<Field>)
    requires fields != []
    ensures var n := |fields| - 1;
      forall k :: Has(fields, k) <==> Has(fields[..n], k) || (fields[n].key == k && !fields[n].value.Undefined?)
    ensures Keyed(fields) ==> Keyed(fields[..|fields| - 1]) && !Has(fields[..|fields| - 1], fields[|fields| - 1].key)
  {
    var n := |fields| - 1;
    forall k ensures Has(fields, k) <==> Has(fields[..n], k) || (fields[n].key == k && !fields[n].value.Undefined?) {
      if Has(fields[..n], k) {
        var i :| 0 <= i < n && fields[..n][i].key == k && !fields[..n][i].value.Undefined?;
        assert fields[i].key == k;
      }
      if Has(fields, k) {
        var i :| 0 <= i < |fields| && fields[i].key == k && !fields[i].value.Undefined?;
        assert i < n ==> fields[..n][i] == fields[i];
      }
    }
  }

  predicate Has(fields: seq<Field>, key: Text) {
    exists i :: 0 <= i < |fields| && fields[i].key == key && !fields[i].value.Undefined?
  }

  /** An object holds each key once. */
  ghost predicate Keyed(fields: seq<Field>) {
    forall i, j :: 0 <= i < j < |fields| ==> fields[i].key != fields[j].key
  }

  /** Where a key's value stands. */
  function At(fields: seq<Field>, key: Text): (i: nat)
    requires Has(fields, key)
    ensures i < |fields| && fields[i].key == key && !fields[i].value.Undefined?
  {
    if fields[0].key == key && !fields[0].value.Undefined? then 0
    else
      assert Has(fields[1..], key) by {
        var i :| 0 <= i < |fields| && fields[i].key == key && !fields[i].value.Undefined?;
        assert fields[1..][i - 1] == fields[i];
      }
      1 + At(fields[1..], key)
  }

  function Join(parts: seq<Text>): Text {
    if parts == [] then []
    else if |parts| == 1 then parts[0]
    else parts[0] + [COMMA] + Join(parts[1..])
  }

  ghost predicate Valid(v: Value) {
    match v
    case Num(token) => NumberToken(token)
    case Arr(items) => forall i :: 0 <= i < |items| ==> Valid(items[i])
    case Obj(fields) => Keyed(fields) && forall i :: 0 <= i < |fields| ==> Valid(fields[i].value)
    case _ => true
  }

  function Stringify(v: Value): Text
    requires Valid(v)
  {
    match v
    case Arr(items) =>
      [OPEN_ARRAY] + Join(seq(|items|, i requires 0 <= i < |items| => Stringify(items[i]))) + [CLOSE_ARRAY]
    case Obj(fields) =>
      var keys := Sorted(DefinedKeys(fields));
      [OPEN_OBJECT]
      + Join(seq(|keys|, i requires 0 <= i < |keys| =>
        Quote(keys[i], false) + [COLON] + Stringify(fields[At(fields, keys[i])].value)))
      + [CLOSE_OBJECT]
    case Undefined => NULL
    case Null => NULL
    case NonFinite => NULL
    case Bool(truth) => if truth then TRUE else FALSE
    case Num(token) => token
    case Str(text) => Quote(text, false)
  }

  /**
   Two values that mean the same: the same up to the order of an object's keys,
   fields that are undefined, and nothing at all written as undefined, null or a
   number that is not finite.
   */
  ghost predicate Same(a: Value, b: Value) {
    match (a, b)
    case (Bool(x), Bool(y)) => x == y
    case (Num(x), Num(y)) => x == y
    case (Str(x), Str(y)) => x == y
    case (Arr(xs), Arr(ys)) => |xs| == |ys| && forall i :: 0 <= i < |xs| ==> Same(xs[i], ys[i])
    case (Obj(f), Obj(g)) =>
      && (forall k :: Has(f, k) <==> Has(g, k))
      && forall k :: Has(f, k) && Has(g, k) ==> Same(f[At(f, k)].value, g[At(g, k)].value)
    case _ => Nothing(a) && Nothing(b)
  }

  predicate Nothing(v: Value) {
    v.Undefined? || v.Null? || v.NonFinite?
  }

  // ------------------------------------------------------------ what a text says

  /** What a value means: nothing undefined left, every object's members in order. */
  function Meaning(v: Value): (j: Json)
    requires Valid(v)
    ensures ValidJson(j)
  {
    match v
    case Arr(items) => JArr(seq(|items|, i requires 0 <= i < |items| => Meaning(items[i])))
    case Obj(fields) =>
      var keys := Sorted(DefinedKeys(fields));
      JObj(seq(|keys|, i requires 0 <= i < |keys| => Member(keys[i], Meaning(fields[At(fields, keys[i])].value))))
    case Bool(truth) => JBool(truth)
    case Num(token) => JNum(token)
    case Str(text) => JStr(text)
    case _ => JNull
  }

  lemma {:induction false} JoinItems(items: seq<Json>, parts: seq<Text>)
    requires |parts| == |items| && forall i :: 0 <= i < |items| ==> parts[i] == Print(items[i], false)
    ensures Join(parts) == PrintItems(items, false)
  {
    if |items| > 1 {
      JoinItems(items[1..], parts[1..]);
    }
  }

  lemma {:induction false} JoinMembers(members: seq<Member>, parts: seq<Text>)
    requires |parts| == |members| && forall i :: 0 <= i < |members| ==> parts[i] == PrintMember(members[i], false)
    ensures Join(parts) == PrintMembers(members, false)
  {
    if |members| > 1 {
      JoinMembers(members[1..], parts[1..]);
    }
  }

  /** A value is printed as what it means is. */
  lemma {:induction false} MeaningIsPrinted(v: Value)
    requires Valid(v)
    ensures Stringify(v) == Print(Meaning(v), false)
  {
    match v
    case Arr(items) =>
      forall i | 0 <= i < |items| ensures Stringify(items[i]) == Print(Meaning(items[i]), false) {
        MeaningIsPrinted(items[i]);
      }
      JoinItems(Meaning(v).items, seq(|items|, i requires 0 <= i < |items| => Stringify(items[i])));
    case Obj(fields) =>
      var keys := Sorted(DefinedKeys(fields));
      var parts := seq(|keys|, i requires 0 <= i < |keys| =>
        Quote(keys[i], false) + [COLON] + Stringify(fields[At(fields, keys[i])].value));
      forall i | 0 <= i < |keys| ensures parts[i] == PrintMember(Meaning(v).members[i], false) {
        MeaningIsPrinted(fields[At(fields, keys[i])].value);
      }
      JoinMembers(Meaning(v).members, parts);
    case _ =>
  }

  // --------------------------------------------------------- meaning is sameness

  lemma {:induction false} SameIsSameMeaning(a: Value, b: Value)
    requires Valid(a) && Valid(b)
    ensures Same(a, b) <==> Meaning(a) == Meaning(b)
    decreases a, 1
  {
    if a.Arr? && b.Arr? {
      ArraysMean(a, b);
    } else if a.Obj? && b.Obj? {
      ObjectsMean(a, b);
    }
  }

  lemma {:induction false} ArraysMean(a: Value, b: Value)
    requires Valid(a) && Valid(b) && a.Arr? && b.Arr?
    ensures Same(a, b) <==> Meaning(a) == Meaning(b)
    decreases a, 0
  {
    var xs, ys := a.items, b.items;
    var ms, ns := Meaning(a).items, Meaning(b).items;
    if |xs| == |ys| {
      forall i | 0 <= i < |xs| ensures Same(xs[i], ys[i]) <==> ms[i] == ns[i] {
        SameIsSameMeaning(xs[i], ys[i]);
      }
    }
  }

  function FieldOf(a: Value, key: Text): (v: Value)
    requires a.Obj? && Has(a.fields, key)
    ensures v < a && (Valid(a) ==> Valid(v))
  {
    a.fields[At(a.fields, key)].value
  }

  function KeysOf(a: Value): (keys: seq<Text>)
    requires a.Obj? && Valid(a)
    ensures forall k :: k in keys <==> Has(a.fields, k)
  {
    Sorted(DefinedKeys(a.fields))
  }

  lemma {:induction false} MembersOf(a: Value)
    requires a.Obj? && Valid(a)
    ensures Meaning(a).JObj? && |Meaning(a).members| == |KeysOf(a)|
    ensures forall i :: 0 <= i < |KeysOf(a)| ==>
      Has(a.fields, KeysOf(a)[i]) && Meaning(a).members[i] == Member(KeysOf(a)[i], Meaning(FieldOf(a, KeysOf(a)[i])))
  {
    assert forall i :: 0 <= i < |KeysOf(a)| ==> KeysOf(a)[i] in KeysOf(a);
  }

  lemma {:induction false} ObjectsSame(a: Value, b: Value)
    requires a.Obj? && b.Obj?
    ensures Same(a, b) <==>
      && (forall k :: Has(a.fields, k) <==> Has(b.fields, k))
      && forall k :: Has(a.fields, k) && Has(b.fields, k) ==> Same(FieldOf(a, k), FieldOf(b, k))
  {
  }

  lemma {:induction false} SameKeys(a: Value, b: Value)
    requires a.Obj? && b.Obj? && Valid(a) && Valid(b)
    ensures KeysOf(a) == KeysOf(b) <==> forall k :: Has(a.fields, k) <==> Has(b.fields, k)
  {
    var x, y := KeysOf(a), KeysOf(b);
    if forall k :: Has(a.fields, k) <==> Has(b.fields, k) {
      OneOrder(x, y);
    }
  }

  /** Two objects have one meaning when they have the same keys, and each key's values one meaning. */
  lemma {:induction false} SameMembers(a: Value, b: Value)
    requires a.Obj? && b.Obj? && Valid(a) && Valid(b)
    ensures Meaning(a) == Meaning(b) <==>
      && KeysOf(a) == KeysOf(b)
      && forall k :: Has(a.fields, k) && Has(b.fields, k) ==> Meaning(FieldOf(a, k)) == Meaning(FieldOf(b, k))
  {
    hide Meaning, KeysOf, FieldOf, Valid;
    MembersOf(a);
    MembersOf(b);
    var ms, ns := Meaning(a).members, Meaning(b).members;
    if Meaning(a) == Meaning(b) {
      assert forall i :: 0 <= i < |ms| ==> KeysOf(a)[i] == ms[i].key == KeysOf(b)[i];
      assert KeysOf(a) == KeysOf(b);
      forall k | Has(a.fields, k) && Has(b.fields, k) ensures Meaning(FieldOf(a, k)) == Meaning(FieldOf(b, k)) {
        assert k in KeysOf(a);
        var i :| 0 <= i < |ms| && KeysOf(a)[i] == k;
        assert ms[i] == ns[i];
      }
    } else if KeysOf(a) == KeysOf(b) {
      var i :| 0 <= i < |ms| && ms[i] != ns[i];
      assert Has(a.fields, KeysOf(a)[i]) && Has(b.fields, KeysOf(a)[i]);
    }
  }

  lemma {:induction false} ObjectsMean(a: Value, b: Value)
    requires Valid(a) && Valid(b) && a.Obj? && b.Obj?
    ensures Same(a, b) <==> Meaning(a) == Meaning(b)
    decreases a, 0
  {
    hide Same, Meaning, KeysOf, FieldOf, Valid;
    ObjectsSame(a, b);
    SameKeys(a, b);
    SameMembers(a, b);
    forall k | Has(a.fields, k) && Has(b.fields, k)
      ensures Same(FieldOf(a, k), FieldOf(b, k)) <==> Meaning(FieldOf(a, k)) == Meaning(FieldOf(b, k))
    {
      SameIsSameMeaning(FieldOf(a, k), FieldOf(b, k));
    }
  }

  /** What a value means can be read back from its canonical text. */
  lemma {:induction false} TextSaysMeaning(v: Value)
    requires Valid(v)
    ensures Parse(Stringify(v)) == Some(Meaning(v))
  {
    hide Stringify, Print, Parse, Meaning, Valid, ValidJson;
    MeaningIsPrinted(v);
    ParseUndoesPrint(Meaning(v), false);
  }

  /**
   The canonical text is equal exactly for values that mean the same: up to the
   order of keys, undefined fields, and undefined, null and non-finite numbers
   standing for nothing.
   */
  lemma {:induction false} SameTextIsSameMeaning(a: Value, b: Value)
    requires Valid(a) && Valid(b)
    ensures Stringify(a) == Stringify(b) <==> Same(a, b)
  {
    hide Stringify, Print, Parse, Same, Meaning, Valid, ValidJson;
    MeaningIsPrinted(a);
    MeaningIsPrinted(b);
    SameIsSameMeaning(a, b);
    TextSaysMeaning(a);
    TextSaysMeaning(b);
  }

  // ----------------------------------------------------------------- cache keys

  const CRITERION_ID := Ascii("criterionId")
  const CHECKS := Ascii("checks")
  const BASE_SHA := Ascii("baseSha")
  const HEAD_SHA := Ascii("headSha")
  const PLAN_HASH := Ascii("planHash")
  const PROFILE_HASH := Ascii("profileHash")

  /** What a cached result is filed under. */
  datatype KeyParts = KeyParts(
    criterionId: Text,
    checks: seq<Value>,
    baseSha: Text,
    headSha: Text,
    planHash: Text,
    profileHash: Text)

  function KeyValue(p: KeyParts): Value {
    Obj([
      Field(CRITERION_ID, Str(p.criterionId)),
      Field(CHECKS, Arr(p.checks)),
      Field(BASE_SHA, Str(p.baseSha)),
      Field(HEAD_SHA, Str(p.headSha)),
      Field(PLAN_HASH, Str(p.planHash)),
      Field(PROFILE_HASH, Str(p.profileHash))
    ])
  }

  ghost predicate ValidParts(p: KeyParts) {
    forall i :: 0 <= i < |p.checks| ==> Valid(p.checks[i])
  }

  lemma {:induction false} KeysDiffer()
    ensures Distinct([CRITERION_ID, CHECKS, BASE_SHA, HEAD_SHA, PLAN_HASH, PROFILE_HASH])
  {
    assert CRITERION_ID[0] == 0x63 && PROFILE_HASH[0] == 0x70 && BASE_SHA[0] == 0x62 && HEAD_SHA[0] == 0x68;
    assert |CRITERION_ID| == |PROFILE_HASH| == 11 && |CHECKS| == 6 && |BASE_SHA| == |HEAD_SHA| == 7 && |PLAN_HASH| == 8;
  }

  /** The text a key is the digest of. */
  function KeyText(p: KeyParts): Text
    requires ValidParts(p)
  {
    KeyIsValid(p);
    Stringify(KeyValue(p))
  }

  lemma {:induction false} KeyIsValid(p: KeyParts)
    requires ValidParts(p)
    ensures Valid(KeyValue(p))
  {
    KeysDiffer();
    var keys := [CRITERION_ID, CHECKS, BASE_SHA, HEAD_SHA, PLAN_HASH, PROFILE_HASH];
    var fields := KeyValue(p).fields;
    assert forall i :: 0 <= i < 6 ==> fields[i].key == keys[i];
    assert Valid(Arr(p.checks));
  }

  /** The one value under a key. */
  lemma {:induction false} OnlyField(a: Value, i: nat)
    requires a.Obj? && Valid(a) && i < |a.fields| && !a.fields[i].value.Undefined?
    ensures Has(a.fields, a.fields[i].key) && FieldOf(a, a.fields[i].key) == a.fields[i].value
  {
    var j := At(a.fields, a.fields[i].key);
    assert j == i;
  }

  /** Objects of the same keys in the same places mean the same when each place does. */
  lemma {:induction false} FieldwiseSame(a: Value, b: Value)
    requires a.Obj? && b.Obj? && Valid(a) && Valid(b) && |a.fields| == |b.fields|
    requires forall i :: 0 <= i < |a.fields| ==> a.fields[i].key == b.fields[i].key
    requires forall i :: 0 <= i < |a.fields| ==> !a.fields[i].value.Undefined? && !b.fields[i].value.Undefined?
    ensures Same(a, b) <==> forall i :: 0 <= i < |a.fields| ==> Same(a.fields[i].value, b.fields[i].value)
  {
    hide Same, FieldOf, Valid;
    ObjectsSame(a, b);
    forall k ensures Has(a.fields, k) <==> Has(b.fields, k) {}
    forall i | 0 <= i < |a.fields|
      ensures Has(a.fields, a.fields[i].key) && FieldOf(a, a.fields[i].key) == a.fields[i].value
      ensures Has(b.fields, a.fields[i].key) && FieldOf(b, a.fields[i].key) == b.fields[i].value
    {
      OnlyField(a, i);
      OnlyField(b, i);
    }
    forall k | Has(a.fields, k) ensures exists i :: 0 <= i < |a.fields| && a.fields[i].key == k {}
  }

  /**
   Two cache keys are digests of one text exactly when all six parts agree: the
   five texts as they are, the checks in what they mean. So with a digest that
   tells texts apart, a cached result is served only where all its inputs mean the
   same, and a part that moves in meaning always moves the key.
   */
  lemma {:induction false} SameKeyIsSameParts(p: KeyParts, q: KeyParts)
    requires ValidParts(p) && ValidParts(q)
    ensures KeyText(p) == KeyText(q) <==>
      && p.criterionId == q.criterionId && p.baseSha == q.baseSha && p.headSha == q.headSha
      && p.planHash == q.planHash && p.profileHash == q.profileHash
      && Same(Arr(p.checks), Arr(q.checks))
  {
    hide Same, Valid, Stringify;
    KeyIsValid(p);
    KeyIsValid(q);
    var a, b := KeyValue(p), KeyValue(q);
    SameTextIsSameMeaning(a, b);
    FieldwiseSame(a, b);
    SameStrings(p.criterionId, q.criterionId);
    SameStrings(p.baseSha, q.baseSha);
    SameStrings(p.headSha, q.headSha);
    SameStrings(p.planHash, q.planHash);
    SameStrings(p.profileHash, q.profileHash);
    assert a.fields[0].value == Str(p.criterionId) && a.fields[1].value == Arr(p.checks)
      && a.fields[2].value == Str(p.baseSha);
    assert a.fields[3].value == Str(p.headSha) && a.fields[4].value == Str(p.planHash)
      && a.fields[5].value == Str(p.profileHash);
  }

  lemma {:induction false} SameStrings(a: Text, b: Text)
    ensures Same(Str(a), Str(b)) <==> a == b
  {
  }

  // --------------------------------------------------------- profile fingerprint

  const CLIENT := Ascii("client")
  const CLIENT_CONTAINMENT := Ascii("client-egress-cell-v1")
  const COMMAND_CONTAINMENT := Ascii("command-egress-cell-v2")

  /** The text a profile's fingerprint is the digest of: how its results were contained, and what it says. */
  function ProfileText(profile: Value): Text
    requires profile.Obj? && Valid(profile)
  {
    Markers(Has(profile.fields, CLIENT)) + Stringify(profile)
  }

  /** The markers keep no two profiles apart that mean the same and bring no two together that do not. */
  lemma {:induction false} SameProfileTextIsSameProfile(a: Value, b: Value)
    requires a.Obj? && b.Obj? && Valid(a) && Valid(b)
    ensures ProfileText(a) == ProfileText(b) <==> Same(a, b)
  {
    hide Same, Valid, Stringify;
    SameTextIsSameMeaning(a, b);
    ObjectsSame(a, b);
    var p, q := Stringify(a), Stringify(b);
    if Has(a.fields, CLIENT) != Has(b.fields, CLIENT) {
      MarkersDiffer(p, q);
      MarkersDiffer(q, p);
    } else if ProfileText(a) == ProfileText(b) {
      PrefixCancels(Markers(Has(a.fields, CLIENT)), p, q);
    }
  }

  lemma {:induction false} PrefixCancels(p: Text, x: Text, y: Text)
    requires p + x == p + y
    ensures x == y
  {
    assert (p + x)[|p|..] == x && (p + y)[|p|..] == y;
  }

  function Markers(client: bool): Text {
    (if client then CLIENT_CONTAINMENT + [COLON] else []) + COMMAND_CONTAINMENT + [COLON]
  }

  lemma {:induction false} MarkersDiffer(x: Text, y: Text)
    ensures Markers(true) + x != Markers(false) + y
  {
    assert (Markers(true) + x)[1] == 0x6c && (Markers(false) + y)[1] == 0x6f;
  }

  // ---------------------------------------------------------- what is written of what

  /** Position `p` is where two keys part: they agree before it, and there the first ends or has the lesser unit. */
  predicate PartsBelow(a: Text, b: Text, p: int) {
    && 0 <= p <= |a| && p < |b| && (forall i :: 0 <= i < p ==> a[i] == b[i])
    && (p == |a| || a[p] < b[p])
  }

  /** Keys are ordered by their first differing unit, a prefix before what it begins. */
  lemma {:induction false} LessIsByUnit(a: Text, b: Text)
    ensures Less(a, b) <==> exists p :: PartsBelow(a, b, p)
    decreases |a|
  {
    if a == [] || b == [] || a[0] != b[0] {
      if b != [] && (a == [] || a[0] < b[0]) {
        assert PartsBelow(a, b, 0);
      }
    } else {
      LessIsByUnit(a[1..], b[1..]);
      if p :| PartsBelow(a[1..], b[1..], p) {
        assert PartsBelow(a, b, p + 1);
      }
      if p :| PartsBelow(a, b, p) {
        assert p > 0 && PartsBelow(a[1..], b[1..], p - 1);
      }
    }
  }

  /** Field `i` is written as a member of an object: it is not undefined. */
  ghost predicate Writes(fields: seq<Field>, i: int, m: Member) {
    0 <= i < |fields| && !fields[i].value.Undefined? && Valid(fields[i].value)
    && m == Member(fields[i].key, Meaning(fields[i].value))
  }

  /** Some field is written as this member. */
  ghost predicate Written(fields: seq<Field>, m: Member) {
    exists i :: Writes(fields, i, m)
  }

  /** Some member is what this field is written as. */
  ghost predicate IsWritten(fields: seq<Field>, i: int, members: seq<Member>) {
    exists m :: 0 <= m < |members| && Writes(fields, i, members[m])
  }

  /**
   What an object's text has in it: a member for each of its fields that is not undefined
   and for no other, a null written as one included, by rising keys.
   */
  lemma {:induction false} ObjectMeans(fields: seq<Field>)
    requires Valid(Obj(fields))
    ensures Meaning(Obj(fields)).JObj?
    ensures var members := Meaning(Obj(fields)).members;
      && (forall m :: 0 <= m < |members| ==> Written(fields, members[m]))
      && (forall i :: 0 <= i < |fields| && !fields[i].value.Undefined? ==> IsWritten(fields, i, members))
      && (forall l, m :: 0 <= l < m < |members| ==> Less(members[l].key, members[m].key))
  {
    var keys, members := Sorted(DefinedKeys(fields)), Meaning(Obj(fields)).members;
    hide Sorted, Less;
    forall m | 0 <= m < |members| ensures members[m].key == keys[m] && Writes(fields, At(fields, keys[m]), members[m]) {
      assert keys[m] in keys;
      MemberMeans(fields, m);
    }
    hide Meaning;
    forall i | 0 <= i < |fields| && !fields[i].value.Undefined? ensures IsWritten(fields, i, members) {
      OnlyField(Obj(fields), i);
      assert fields[i].key in keys;
      var m :| 0 <= m < |keys| && keys[m] == fields[i].key;
      assert At(fields, keys[m]) == i;
    }
  }

  lemma {:induction false} MemberMeans(fields: seq<Field>, m: nat)
    requires Valid(Obj(fields)) && m < |Sorted(DefinedKeys(fields))|
    ensures var key := Sorted(DefinedKeys(fields))[m];
      Has(fields, key) && Valid(fields[At(fields, key)].value)
      && Meaning(Obj(fields)).members[m] == Member(key, Meaning(fields[At(fields, key)].value))
  {
    assert Sorted(DefinedKeys(fields))[m] in Sorted(DefinedKeys(fields));
  }

  /** A list's text has a member for each item, and what is nothing stands as null in it. */
  lemma {:induction false} ListMeans(items: seq<Value>, i: nat)
    requires Valid(Arr(items)) && i < |items|
    ensures var j := Meaning(Arr(items));
      && j.JArr? && |j.items| == |items| && j.items[i] == Meaning(items[i])
      && (items[i].Undefined? || items[i].Null? || items[i].NonFinite? ==> j.items[i] == JNull)
  {
  }

  ghost predicate HasClient(profile: Value)
    requires profile.Obj?
  {
    exists i :: 0 <= i < |profile.fields| && profile.fields[i].key == Ascii("client")
      && !profile.fields[i].value.Undefined?
  }

  /** The fingerprint of a profile with a client opens with both containment markers, any other's with the one. */
  lemma {:induction false} MarkersStandFirst(profile: Value)
    requires profile.Obj? && Valid(profile)
    ensures var client, command := Ascii("client-egress-cell-v1"), Ascii("command-egress-cell-v2");
      ProfileText(profile) == if HasClient(profile) then client + Ascii(":") + command + Ascii(":") + Stringify(profile)
        else command + Ascii(":") + Stringify(profile)
  {
    assert Ascii(":") == [COLON];
    assert [] + COMMAND_CONTAINMENT == COMMAND_CONTAINMENT;
  }
}
