/** What canonical JSON promises: it can be read back, and it identifies a value up to key order. */
module CanonicalJson {
  import opened Basics
  import opened Numerals
  import opened Json
  import Sorting
  import Utf8

  // ---- reading back what was rendered ----

  lemma ParseEscapeChar(c: char, rest: string)
    requires EscapeChar(c) != [c]
    ensures EscapeChar(c)[0] == '\\'
    ensures ParseEscape(EscapeChar(c)[1..] + rest) == Parsed(c, rest)
  {
    var tail := EscapeChar(c)[1..] + rest;
    if |EscapeChar(c)| == 6 {
      var hi, lo := DigitChar(c as int / 16), DigitChar(c as int % 16);
      assert EscapeChar(c) == ['\\', 'u', '0', '0', hi, lo];
      assert tail[1..5] == ['0', '0', hi, lo];
      assert tail[5..] == rest;
    } else {
      assert |EscapeChar(c)| == 2;
      assert tail[1..] == rest;
    }
  }

  lemma UnescapedChar(c: char)
    requires EscapeChar(c) == [c]
    ensures c != '\"' && c != '\\' && c >= ' '
  {
  }

  lemma ParseEscaped(c: char, more: string, t: string, rest: string)
    requires ParseString(more) == Parsed(t, rest)
    ensures ParseString(EscapeChar(c) + more) == Parsed([c] + t, rest)
  {
    hide EscapeChar, ParseEscape;
    var e := EscapeChar(c);
    if e == [c] {
      UnescapedChar(c);
      assert (e + more)[1..] == more;
    } else {
      ParseEscapeChar(c, more);
      assert (e + more)[1..] == e[1..] + more;
    }
  }

  lemma QuotedShape(s: string)
    ensures s == [] ==> Quoted(s) == "\""
    ensures s != [] ==> Quoted(s) == EscapeChar(s[0]) + Quoted(s[1..])
  {
  }

  lemma ParseClosingQuote(rest: string)
    ensures ParseString("\"" + rest) == Parsed([], rest)
  {
    assert ("\"" + rest)[1..] == rest;
  }

  lemma {:induction false} ParseQuoted(s: string, rest: string)
    ensures ParseString(Quoted(s) + rest) == Parsed(s, rest)
  {
    hide ParseString, Quoted, EscapeChar;
    QuotedShape(s);
    if s == [] {
      ParseClosingQuote(rest);
    } else {
      var more := Quoted(s[1..]) + rest;
      ParseQuoted(s[1..], rest);
      ParseEscaped(s[0], more, s[1..], rest);
      assert (EscapeChar(s[0]) + Quoted(s[1..])) + rest == EscapeChar(s[0]) + more;
      assert s == [s[0]] + s[1..];
    }
  }

  lemma {:induction false} DigitRunStops(a: string, rest: string)
    requires AllDigits(a, 10) && (rest != [] ==> !IsDigit(rest[0], 10))
    ensures DigitRun(a + rest) == |a|
  {
    if a == [] {
      assert a + rest == rest;
    } else {
      assert IsDigit(a[0], 10);
      assert (a + rest)[1..] == a[1..] + rest;
      DigitRunStops(a[1..], rest);
    }
  }

  lemma ParseStr(n: nat, rest: string)
    requires rest != [] ==> !IsDigit(rest[0], 10)
    ensures ParseNat(Str(n) + rest) == Parsed(n, rest)
  {
    var a := Str(n);
    ToTextCanonical(n, 10);
    assert IsDigit(a[0], 10);
    ReadBack(n, 10);
    if a[0] == '0' {
      assert a == "0" && OfText(a, 10) == 0 by { OfTextSnoc([], '0', 10); assert [] + ['0'] == a; }
      assert (a + rest)[1..] == rest;
    } else {
      DigitRunStops(a, rest);
      assert (a + rest)[..|a|] == a && (a + rest)[|a|..] == rest;
    }
  }

  lemma StrFirst(n: nat)
    ensures IsDigit(Str(n)[0], 10)
  {
  }

  lemma ParseNegative(digits: string, n: nat, rest: string)
    requires ParseNat(digits) == Parsed(n, rest)
    ensures ParseInt("-" + digits) == Parsed(0 - n as int, rest)
  {
    assert ("-" + digits)[1..] == digits;
  }

  lemma ParsePositive(digits: string, n: nat, rest: string)
    requires ParseNat(digits) == Parsed(n, rest) && digits != [] && digits[0] != '-'
    ensures ParseInt(digits) == Parsed(n, rest)
  {
  }

  lemma ParseIntText(n: int, rest: string)
    requires rest != [] ==> !IsDigit(rest[0], 10)
    ensures ParseInt(IntText(n) + rest) == Parsed(n, rest)
  {
    hide ParseInt, ParseNat, ToText;
    if n < 0 {
      ParseStr(-n, rest);
      ParseNegative(Str(-n) + rest, -n, rest);
      assert ("-" + Str(-n)) + rest == "-" + (Str(-n) + rest);
    } else {
      ParseStr(n, rest);
      StrFirst(n);
      ParsePositive(Str(n) + rest, n, rest);
    }
  }

  /** No rendered value starts with white space or a closing bracket. */
  lemma FirstChar(v: Json)
    ensures !IsSpace(Render(v)[0]) && Render(v)[0] != ']'
  {
    if v.Int? {
      StrFirst(if v.n < 0 then -v.n else v.n);
    }
  }

  // One lemma for each form of value: how its parts parse says how it parses.

  lemma ParsesAsText(body: string, t: string, rest: string)
    requires ParseString(body) == Parsed(t, rest)
    ensures ParseValue("\"" + body) == Parsed(Text(t), rest)
  {
    hide ParseInt, ParseItems, ParseMembers, ParseString, Literal;
    assert ("\"" + body)[1..] == body;
  }

  lemma NumberStart(c: char)
    requires c == '-' || IsDigit(c, 10)
    ensures !IsSpace(c) && c != 'n' && c != 't' && c != 'f' && c != '\"' && c != '[' && c != '{'
  {
  }

  lemma ParsesAsInt(s: string, n: int, rest: string)
    requires ParseInt(s) == Parsed(n, rest) && s != [] && (s[0] == '-' || IsDigit(s[0], 10))
    ensures ParseValue(s) == Parsed(Int(n), rest)
  {
    hide ParseInt, ParseItems, ParseMembers, ParseString, Literal, IsDigit;
    NumberStart(s[0]);
  }

  lemma ParsesAsArray(body: string, xs: seq<Json>, rest: string)
    requires body != [] && !IsSpace(body[0]) && body[0] != ']'
    requires ParseItems(body) == Parsed(xs, rest)
    ensures ParseValue("[" + body) == Parsed(Arr(xs), rest)
  {
    hide ParseInt, ParseItems, ParseMembers, ParseString, Literal;
    assert ("[" + body)[1..] == body;
  }

  lemma ParsesAsObject(body: string, ms: seq<Member>, rest: string)
    requires Opens(body, '\"')
    requires ParseMembers(body) == Parsed(ms, rest)
    ensures ParseValue("{" + body) == Parsed(Obj(FromPairs(ms)), rest)
  {
    hide ParseInt, ParseItems, ParseMembers, ParseString, Literal, FromPairs;
    assert ("{" + body)[1..] == body;
  }

  lemma ParsesAsLastItem(s: string, x: Json, rest: string)
    requires ParseValue(s) == Parsed(x, "]" + rest)
    ensures ParseItems(s) == Parsed([x], rest)
  {
    hide ParseValue;
    assert ("]" + rest)[1..] == rest;
  }

  lemma ParsesAsMoreItems(s: string, x: Json, more: string, xs: seq<Json>, rest: string)
    requires ParseValue(s) == Parsed(x, "," + more) && ParseItems(more) == Parsed(xs, rest)
    ensures ParseItems(s) == Parsed([x] + xs, rest)
  {
    hide ParseValue;
    assert ("," + more)[1..] == more;
  }

  lemma ParsesAsLastMember(s: string, key: string, text: string, v: Json, rest: string)
    requires ParseString(s) == Parsed(key, ":" + text)
    requires ParseValue(text) == Parsed(v, "}" + rest)
    ensures ParseMembers("\"" + s) == Parsed([Member(key, v)], rest)
  {
    hide ParseValue, ParseString;
    assert ("\"" + s)[1..] == s && (":" + text)[1..] == text && ("}" + rest)[1..] == rest;
  }

  lemma ParsesAsMoreMembers(s: string, key: string, text: string, v: Json, more: string, ms: seq<Member>, rest: string)
    requires ParseString(s) == Parsed(key, ":" + text)
    requires ParseValue(text) == Parsed(v, "," + more)
    requires ParseMembers(more) == Parsed(ms, rest)
    ensures ParseMembers("\"" + s) == Parsed([Member(key, v)] + ms, rest)
  {
    hide ParseValue, ParseString;
    assert ("\"" + s)[1..] == s && (":" + text)[1..] == text && ("," + more)[1..] == more;
  }

  lemma ParsesAsConstant(v: Json, rest: string)
    requires v.Null? || v.Bool? || v == Arr([]) || v == Obj([])
    ensures ParseValue(Render(v) + rest) == Parsed(v, rest)
  {
    var t := Render(v) + rest;
    match v
    case Null => assert t[..4] == "null" && t[4..] == rest;
    case Bool(b) =>
      if b { assert t[..4] == "true" && t[4..] == rest; } else { assert t[..5] == "false" && t[5..] == rest; }
    case Arr(_) => assert t[1..] == "]" + rest && t[1..][1..] == rest;
    case Obj(_) => assert t[1..] == "}" + rest && t[1..][1..] == rest;
  }

  lemma IntStart(n: int, rest: string)
    ensures var s := IntText(n) + rest; s != [] && (s[0] == '-' || IsDigit(s[0], 10))
  {
    StrFirst(if n < 0 then -n else n);
  }

  lemma ItemsStart(xs: seq<Json>, rest: string)
    requires xs != []
    ensures var s := RenderItems(xs) + rest; s != [] && !IsSpace(s[0]) && s[0] != ']'
  {
    hide Render;
    FirstChar(xs[0]);
    assert RenderItems(xs)[0] == Render(xs[0])[0];
  }

  lemma MembersStart(ms: seq<Member>, rest: string)
    requires ms != []
    ensures Opens(RenderMembers(ms) + rest, '\"')
  {
    hide Render, Quoted;
  }

  lemma {:induction false} ParseRendered(v: Json, rest: string)
    requires WellFormed(v)
    requires rest != [] ==> !IsDigit(rest[0], 10)
    ensures ParseValue(Render(v) + rest) == Parsed(v, rest)
    decreases v
  {
    hide ParseValue, ParseMembers, ParseItems, ParseString, ParseInt, Quoted, RenderItems, RenderMembers, IntText,
      ToText, FromPairs, IsDigit;
    if v.Null? || v.Bool? || v == Arr([]) || v == Obj([]) {
      ParsesAsConstant(v, rest);
    } else if v.Int? {
      ParseIntText(v.n, rest);
      IntStart(v.n, rest);
      ParsesAsInt(IntText(v.n) + rest, v.n, rest);
    } else if v.Text? {
      ParseQuoted(v.s, rest);
      ParsesAsText(Quoted(v.s) + rest, v.s, rest);
      assert Render(v) + rest == "\"" + (Quoted(v.s) + rest);
    } else if v.Arr? {
      ItemsStart(v.items, rest);
      ParseRenderedItems(v.items, rest);
      ParsesAsArray(RenderItems(v.items) + rest, v.items, rest);
      assert Render(v) + rest == "[" + (RenderItems(v.items) + rest);
    } else {
      MembersStart(v.members, rest);
      ParseRenderedMembers(v.members, rest);
      ParsesAsObject(RenderMembers(v.members) + rest, v.members, rest);
      FromPairsDistinct(v.members);
      assert Render(v) + rest == "{" + (RenderMembers(v.members) + rest);
    }
  }

  lemma {:induction false} ParseRenderedItems(xs: seq<Json>, rest: string)
    requires xs != [] && forall x <- xs :: WellFormed(x)
    ensures ParseItems(RenderItems(xs) + rest) == Parsed(xs, rest)
    decreases xs
  {
    hide ParseValue, ParseItems;
    var t := RenderItems(xs) + rest;
    if |xs| == 1 {
      ParseRendered(xs[0], "]" + rest);
      assert t == Render(xs[0]) + ("]" + rest);
      ParsesAsLastItem(t, xs[0], rest);
      assert xs == [xs[0]];
    } else {
      var more := RenderItems(xs[1..]) + rest;
      ParseRenderedItems(xs[1..], rest);
      ParseRendered(xs[0], "," + more);
      assert t == Render(xs[0]) + ("," + more);
      ParsesAsMoreItems(t, xs[0], more, xs[1..], rest);
      assert xs == [xs[0]] + xs[1..];
    }
  }

  lemma Reassociate<T>(a: seq<T>, b: seq<T>, c: seq<T>, d: seq<T>, e: seq<T>, rest: seq<T>)
    ensures a + b + c + d + e + rest == a + (b + (c + (d + (e + rest))))
  {
    assert d + e + rest == d + (e + rest);
  }

  lemma RenderMembersShape(ms: seq<Member>, rest: string)
    requires ms != []
    ensures RenderMembers(ms) + rest ==
      "\"" + (Quoted(ms[0].key) + (":" + (Render(ms[0].value) +
        ((if |ms| == 1 then "}" else "," + RenderMembers(ms[1..])) + rest))))
  {
    hide Render, Quoted;
    Reassociate("\"", Quoted(ms[0].key), ":", Render(ms[0].value),
                if |ms| == 1 then "}" else "," + RenderMembers(ms[1..]), rest);
  }

  lemma {:induction false} ParseRenderedMembers(ms: seq<Member>, rest: string)
    requires ms != [] && forall m <- ms :: WellFormed(m.value)
    ensures ParseMembers(RenderMembers(ms) + rest) == Parsed(ms, rest)
    decreases ms
  {
    hide ParseValue, ParseMembers, ParseString, Quoted, Render, RenderMembers;
    var key, v := ms[0].key, ms[0].value;
    assert ms[0] in ms && ms[0] == Member(key, v);
    RenderMembersShape(ms, rest);
    if |ms| == 1 {
      var text := Render(v) + ("}" + rest);
      ParseRendered(v, "}" + rest);
      ParseQuoted(key, ":" + text);
      ParsesAsLastMember(Quoted(key) + (":" + text), key, text, v, rest);
      assert ms == [Member(key, v)];
    } else {
      var more := RenderMembers(ms[1..]) + rest;
      assert ("," + RenderMembers(ms[1..])) + rest == "," + more;
      var text := Render(v) + ("," + more);
      ParseRenderedMembers(ms[1..], rest);
      ParseRendered(v, "," + more);
      ParseQuoted(key, ":" + text);
      ParsesAsMoreMembers(Quoted(key) + (":" + text), key, text, v, more, ms[1..], rest);
      assert ms == [ms[0]] + ms[1..];
    }
  }

  lemma {:induction false} PutNew(ms: seq<Member>, key: string, value: Json)
    requires forall m <- ms :: m.key != key
    ensures Put(ms, key, value) == ms + [Member(key, value)]
  {
    if ms != [] {
      assert ms == [ms[0]] + ms[1..];
      PutNew(ms[1..], key, value);
    }
  }

  lemma {:induction false} FromPairsDistinct(ms: seq<Member>)
    requires DistinctKeys(ms)
    ensures FromPairs(ms) == ms
    decreases |ms|
  {
    if ms != [] {
      var init, last := ms[..|ms| - 1], ms[|ms| - 1];
      FromPairsDistinct(init);
      PutNew(init, last.key, last.value);
      assert ms == init + [last];
    }
  }

  // ---- key order ----

  lemma {:induction false} TextLeTotal(a: string, b: string)
    ensures TextLe(a, b) || TextLe(b, a)
    ensures TextLe(a, b) && TextLe(b, a) ==> a == b
  {
    if a != [] && b != [] {
      TextLeTotal(a[1..], b[1..]);
      assert a == [a[0]] + a[1..] && b == [b[0]] + b[1..];
    }
  }

  lemma {:induction false} TextLeTransitive(a: string, b: string, c: string)
    requires TextLe(a, b) && TextLe(b, c)
    ensures TextLe(a, c)
  {
    if a != [] && a[0] == b[0] == c[0] {
      TextLeTransitive(a[1..], b[1..], c[1..]);
    }
  }

  lemma KeyOrderTotal()
    ensures Sorting.TotalPreorder(KEY_ORDER)
  {
    forall p, q ensures KEY_ORDER(p, q) || KEY_ORDER(q, p) { TextLeTotal(p.key, q.key); }
    forall p, q, r | KEY_ORDER(p, q) && KEY_ORDER(q, r) ensures KEY_ORDER(p, r) {
      TextLeTransitive(p.key, q.key, r.key);
    }
  }

  /** Key-sorted member lists with the same members are the same list. */
  lemma SortedMembersUnique(a: seq<Member>, b: seq<Member>)
    requires Sorting.SortedBy(a, KEY_ORDER) && Sorting.SortedBy(b, KEY_ORDER)
    requires DistinctKeys(a) && DistinctKeys(b)
    requires forall m :: m in a <==> m in b
    ensures a == b
  {
    StrictKeys(a);
    StrictKeys(b);
    Sorting.StrictOrderUnique(a, b, KEY_ORDER);
  }

  lemma StrictKeys(a: seq<Member>)
    requires Sorting.SortedBy(a, KEY_ORDER) && DistinctKeys(a)
    ensures Sorting.StrictlySorted(a, KEY_ORDER)
  {
    forall i, j | 0 <= i < j < |a| ensures KEY_ORDER(a[i], a[j]) && !KEY_ORDER(a[j], a[i]) {
      TextLeTotal(a[i].key, a[j].key);
    }
  }

  // ---- normal forms ----

  /** Permuting members keeps which there are, and keeps keys distinct. */
  lemma PermutedMembers(u: seq<Member>, r: seq<Member>)
    requires multiset(u) == multiset(r)
    ensures forall m :: m in r <==> m in u
    ensures DistinctKeys(u) ==> DistinctKeys(r)
  {
    assert forall m :: m in r <==> m in multiset(r);
    assert forall m :: m in u <==> m in multiset(u);
    if DistinctKeys(u) {
      Sorting.PermutationDistinct(u, r);
      forall i, j | 0 <= i < j < |r| ensures r[i].key != r[j].key {
        assert r[i] in u && r[j] in u;
      }
    }
  }

  /** Sorting the members of an object loses and invents nothing. */
  lemma NormalMembers(ms: seq<Member>)
    ensures var r := Sorting.Sort(NormalizeMembers(ms), KEY_ORDER);
      && Sorting.SortedBy(r, KEY_ORDER)
      && (DistinctKeys(ms) ==> DistinctKeys(r))
      && (forall m :: m in r <==> m in NormalizeMembers(ms))
  {
    hide Sorting.Sort, Sorting.SortedBy, Normalize;
    var u := NormalizeMembers(ms);
    KeyOrderTotal();
    Sorting.SortIsStable(u, KEY_ORDER);
    PermutedMembers(u, Sorting.Sort(u, KEY_ORDER));
    assert DistinctKeys(ms) ==> DistinctKeys(u);
  }

  lemma {:induction false} NormalizeWellFormed(v: Json)
    requires WellFormed(v)
    ensures WellFormed(Normalize(v))
    decreases v
  {
    match v
    case Arr(xs) =>
      forall x | x in NormalizeItems(xs) ensures WellFormed(x) {
        var i :| 0 <= i < |xs| && NormalizeItems(xs)[i] == x;
        NormalizeWellFormed(xs[i]);
      }
    case Obj(ms) =>
      NormalMembers(ms);
      forall m | m in Normalize(v).members ensures WellFormed(m.value) {
        assert m in NormalizeMembers(ms);
        var i :| 0 <= i < |ms| && NormalizeMembers(ms)[i] == m;
        NormalizeWellFormed(ms[i].value);
      }
    case _ =>
  }

  /** Normal forms decide equality of values. */
  lemma {:induction false} NormalizeDecides(a: Json, b: Json)
    requires WellFormed(a) && WellFormed(b)
    ensures Normalize(a) == Normalize(b) <==> SameValue(a, b)
    decreases a, b
  {
    match (a, b)
    case (Arr(xs), Arr(ys)) =>
      forall i | 0 <= i < |xs| && i < |ys|
        ensures Normalize(xs[i]) == Normalize(ys[i]) <==> SameValue(xs[i], ys[i])
      {
        NormalizeDecides(xs[i], ys[i]);
      }
    case (Obj(ms), Obj(ns)) =>
      forall m, n | m in ms && n in ns
        ensures Normalize(m.value) == Normalize(n.value) <==> SameValue(m.value, n.value)
      {
        NormalizeDecides(m.value, n.value);
      }
      ObjectsDecided(ms, ns);
    case _ =>
  }

  lemma ObjectsDecided(ms: seq<Member>, ns: seq<Member>)
    requires DistinctKeys(ms) && DistinctKeys(ns)
    requires forall m, n :: m in ms && n in ns ==>
      (Normalize(m.value) == Normalize(n.value) <==> SameValue(m.value, n.value))
    ensures Normalize(Obj(ms)) == Normalize(Obj(ns)) <==> SameValue(Obj(ms), Obj(ns))
  {
    var a, b := Normalize(Obj(ms)).members, Normalize(Obj(ns)).members;
    NormalMembers(ms);
    NormalMembers(ns);
    SameMembers(ms, ns);
    if a == b {
    } else if forall m :: m in a <==> m in b {
      SortedMembersUnique(a, b);
    }
  }

  function NormalMember(m: Member): Member {
    Member(m.key, Normalize(m.value))
  }

  lemma NormalMemberIn(ms: seq<Member>, x: Member)
    ensures x in NormalizeMembers(ms) <==> exists m <- ms :: x == NormalMember(m)
  {
    if x in NormalizeMembers(ms) {
      var i :| 0 <= i < |ms| && NormalizeMembers(ms)[i] == x;
      assert ms[i] in ms;
    }
  }

  lemma MemberInNormal(m: Member, ns: seq<Member>)
    requires forall n <- ns :: Normalize(m.value) == Normalize(n.value) <==> SameValue(m.value, n.value)
    ensures MemberIn(m, ns) <==> NormalMember(m) in NormalizeMembers(ns)
  {
    hide Normalize, SameValue;
    NormalMemberIn(ns, NormalMember(m));
    if n :| n in ns && NormalMember(m) == NormalMember(n) {
      assert SameValue(m.value, n.value);
    }
  }

  lemma InMemberNormal(ms: seq<Member>, n: Member)
    requires forall m <- ms :: Normalize(m.value) == Normalize(n.value) <==> SameValue(m.value, n.value)
    ensures InMember(ms, n) <==> NormalMember(n) in NormalizeMembers(ms)
  {
    hide Normalize, SameValue;
    NormalMemberIn(ms, NormalMember(n));
    if m :| m in ms && NormalMember(m) == NormalMember(n) {
      assert SameValue(m.value, n.value);
    }
  }

  lemma NormalMembersWithin(ms: seq<Member>, w: seq<Member>)
    ensures (forall m <- ms :: NormalMember(m) in w) <==> (forall x <- NormalizeMembers(ms) :: x in w)
  {
    if forall m <- ms :: NormalMember(m) in w {
      forall x | x in NormalizeMembers(ms) ensures x in w { NormalMemberIn(ms, x); }
    }
    if forall x <- NormalizeMembers(ms) :: x in w {
      forall m | m in ms ensures NormalMember(m) in w { NormalMemberIn(ms, NormalMember(m)); }
    }
  }

  lemma ObjectsSame(ms: seq<Member>, ns: seq<Member>)
    ensures SameValue(Obj(ms), Obj(ns)) <==>
      (forall m <- ms :: MemberIn(m, ns)) && (forall n <- ns :: InMember(ms, n))
  {
    hide MemberIn, InMember;
  }

  lemma SameMembers(ms: seq<Member>, ns: seq<Member>)
    requires forall m, n :: m in ms && n in ns ==>
      (Normalize(m.value) == Normalize(n.value) <==> SameValue(m.value, n.value))
    ensures SameValue(Obj(ms), Obj(ns)) <==>
      forall x :: x in NormalizeMembers(ms) <==> x in NormalizeMembers(ns)
  {
    hide Normalize, NormalizeMembers, MemberIn, InMember, NormalMember, SameValue;
    ObjectsSame(ms, ns);
    forall m | m in ms ensures MemberIn(m, ns) <==> NormalMember(m) in NormalizeMembers(ns) {
      MemberInNormal(m, ns);
    }
    forall n | n in ns ensures InMember(ms, n) <==> NormalMember(n) in NormalizeMembers(ms) {
      InMemberNormal(ms, n);
    }
    NormalMembersWithin(ms, NormalizeMembers(ns));
    NormalMembersWithin(ns, NormalizeMembers(ms));
  }

  // ---- main results ----

  /** Reading canonical bytes back gives the value with its keys sorted. */
  lemma LoadsCanonicalize(v: Json)
    requires WellFormed(v)
    ensures Loads(Canonicalize(v)) == Some(Normalize(v))
  {
    NormalizeWellFormed(v);
    var text := Render(Normalize(v));
    Utf8.DecodeEncode(text);
    ParseRendered(Normalize(v), []);
    assert text + [] == text;
  }

  /** Canonical bytes are equal exactly when the values are, whatever the key insertion order. */
  lemma CanonicalBytesIdentifyValues(a: Json, b: Json)
    requires WellFormed(a) && WellFormed(b)
    ensures Canonicalize(a) == Canonicalize(b) <==> SameValue(a, b)
  {
    LoadsCanonicalize(a);
    LoadsCanonicalize(b);
    NormalizeDecides(a, b);
  }

  /** `get` sees the same members before and after canonicalisation. */
  lemma NormalizedField(v: Json, key: string)
    requires WellFormed(v) && v.Obj?
    ensures Get(Normalize(v).members, key) ==
            match Get(v.members, key) case None => None case Some(x) => Some(Normalize(x))
  {
    var r := Normalize(v).members;
    NormalMembers(v.members);
    GetMember(v.members, key);
    match Get(v.members, key)
    case Some(x) =>
      var i :| 0 <= i < |v.members| && v.members[i] == Member(key, x);
      assert NormalizeMembers(v.members)[i] == Member(key, Normalize(x));
      assert Member(key, Normalize(x)) in r;
      var k :| 0 <= k < |r| && r[k] == Member(key, Normalize(x));
      GetAt(r, k);
    case None =>
      assert forall m <- NormalizeMembers(v.members) :: m.key != key;
      GetMember(r, key);
  }

  lemma {:induction false} GetMember(ms: seq<Member>, key: string)
    ensures match Get(ms, key)
      case Some(x) => Member(key, x) in ms
      case None => forall m <- ms :: m.key != key
  {
    if ms != [] && ms[0].key != key {
      GetMember(ms[1..], key);
    }
  }

  lemma {:induction false} GetAt(ms: seq<Member>, i: nat)
    requires DistinctKeys(ms) && i < |ms|
    ensures Get(ms, ms[i].key) == Some(ms[i].value)
  {
    if i > 0 {
      GetAt(ms[1..], i - 1);
    }
  }

  // ---- reading JSON that was not written here ----

  /** The value of the last pair with a key, if there is one. */
  function LastValue(pairs: seq<Member>, key: string): Option<Json> {
    if pairs == [] then None
    else if pairs[|pairs| - 1].key == key then Some(pairs[|pairs| - 1].value)
    else LastValue(pairs[..|pairs| - 1], key)
  }

  lemma {:induction false} GetPut(ms: seq<Member>, key: string, value: Json, other: string)
    ensures Get(Put(ms, key, value), other) == if other == key then Some(value) else Get(ms, other)
  {
    if ms != [] && ms[0].key != key {
      GetPut(ms[1..], key, value, other);
    }
  }

  lemma {:induction false} PutPresentKeeps(ms: seq<Member>, key: string, value: Json)
    requires Get(ms, key).Some?
    ensures |Put(ms, key, value)| == |ms|
    ensures forall i :: 0 <= i < |ms| ==> Put(ms, key, value)[i].key == ms[i].key
  {
    if ms[0].key != key {
      PutPresentKeeps(ms[1..], key, value);
    }
  }

  lemma PutDistinct(ms: seq<Member>, key: string, value: Json)
    requires DistinctKeys(ms)
    ensures DistinctKeys(Put(ms, key, value))
  {
    hide Put, Get;
    GetMember(ms, key);
    if Get(ms, key).Some? {
      PutPresentKeeps(ms, key, value);
    } else {
      PutNew(ms, key, value);
    }
  }

  /** Of repeated keys in a JSON object the last one counts, and the dict has each key once. */
  lemma {:induction false} LastPairWins(pairs: seq<Member>, key: string)
    ensures Get(FromPairs(pairs), key) == LastValue(pairs, key)
    ensures DistinctKeys(FromPairs(pairs))
    decreases |pairs|
  {
    if pairs != [] {
      var init, last := pairs[..|pairs| - 1], pairs[|pairs| - 1];
      LastPairWins(init, key);
      GetPut(FromPairs(init), last.key, last.value, key);
      PutDistinct(FromPairs(init), last.key, last.value);
    }
  }

  /** White space in front of a value does not matter. */
  lemma {:induction false} SpaceSkipped(space: string, s: string)
    requires forall i :: 0 <= i < |space| ==> IsSpace(space[i])
    ensures ParseValue(space + s) == ParseValue(s)
  {
    SkipsSpace(space, s);
  }

  lemma {:induction false} SkipsSpace(space: string, s: string)
    requires forall i :: 0 <= i < |space| ==> IsSpace(space[i])
    ensures SkipSpace(space + s) == SkipSpace(s)
  {
    if space == [] {
      assert space + s == s;
    } else {
      assert (space + s)[1..] == space[1..] + s;
      SkipsSpace(space[1..], s);
    }
  }

  /** A \u escape stands for the character of that code, in either letter case. */
  lemma EscapeRead(digits: string, rest: string)
    requires |digits| == 4 && AllDigits(digits, 16)
    ensures HexQuad(digits) == OfText(digits, 16)
    ensures var code := OfText(digits, 16);
      ParseEscape("u" + digits + rest) ==
        if 0xD800 <= code < 0xE000 || code >= 0x10000 then NoParse else Parsed(code as char, rest)
  {
    var s := "u" + digits + rest;
    assert s[1..5] == digits && s[5..] == rest;
    assert digits[..3][..2][..1][..0] == [];
    assert digits[..3][..2] == digits[..2] && digits[..2][..1] == digits[..1] && digits[..1][..0] == [];
    assert forall i :: 0 <= i < 4 ==> IsDigit(digits[i], 16);
    assert OfText(digits[..1], 16) == DigitValue(digits[0]);
    assert OfText(digits[..2], 16) == 16 * OfText(digits[..1], 16) + DigitValue(digits[1]);
    assert OfText(digits[..3], 16) == 16 * OfText(digits[..2], 16) + DigitValue(digits[2]);
  }

  /** The eight short escapes. */
  lemma ShortEscapes(rest: string)
    ensures ParseEscape("\"" + rest) == Parsed('\"', rest) && ParseEscape("\\" + rest) == Parsed('\\', rest)
    ensures ParseEscape("/" + rest) == Parsed('/', rest) && ParseEscape("b" + rest) == Parsed('\U{08}', rest)
    ensures ParseEscape("f" + rest) == Parsed('\U{0C}', rest) && ParseEscape("n" + rest) == Parsed('\n', rest)
    ensures ParseEscape("r" + rest) == Parsed('\r', rest) && ParseEscape("t" + rest) == Parsed('\t', rest)
  {
    assert forall c: char :: ([c] + rest)[1..] == rest;
    assert ("\"" + rest)[1..] == rest && ("\\" + rest)[1..] == rest && ("/" + rest)[1..] == rest;
    assert ("b" + rest)[1..] == rest && ("f" + rest)[1..] == rest && ("n" + rest)[1..] == rest;
    assert ("r" + rest)[1..] == rest && ("t" + rest)[1..] == rest;
  }
}
