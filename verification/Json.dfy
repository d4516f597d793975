/**
 JSON as the Python program holds it: a `dict` is a list of members in insertion order with
 distinct keys.  `Canonicalize` is `json.dumps(..., ensure_ascii=False, sort_keys=True,
 separators=(",", ":"))` followed by UTF-8 encoding; `Loads` is `json.loads` on bytes.
 */
module Json {
  import opened Basics
  import opened Numerals
  import Sorting
  import Utf8

  datatype Json =
    | Null
    | Bool(b: bool)
    | Int(n: int)
    | Text(s: string)
    | Arr(items: seq<Json>)
    | Obj(members: seq<Member>)

  datatype Member = Member(key: string, value: Json)

  // ---- dictionaries ----

  function Get(ms: seq<Member>, key: string): Option<Json> {
    if ms == [] then None else if ms[0].key == key then Some(ms[0].value) else Get(ms[1..], key)
  }

  /** `d[key] = value`: an existing key keeps its place. */
  function Put(ms: seq<Member>, key: string, value: Json): seq<Member> {
    if ms == [] then [Member(key, value)]
    else if ms[0].key == key then [Member(key, value)] + ms[1..]
    else [ms[0]] + Put(ms[1..], key, value)
  }

  /** The dictionary built from pairs in order: the last value for a key wins. */
  function FromPairs(pairs: seq<Member>): seq<Member> {
    if pairs == [] then []
    else Put(FromPairs(pairs[..|pairs| - 1]), pairs[|pairs| - 1].key, pairs[|pairs| - 1].value)
  }

  predicate DistinctKeys(ms: seq<Member>) {
    forall i, j :: 0 <= i < j < |ms| ==> ms[i].key != ms[j].key
  }

  /** `v.get(key)` on a dict, with `None` for an absent key. */
  function Field(v: Json, key: string): Json {
    if v.Obj? && Get(v.members, key).Some? then Get(v.members, key).value else Null
  }

  /** Python truthiness. */
  predicate Truthy(v: Json) {
    match v
    case Null => false
    case Bool(b) => b
    case Int(n) => n != 0
    case Text(s) => s != ""
    case Arr(xs) => xs != []
    case Obj(ms) => ms != []
  }

  /** Every dictionary inside `v` has distinct keys, as every Python dict does. */
  predicate WellFormed(v: Json)
    decreases v
  {
    match v
    case Arr(xs) => forall x <- xs :: WellFormed(x)
    case Obj(ms) => DistinctKeys(ms) && forall m <- ms :: WellFormed(m.value)
    case _ => true
  }

  /**
   Equality of JSON values: arrays are equal position by position, objects when they have the
   same members in whatever order.
   */
  ghost predicate SameValue(a: Json, b: Json)
    decreases a, b
  {
    match (a, b)
    case (Arr(xs), Arr(ys)) => |xs| == |ys| && forall i :: 0 <= i < |xs| ==> SameValue(xs[i], ys[i])
    case (Obj(ms), Obj(ns)) => (forall m <- ms :: MemberIn(m, ns)) && (forall n <- ns :: InMember(ms, n))
    case _ => a == b
  }

  /** Some member of `ns` has the key and the value of `m`. */
  ghost predicate MemberIn(m: Member, ns: seq<Member>)
    decreases m, ns
  {
    exists n <- ns :: m.key == n.key && SameValue(m.value, n.value)
  }

  ghost predicate InMember(ms: seq<Member>, n: Member)
    decreases ms, n
  {
    exists m <- ms :: m.key == n.key && SameValue(m.value, n.value)
  }

  // ---- serialisation ----

  /** Python compares strings by code point, lexicographically. */
  predicate TextLe(a: string, b: string) {
    a == [] || (b != [] && (a[0] < b[0] || (a[0] == b[0] && TextLe(a[1..], b[1..]))))
  }

  predicate KeyLe(p: Member, q: Member) {
    TextLe(p.key, q.key)
  }

  const KEY_ORDER: (Member, Member) -> bool := (p, q) => KeyLe(p, q)

  /** `sort_keys=True` applied at every level. */
  function Normalize(v: Json): Json
    decreases v
  {
    match v
    case Arr(xs) => Arr(NormalizeItems(xs))
    case Obj(ms) => Obj(Sorting.Sort(NormalizeMembers(ms), KEY_ORDER))
    case _ => v
  }

  function NormalizeItems(xs: seq<Json>): (r: seq<Json>)
    ensures |r| == |xs|
    ensures forall i :: 0 <= i < |xs| ==> r[i] == Normalize(xs[i])
    decreases xs
  {
    if xs == [] then [] else [Normalize(xs[0])] + NormalizeItems(xs[1..])
  }

  function NormalizeMembers(ms: seq<Member>): (r: seq<Member>)
    ensures |r| == |ms|
    ensures forall i :: 0 <= i < |ms| ==> r[i] == Member(ms[i].key, Normalize(ms[i].value))
    decreases ms
  {
    if ms == [] then [] else [Member(ms[0].key, Normalize(ms[0].value))] + NormalizeMembers(ms[1..])
  }

  function IntText(n: int): string {
    if n < 0 then "-" + Str(-n) else Str(n)
  }

  function EscapeChar(c: char): (e: string)
    ensures e != []
  {
    if c == '\"' then "\\\""
    else if c == '\\' then "\\\\"
    else if c == '\U{08}' then "\\b"
    else if c == '\U{0C}' then "\\f"
    else if c == '\n' then "\\n"
    else if c == '\r' then "\\r"
    else if c == '\t' then "\\t"
    else if c < ' ' then "\\u00" + [DigitChar(c as int / 16), DigitChar(c as int % 16)]
    else [c]
  }

  /** The string body and its closing quote. */
  function Quoted(s: string): string {
    if s == [] then "\"" else EscapeChar(s[0]) + Quoted(s[1..])
  }

  function Render(v: Json): (t: string)
    ensures t != []
    decreases v
  {
    match v
    case Null => "null"
    case Bool(b) => if b then "true" else "false"
    case Int(n) => IntText(n)
    case Text(s) => "\"" + Quoted(s)
    case Arr(xs) => if xs == [] then "[]" else "[" + RenderItems(xs)
    case Obj(ms) => if ms == [] then "{}" else "{" + RenderMembers(ms)
  }

  /** Comma-separated items and the closing bracket. */
  function RenderItems(xs: seq<Json>): string
    requires xs != []
    decreases xs
  {
    Render(xs[0]) + (if |xs| == 1 then "]" else "," + RenderItems(xs[1..]))
  }

  function RenderMembers(ms: seq<Member>): string
    requires ms != []
    decreases ms
  {
    "\"" + Quoted(ms[0].key) + ":" + Render(ms[0].value) + (if |ms| == 1 then "}" else "," + RenderMembers(ms[1..]))
  }

  function Canonicalize(v: Json): Bytes {
    Utf8.Encode(Render(Normalize(v)))
  }

  // ---- parsing: sections 2 to 7 of RFC 8259, without fractions and exponents ----

  datatype Parsed<+T> = NoParse | Parsed(value: T, rest: string)

  predicate Opens(s: string, c: char) {
    s != [] && s[0] == c
  }

  function Literal(s: string, word: string, v: Json): (r: Parsed<Json>)
    ensures r.Parsed? ==> |r.rest| + |word| == |s|
  {
    if StartsWith(s, word) then Parsed(v, s[|word|..]) else NoParse
  }

  predicate IsSpace(c: char) {
    c == ' ' || c == '\t' || c == '\n' || c == '\r'
  }

  function SkipSpace(s: string): (r: string)
    ensures |r| <= |s|
    ensures s == [] || !IsSpace(s[0]) ==> r == s
  {
    if s != [] && IsSpace(s[0]) then SkipSpace(s[1..]) else s
  }

  /** The longest prefix of decimal digits. */
  function DigitRun(s: string): (n: nat)
    ensures n <= |s|
    ensures AllDigits(s[..n], 10)
    ensures n < |s| ==> !IsDigit(s[n], 10)
  {
    if s != [] && IsDigit(s[0], 10) then 1 + DigitRun(s[1..]) else 0
  }

  function ParseNat(s: string): (r: Parsed<nat>)
    ensures r.Parsed? ==> |r.rest| < |s|
  {
    if s == [] || !IsDigit(s[0], 10) then NoParse
    else if s[0] == '0' then Parsed(0, s[1..])
    else Parsed(OfText(s[..DigitRun(s)], 10), s[DigitRun(s)..])
  }

  function ParseInt(s: string): (r: Parsed<int>)
    ensures r.Parsed? ==> |r.rest| < |s|
  {
    if Opens(s, '-') then
      match ParseNat(s[1..])
      case NoParse => NoParse
      case Parsed(n, rest) => Parsed(0 - n as int, rest)
    else
      match ParseNat(s)
      case NoParse => NoParse
      case Parsed(n, rest) => Parsed(n, rest)
  }

  /** The character after a backslash; a four-digit escape must name a scalar value. */
  function ParseEscape(s: string): (r: Parsed<char>)
    ensures r.Parsed? ==> |r.rest| < |s|
  {
    if s == [] then NoParse
    else if s[0] == '\"' || s[0] == '\\' || s[0] == '/' then Parsed(s[0], s[1..])
    else if s[0] == 'b' then Parsed('\U{08}', s[1..])
    else if s[0] == 'f' then Parsed('\U{0C}', s[1..])
    else if s[0] == 'n' then Parsed('\n', s[1..])
    else if s[0] == 'r' then Parsed('\r', s[1..])
    else if s[0] == 't' then Parsed('\t', s[1..])
    else if s[0] == 'u' && |s| >= 5 && AllDigits(s[1..5], 16) then
      var code := HexQuad(s[1..5]);
      if 0xD800 <= code < 0xE000 then NoParse else Parsed(code as char, s[5..])
    else NoParse
  }

  function HexQuad(s: string): (v: nat)
    requires |s| == 4 && AllDigits(s, 16)
    ensures v < 0x10000
  {
    assert forall i :: 0 <= i < 4 ==> IsDigit(s[i], 16);
    4096 * DigitValue(s[0]) + 256 * DigitValue(s[1]) + 16 * DigitValue(s[2]) + DigitValue(s[3])
  }

  /** The body of a string after its opening quote. */
  function ParseString(s: string): (r: Parsed<string>)
    ensures r.Parsed? ==> |r.rest| < |s|
    decreases |s|
  {
    if s == [] then NoParse
    else if s[0] == '\"' then Parsed([], s[1..])
    else if s[0] < ' ' then NoParse
    else
      var head := if s[0] == '\\' then ParseEscape(s[1..]) else Parsed(s[0], s[1..]);
      if head.NoParse? then NoParse
      else
        match ParseString(head.rest)
        case NoParse => NoParse
        case Parsed(t, rest) => Parsed([head.value] + t, rest)
  }

  function ParseValue(text: string): (r: Parsed<Json>)
    ensures r.Parsed? ==> |r.rest| < |text|
    decreases |text|, 2
  {
    var s := SkipSpace(text);
    if Opens(s, 'n') then Literal(s, "null", Null)
    else if Opens(s, 't') then Literal(s, "true", Bool(true))
    else if Opens(s, 'f') then Literal(s, "false", Bool(false))
    else if Opens(s, '\"') then
      match ParseString(s[1..])
      case NoParse => NoParse
      case Parsed(t, rest) => Parsed(Text(t), rest)
    else if Opens(s, '[') then
      if Opens(SkipSpace(s[1..]), ']') then Parsed(Arr([]), SkipSpace(s[1..])[1..])
      else
        match ParseItems(s[1..])
        case NoParse => NoParse
        case Parsed(xs, rest) => Parsed(Arr(xs), rest)
    else if Opens(s, '{') then
      if Opens(SkipSpace(s[1..]), '}') then Parsed(Obj([]), SkipSpace(s[1..])[1..])
      else
        match ParseMembers(s[1..])
        case NoParse => NoParse
        case Parsed(ms, rest) => Parsed(Obj(FromPairs(ms)), rest)
    else
      match ParseInt(s)
      case NoParse => NoParse
      case Parsed(n, rest) => Parsed(Int(n), rest)
  }

  function ParseItems(s: string): (r: Parsed<seq<Json>>)
    ensures r.Parsed? ==> |r.rest| < |s|
    decreases |s|, 3
  {
    match ParseValue(s)
    case NoParse => NoParse
    case Parsed(x, after) =>
      var t := SkipSpace(after);
      if Opens(t, ']') then Parsed([x], t[1..])
      else if Opens(t, ',') then
        match ParseItems(t[1..])
        case NoParse => NoParse
        case Parsed(xs, rest) => Parsed([x] + xs, rest)
      else NoParse
  }

  function ParseMembers(text: string): (r: Parsed<seq<Member>>)
    ensures r.Parsed? ==> |r.rest| < |text|
    decreases |text|, 3
  {
    var s := SkipSpace(text);
    if !Opens(s, '\"') then NoParse
    else
      match ParseString(s[1..])
      case NoParse => NoParse
      case Parsed(key, afterKey) =>
        var colon := SkipSpace(afterKey);
        if !Opens(colon, ':') then NoParse
        else
          match ParseValue(colon[1..])
          case NoParse => NoParse
          case Parsed(v, after) =>
            var t := SkipSpace(after);
            if Opens(t, '}') then Parsed([Member(key, v)], t[1..])
            else if Opens(t, ',') then
              match ParseMembers(t[1..])
              case NoParse => NoParse
              case Parsed(ms, rest) => Parsed([Member(key, v)] + ms, rest)
            else NoParse
  }

  function Loads(b: Bytes): Option<Json> {
    match Utf8.Decode(b)
    case None => None
    case Some(text) =>
      match ParseValue(text)
      case NoParse => None
      case Parsed(v, rest) => if SkipSpace(rest) == [] then Some(v) else None
  }
}
