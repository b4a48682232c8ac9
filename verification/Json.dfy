/**
 * JSON text (RFC 8259) as `JSON.stringify` prints it and `JSON.parse` reads it (section 25.5 of ECMA-262).
 * Strings are sequences of Unicode scalar values. An integral number is kept as its value, any other number as
 * its exact decimal `m * 10^-scale` in lowest terms.
 */
module Json {
  import opened Wrappers
  import opened Decimal
  import opened Seqs

  datatype Json =
    | Null
    | Bool(b: bool)
    | Int(n: int)
    | Frac(m: int, scale: nat)
    | Str(s: string)
    | Arr(items: seq<Json>)
    | Obj(members: seq<Member>)

  datatype Member = Member(key: string, value: Json)

  predicate DistinctKeys(ms: seq<Member>) {
    forall i, j :: 0 <= i < j < |ms| ==> ms[i].key != ms[j].key
  }

  /** A value the program can hold: object keys are unique and numbers are in lowest terms. */
  predicate Safe(v: Json) {
    match v
    case Frac(m, scale) => scale > 0 && m % 10 != 0
    case Arr(items) => forall i :: 0 <= i < |items| ==> Safe(items[i])
    case Obj(ms) => SafeMembers(ms)
    case _ => true
  }

  predicate SafeMembers(ms: seq<Member>) {
    DistinctKeys(ms) && forall i :: 0 <= i < |ms| ==> Safe(ms[i].value)
  }

  /** The value of a member, or nothing: `undefined` on a missing key. */
  function Find(ms: seq<Member>, key: string): (r: Option<Json>)
    ensures r.None? <==> forall i :: 0 <= i < |ms| ==> ms[i].key != key
    ensures r.Some? ==> exists i :: 0 <= i < |ms| && ms[i] == Member(key, r.value)
  {
    if ms == [] then None
    else if ms[0].key == key then Some(ms[0].value)
    else Find(ms[1..], key)
  }

  function Get(v: Json, key: string): Option<Json> {
    if v.Obj? then Find(v.members, key) else None
  }

  lemma SafeMember(v: Json, key: string)
    requires Safe(v) && Get(v, key).Some?
    ensures Safe(Get(v, key).value)
    ensures Get(v, key).value.Obj? ==> DistinctKeys(Get(v, key).value.members)
  {
    var r := Get(v, key).value;
    assert Safe(r);
    assert r.Obj? ==> SafeMembers(r.members);
  }

  lemma {:induction false} FindAppend(a: seq<Member>, b: seq<Member>, key: string)
    ensures Find(a + b, key) == if Find(a, key).Some? then Find(a, key) else Find(b, key)
  {
    if a == [] {
      NoLeft(b);
    } else {
      TailAppend(a, b);
      FindAppend(a[1..], b, key);
    }
  }

  lemma FindAt(ms: seq<Member>, i: nat)
    requires DistinctKeys(ms) && i < |ms|
    ensures Find(ms, ms[i].key) == Some(ms[i].value)
  {
    var r := Find(ms, ms[i].key);
    if r.Some? {
      var k :| 0 <= k < |ms| && ms[k] == Member(ms[i].key, r.value);
      assert k == i;
    }
  }

  // ----- JSON.stringify -----

  function HexDigit(d: nat): char
    requires d < 16
  {
    if d < 10 then DigitChar(d) else ('a' as int + (d - 10)) as char
  }

  function EscapeChar(c: char): string {
    var n := c as int;
    if n == 0x22 then "\\\""
    else if n == 0x5C then "\\\\"
    else if n == 0x08 then "\\b"
    else if n == 0x0C then "\\f"
    else if n == 0x0A then "\\n"
    else if n == 0x0D then "\\r"
    else if n == 0x09 then "\\t"
    else if n < 0x20 then "\\u00" + [HexDigit(n / 16), HexDigit(n % 16)]
    else [c]
  }

  function Escape(s: string): string {
    if s == "" then "" else EscapeChar(s[0]) + Escape(s[1..])
  }

  function Quote(s: string): string {
    "\"" + Escape(s) + "\""
  }

  function Zeros(k: nat): string {
    seq(k, _ => '0')
  }

  function PrintInt(n: int): string {
    (if n < 0 then "-" else "") + Show(if n < 0 then -n else n)
  }

  /** At least one digit more than `scale`. */
  function Padded(a: nat, scale: nat): (padded: string)
    ensures |padded| > scale
  {
    var ds := Show(a);
    Zeros(if |ds| <= scale then scale + 1 - |ds| else 0) + ds
  }

  function Pointed(neg: bool, digits: string, scale: nat): string
    requires scale < |digits|
  {
    (if neg then "-" else "") + digits[..|digits| - scale] + "." + digits[|digits| - scale..]
  }

  function PrintFrac(m: int, scale: nat): string {
    Pointed(m < 0, Padded(if m < 0 then -m else m, scale), scale)
  }

  function Print(v: Json): string
    decreases v
  {
    match v
    case Null => "null"
    case Bool(b) => if b then "true" else "false"
    case Int(n) => PrintInt(n)
    case Frac(m, k) => PrintFrac(m, k)
    case Str(s) => Quote(s)
    case Arr(items) => "[" + PrintItems(items) + "]"
    case Obj(ms) => "{" + PrintMembers(ms) + "}"
  }

  function PrintItems(items: seq<Json>): string
    decreases items
  {
    if items == [] then ""
    else if |items| == 1 then Print(items[0])
    else Print(items[0]) + "," + PrintItems(items[1..])
  }

  function PrintMembers(ms: seq<Member>): string
    decreases ms
  {
    if ms == [] then ""
    else if |ms| == 1 then Quote(ms[0].key) + ":" + Print(ms[0].value)
    else Quote(ms[0].key) + ":" + Print(ms[0].value) + "," + PrintMembers(ms[1..])
  }

  // ----- JSON.parse -----

  datatype Parsed<+T> = Bad | Parsed(value: T, rest: string)

  predicate IsJsonSpace(c: char) {
    c == ' ' || c == '\t' || c == '\n' || c == '\r'
  }

  function SkipSpace(s: string): (r: string)
    ensures |r| <= |s|
    ensures r == "" || !IsJsonSpace(r[0])
  {
    if s != "" && IsJsonSpace(s[0]) then SkipSpace(s[1..]) else s
  }

  function HexValue(c: char): Option<nat> {
    if IsDigit(c) then Some(DigitValue(c))
    else if 'a' <= c <= 'f' then Some((c as int) - ('a' as int) + 10)
    else if 'A' <= c <= 'F' then Some((c as int) - ('A' as int) + 10)
    else None
  }

  function Hex4(s: string): Option<nat> {
    if |s| < 4 then None
    else
      match (HexValue(s[0]), HexValue(s[1]), HexValue(s[2]), HexValue(s[3]))
      case (Some(a), Some(b), Some(c), Some(d)) => Some(a * 4096 + b * 256 + c * 16 + d)
      case _ => None
  }

  /** What follows `\u`: one scalar value, or a surrogate pair spelled as two escapes. */
  function ParseUnicodeEscape(s: string): (r: Parsed<char>)
    ensures r.Parsed? ==> |r.rest| < |s|
  {
    match Hex4(s)
    case None => Bad
    case Some(u) =>
      if u < 0xD800 || 0xE000 <= u < 0x10000 then Parsed(u as char, s[4..])
      else if u < 0xDC00 && |s| >= 10 && s[4..6] == "\\u" then
        match Hex4(s[6..])
        case None => Bad
        case Some(l) =>
          if 0xDC00 <= l < 0xE000 then
            Parsed((0x10000 + (u - 0xD800) * 0x400 + (l - 0xDC00)) as char, s[10..])
          else Bad
      else Bad
  }

  /** One character of a string body, escaped or not. */
  function ParseChar(s: string): (r: Parsed<char>)
    requires s != ""
    ensures r.Parsed? ==> |r.rest| < |s|
  {
    if s[0] == '\\' then
      if |s| == 1 then Bad
      else
        match s[1]
        case '"' => Parsed('"', s[2..])
        case '\\' => Parsed('\\', s[2..])
        case '/' => Parsed('/', s[2..])
        case 'b' => Parsed(8 as char, s[2..])
        case 'f' => Parsed(12 as char, s[2..])
        case 'n' => Parsed('\n', s[2..])
        case 'r' => Parsed('\r', s[2..])
        case 't' => Parsed('\t', s[2..])
        case 'u' => ParseUnicodeEscape(s[2..])
        case _ => Bad
    else if s[0] as int < 0x20 then Bad
    else Parsed(s[0], s[1..])
  }

  /** The body of a string, after its opening quote. */
  function ParseChars(s: string): (r: Parsed<string>)
    ensures r.Parsed? ==> |r.rest| < |s|
    decreases |s|
  {
    if s == "" then Bad
    else if s[0] == '"' then Parsed("", s[1..])
    else
      match ParseChar(s)
      case Bad => Bad
      case Parsed(c, rest) =>
        match ParseChars(rest)
        case Bad => Bad
        case Parsed(cs, rest') => Parsed([c] + cs, rest')
  }

  function TakeDigits(s: string): (r: (string, string))
    ensures s == r.0 + r.1 && AllDigits(r.0)
    ensures r.1 == "" || !IsDigit(r.1[0])
  {
    if s != "" && IsDigit(s[0]) then
      var (ds, rest) := TakeDigits(s[1..]);
      ([s[0]] + ds, rest)
    else ("", s)
  }

  function Signed(neg: bool, m: int): int {
    if neg then -m else m
  }

  function Reduce(neg: bool, m: nat, scale: nat): (v: Json)
    ensures (v.Int? || v.Frac?) && Safe(v)
    decreases scale
  {
    if scale == 0 then Int(Signed(neg, m))
    else if m % 10 == 0 then Reduce(neg, m / 10, scale - 1)
    else Frac(Signed(neg, m), scale)
  }

  function Shifted(m: nat, k: nat): nat
    decreases k
  {
    if k == 0 then m else Shifted(m * 10, k - 1)
  }

  function Scaled(neg: bool, m: nat, exponent: int): (v: Json)
    ensures (v.Int? || v.Frac?) && Safe(v)
  {
    if exponent >= 0 then Int(Signed(neg, Shifted(m, exponent))) else Reduce(neg, m, -exponent)
  }

  /** The optional `.digits`. */
  function ParseFraction(s: string): (r: Parsed<string>)
    ensures r.Parsed? ==> |r.rest| <= |s| && AllDigits(r.value)
  {
    if s != "" && s[0] == '.' then
      var (ds, rest) := TakeDigits(s[1..]);
      if ds == "" then Bad else Parsed(ds, rest)
    else Parsed("", s)
  }

  /** The optional exponent. */
  function ParseExponent(s: string): (r: Parsed<int>)
    ensures r.Parsed? ==> |r.rest| <= |s|
  {
    if s != "" && (s[0] == 'e' || s[0] == 'E') then
      var signed := |s| > 1 && (s[1] == '+' || s[1] == '-');
      var (ds, rest) := TakeDigits(if signed then s[2..] else s[1..]);
      if ds == "" then Bad
      else Parsed(Signed(signed && s[1] == '-', Read(ds)), rest)
    else Parsed(0, s)
  }

  /** The number with these digits before and after its point, and this exponent. */
  function Assembled(neg: bool, ds: string, fs: string, e: int): (v: Json)
    requires AllDigits(ds) && AllDigits(fs)
    ensures (v.Int? || v.Frac?) && Safe(v)
  {
    Scaled(neg, Read(ds + fs), e - |fs|)
  }

  /** What may follow the whole part of a number. */
  function FinishNumber(neg: bool, ds: string, s: string): (r: Parsed<Json>)
    requires AllDigits(ds)
    ensures r.Parsed? ==> |r.rest| <= |s| && (r.value.Int? || r.value.Frac?) && Safe(r.value)
  {
    match ParseFraction(s)
    case Bad => Bad
    case Parsed(fs, rest) =>
      match ParseExponent(rest)
      case Bad => Bad
      case Parsed(e, rest') => Parsed(Assembled(neg, ds, fs, e), rest')
  }

  function ParseNumber(s: string): (r: Parsed<Json>)
    ensures r.Parsed? ==> |r.rest| < |s| && (r.value.Int? || r.value.Frac?) && Safe(r.value)
  {
    var neg := s != "" && s[0] == '-';
    var (ds, rest) := TakeDigits(if neg then s[1..] else s);
    if Canonical(ds) then FinishNumber(neg, ds, rest) else Bad
  }

  function ParseLiteral(s: string, word: string, v: Json): (r: Parsed<Json>)
    requires word != ""
    ensures r.Parsed? ==> |r.rest| < |s| && r.value == v
  {
    if word <= s then Parsed(v, s[|word|..]) else Bad
  }

  /** A repeated key keeps its first position and its last value. */
  function Put(ms: seq<Member>, key: string, value: Json): seq<Member> {
    if ms == [] then [Member(key, value)]
    else if ms[0].key == key then [Member(key, value)] + ms[1..]
    else [ms[0]] + Put(ms[1..], key, value)
  }

  /** A string, a literal name or a number. */
  function ParseScalar(t: string): (r: Parsed<Json>)
    requires t != ""
    ensures r.Parsed? ==> |r.rest| < |t| && !r.value.Arr? && !r.value.Obj?
    ensures IsDigit(t[0]) || t[0] == '-' ==> r == ParseNumber(t)
  {
    if t[0] == '"' then
      match ParseChars(t[1..])
      case Bad => Bad
      case Parsed(cs, rest) => Parsed(Str(cs), rest)
    else if t[0] == 't' then ParseLiteral(t, "true", Bool(true))
    else if t[0] == 'f' then ParseLiteral(t, "false", Bool(false))
    else if t[0] == 'n' then ParseLiteral(t, "null", Null)
    else ParseNumber(t)
  }

  function ParseValue(s: string): (r: Parsed<Json>)
    ensures r.Parsed? ==> |r.rest| < |s|
    decreases |s|, 1
  {
    var t := SkipSpace(s);
    if t == "" then Bad
    else if t[0] == '{' then
      var u := SkipSpace(t[1..]);
      if u != "" && u[0] == '}' then Parsed(Obj([]), u[1..]) else ParseMembers(t[1..], [])
    else if t[0] == '[' then
      var u := SkipSpace(t[1..]);
      if u != "" && u[0] == ']' then Parsed(Arr([]), u[1..]) else ParseItems(t[1..], [])
    else ParseScalar(t)
  }

  /** The elements of a non-empty array, after its bracket or a comma. */
  function ParseItems(s: string, acc: seq<Json>): (r: Parsed<Json>)
    ensures r.Parsed? ==> |r.rest| < |s|
    decreases |s|, 2
  {
    match ParseValue(s)
    case Bad => Bad
    case Parsed(v, rest) =>
      var t := SkipSpace(rest);
      if t != "" && t[0] == ',' then ParseItems(t[1..], acc + [v])
      else if t != "" && t[0] == ']' then Parsed(Arr(acc + [v]), t[1..])
      else Bad
  }

  /** `"key" :` in front of a member's value. */
  function ParseKey(s: string): (r: Parsed<string>)
    ensures r.Parsed? ==> |r.rest| < |s|
  {
    var t := SkipSpace(s);
    if t == "" || t[0] != '"' then Bad
    else
      match ParseChars(t[1..])
      case Bad => Bad
      case Parsed(k, rest) =>
        var u := SkipSpace(rest);
        if u != "" && u[0] == ':' then Parsed(k, u[1..]) else Bad
  }

  /** The members of a non-empty object, after its brace or a comma. */
  function ParseMembers(s: string, acc: seq<Member>): (r: Parsed<Json>)
    ensures r.Parsed? ==> |r.rest| < |s|
    decreases |s|, 2
  {
    match ParseKey(s)
    case Bad => Bad
    case Parsed(k, afterKey) =>
      match ParseValue(afterKey)
      case Bad => Bad
      case Parsed(v, rest) =>
        var t := SkipSpace(rest);
        if t != "" && t[0] == ',' then ParseMembers(t[1..], Put(acc, k, v))
        else if t != "" && t[0] == '}' then Parsed(Obj(Put(acc, k, v)), t[1..])
        else Bad
  }

  /** `JSON.parse`: one value and nothing but whitespace after it; `None` stands for the `SyntaxError`. */
  function Parse(text: string): Option<Json> {
    match ParseValue(text)
    case Bad => None
    case Parsed(v, rest) => if SkipSpace(rest) == "" then Some(v) else None
  }

  // ----- parsing undoes printing -----

  lemma HexDigitValue(d: nat)
    requires d < 16
    ensures HexValue(HexDigit(d)) == Some(d)
  {
  }

  lemma ParseEscapedChar(c: char, tail: string)
    ensures EscapeChar(c) != "" && EscapeChar(c)[0] != '"'
    ensures ParseChar(EscapeChar(c) + tail) == Parsed(c, tail)
  {
    var n, e := c as int, EscapeChar(c);
    var s := e + tail;
    if n < 0x20 && |e| == 6 {
      HexDigitValue(n / 16);
      HexDigitValue(n % 16);
      assert s[2..] == ['0', '0', HexDigit(n / 16), HexDigit(n % 16)] + tail;
      assert Hex4(s[2..]) == Some(n);
      assert s[2..][4..] == tail;
    } else if |e| == 2 {
      assert s[2..] == tail;
    } else {
      assert s[1..] == tail;
    }
  }

  lemma EscapedHead(s: string, tail: string)
    requires s != ""
    ensures Escape(s) + "\"" + tail == EscapeChar(s[0]) + (Escape(s[1..]) + "\"" + tail)
  {
    Assoc(EscapeChar(s[0]), Escape(s[1..]), "\"");
    Assoc(EscapeChar(s[0]), Escape(s[1..]) + "\"", tail);
  }

  lemma ParseCharsStep(s: string, c: char, more: string, cs: string, tail: string)
    requires s != "" && s[0] != '"' && ParseChar(s) == Parsed(c, more) && ParseChars(more) == Parsed(cs, tail)
    ensures ParseChars(s) == Parsed([c] + cs, tail)
  {
  }

  lemma {:induction false} ParseEscaped(s: string, tail: string)
    ensures ParseChars(Escape(s) + "\"" + tail) == Parsed(s, tail)
  {
    if s == "" {
      assert (Escape(s) + "\"" + tail)[1..] == tail;
    } else {
      var more := Escape(s[1..]) + "\"" + tail;
      EscapedHead(s, tail);
      ParseEscapedChar(s[0], more);
      ParseEscaped(s[1..], tail);
      ParseCharsStep(EscapeChar(s[0]) + more, s[0], more, s[1..], tail);
      HeadTail(s);
    }
  }

  /** Text that cannot continue a number. */
  predicate Delimited(rest: string) {
    rest == "" || !(IsDigit(rest[0]) || rest[0] == '.' || rest[0] == 'e' || rest[0] == 'E')
  }

  lemma {:induction false} TakePrinted(ds: string, rest: string)
    requires AllDigits(ds)
    requires rest == "" || !IsDigit(rest[0])
    ensures TakeDigits(ds + rest) == (ds, rest)
  {
    if ds == "" {
      assert ds + rest == rest;
    } else {
      TakePrinted(ds[1..], rest);
      assert (ds + rest)[1..] == ds[1..] + rest;
      assert [ds[0]] + ds[1..] == ds;
    }
  }

  lemma NoTail(rest: string)
    requires Delimited(rest)
    ensures ParseFraction(rest) == Parsed("", rest) && ParseExponent(rest) == Parsed(0, rest)
  {
  }

  lemma DigitsAfterSign(neg: bool, ds: string, rest: string, s: string)
    requires Canonical(ds) && (rest == "" || !IsDigit(rest[0])) && s == (if neg then "-" else "") + ds + rest
    ensures s != "" && (s[0] == '-' <==> neg)
    ensures TakeDigits(if neg then s[1..] else s) == (ds, rest)
  {
    assert (if neg then s[1..] else s) == ds + rest;
    TakePrinted(ds, rest);
  }

  lemma ParseWholeNumber(neg: bool, ds: string, rest: string)
    requires Canonical(ds) && Delimited(rest)
    ensures ParseNumber((if neg then "-" else "") + ds + rest) == Parsed(Scaled(neg, Read(ds), 0), rest)
  {
    var s := (if neg then "-" else "") + ds + rest;
    DigitsAfterSign(neg, ds, rest, s);
    NoTail(rest);
    NumberFrom(s, neg, ds, rest, "", rest);
    NoRight(ds);
  }

  lemma ScaledByOne(neg: bool, m: nat)
    ensures Scaled(neg, m, 0) == Int(Signed(neg, m))
  {
  }

  lemma ParsePrintedInt(n: int, rest: string)
    requires Delimited(rest)
    ensures ParseNumber(PrintInt(n) + rest) == Parsed(Int(n), rest)
  {
    var a := if n < 0 then -n else n;
    ParseWholeNumber(n < 0, Show(a), rest);
    ReadShow(a);
    ScaledByOne(n < 0, a);
  }

  lemma {:induction false} PutFresh(ms: seq<Member>, key: string, value: Json)
    requires forall i :: 0 <= i < |ms| ==> ms[i].key != key
    ensures Put(ms, key, value) == ms + [Member(key, value)]
  {
    if ms != [] {
      PutFresh(ms[1..], key, value);
      assert ms == [ms[0]] + ms[1..];
    }
  }

  lemma ParsePrintedKey(key: string, tail: string)
    ensures ParseKey(Quote(key) + ":" + tail) == Parsed(key, tail)
  {
    var s := Quote(key) + ":" + tail;
    assert s[1..] == Escape(key) + "\"" + (":" + tail);
    ParseEscaped(key, ":" + tail);
    assert (":" + tail)[1..] == tail;
  }

  lemma PrintStart(v: Json)
    requires Safe(v)
    ensures Print(v) != "" && !IsJsonSpace(Print(v)[0])
    ensures Print(v)[0] != ']' && Print(v)[0] != '}'
  {
  }

  lemma ParsePrintedWord(v: Json, rest: string)
    requires v.Null? || v.Bool?
    ensures ParseValue(Print(v) + rest) == Parsed(v, rest)
  {
    var s := Print(v) + rest;
    assert SkipSpace(s) == s;
    assert Print(v) <= s && s[|Print(v)|..] == rest;
  }

  lemma ParsePrintedNumber(n: int, rest: string)
    requires Delimited(rest)
    ensures ParseValue(PrintInt(n) + rest) == Parsed(Int(n), rest)
  {
    ParsePrintedInt(n, rest);
    NumberStart(PrintInt(n) + rest);
  }

  lemma {:induction false} ReadZeros(k: nat)
    ensures AllDigits(Zeros(k)) && Read(Zeros(k)) == 0
  {
    if k > 0 {
      ReadZeros(k - 1);
      assert Zeros(k)[..k - 1] == Zeros(k - 1);
    }
  }

  /** Leading zeros do not change what is read. */
  lemma {:induction false} ReadPadded(k: nat, ds: string)
    requires AllDigits(ds)
    ensures AllDigits(Zeros(k) + ds) && Read(Zeros(k) + ds) == Read(ds)
  {
    ReadZeros(k);
    if ds == "" {
      NoRight(Zeros(k));
    } else {
      ReadPadded(k, ds[..|ds| - 1]);
      assert (Zeros(k) + ds)[..k + |ds| - 1] == Zeros(k) + ds[..|ds| - 1];
    }
  }

  lemma PaddedReads(a: nat, scale: nat)
    ensures AllDigits(Padded(a, scale)) && Read(Padded(a, scale)) == a
  {
    var ds := Show(a);
    ReadShow(a);
    ReadPadded(if |ds| <= scale then scale + 1 - |ds| else 0, ds);
  }

  /** The whole part of a printed decimal is canonical. */
  lemma WholePart(a: nat, scale: nat)
    ensures Canonical(Padded(a, scale)[..|Padded(a, scale)| - scale])
  {
    var ds, padded := Show(a), Padded(a, scale);
    PaddedReads(a, scale);
    if |ds| <= scale {
      assert padded[..|padded| - scale] == ['0'];
    } else {
      NoLeft(ds);
      assert padded == ds;
      assert padded[..|padded| - scale][0] == ds[0];
      assert ds[0] == '0' ==> a == 0;
      assert a == 0 ==> |ds| == 1;
    }
  }

  lemma FractionTail(fs: string, rest: string)
    requires fs != "" && AllDigits(fs) && Delimited(rest)
    ensures ParseFraction("." + (fs + rest)) == Parsed(fs, rest)
  {
    assert ("." + (fs + rest))[1..] == fs + rest;
    TakePrinted(fs, rest);
  }

  /** The three parts of a number, each read on its own. */
  lemma NumberFrom(s: string, neg: bool, whole: string, tail: string, fs: string, rest: string)
    requires s != "" && (s[0] == '-' <==> neg) && Canonical(whole)
    requires TakeDigits(if neg then s[1..] else s) == (whole, tail)
    requires AllDigits(fs) && ParseFraction(tail) == Parsed(fs, rest) && ParseExponent(rest) == Parsed(0, rest)
    ensures ParseNumber(s) == Parsed(Scaled(neg, Read(whole + fs), 0 - |fs|), rest)
  {
    AfterWhole(neg, whole, tail, fs, rest, 0, rest);
    assert ParseNumber(s) == FinishNumber(neg, whole, tail);
  }

  lemma AfterWhole(neg: bool, whole: string, tail: string, fs: string, after: string, e: int, rest: string)
    requires AllDigits(whole) && AllDigits(fs)
    requires ParseFraction(tail) == Parsed(fs, after) && ParseExponent(after) == Parsed(e, rest)
    ensures FinishNumber(neg, whole, tail) == Parsed(Assembled(neg, whole, fs, e), rest)
  {
  }

  lemma ParseDecimal(neg: bool, whole: string, fs: string, rest: string, tail: string, s: string)
    requires Canonical(whole) && fs != "" && AllDigits(fs) && Delimited(rest)
    requires tail == "." + (fs + rest) && s == (if neg then "-" else "") + whole + tail
    ensures ParseNumber(s) == Parsed(Scaled(neg, Read(whole + fs), 0 - |fs|), rest)
    ensures s != "" && (IsDigit(s[0]) || s[0] == '-')
  {
    DigitsAfterSign(neg, whole, tail, s);
    FractionTail(fs, rest);
    NoTail(rest);
    NumberFrom(s, neg, whole, tail, fs, rest);
    assert s[0] == if neg then '-' else whole[0];
  }

  /** A decimal point put `scale` digits from the end. */
  lemma PointedParses(neg: bool, whole: string, fs: string, rest: string, s: string)
    requires Canonical(whole) && fs != "" && AllDigits(fs) && Delimited(rest)
    requires s == (if neg then "-" else "") + whole + "." + fs + rest
    ensures ParseValue(s) == Parsed(Scaled(neg, Read(whole + fs), 0 - |fs|), rest)
  {
    var sign := if neg then "-" else "";
    FracShape(sign, whole, fs, rest);
    ParseDecimal(neg, whole, fs, rest, "." + (fs + rest), s);
    NumberStart(s);
  }

  lemma FracShape(sign: string, whole: string, fs: string, rest: string)
    ensures sign + whole + "." + fs + rest == sign + whole + ("." + (fs + rest))
  {
    Regroup(sign, whole, ".", fs, rest);
    Assoc(sign, whole, "." + (fs + rest));
  }

  lemma NegatedDigit(m: int)
    requires m % 10 != 0
    ensures -m % 10 != 0
  {
    var q, r := -m / 10, -m % 10;
    assert m == 10 * (-q) - r;
  }

  /** A number in lowest terms is not reduced further. */
  lemma ReducedAlready(neg: bool, m: int, a: nat, scale: nat)
    requires scale > 0 && m % 10 != 0 && neg == (m < 0) && a == (if neg then -m else m)
    ensures Scaled(neg, a, 0 - scale) == Frac(m, scale)
  {
    if neg {
      NegatedDigit(m);
    }
  }

  lemma ParsePrintedFrac(m: int, scale: nat, rest: string)
    requires scale > 0 && m % 10 != 0 && Delimited(rest)
    ensures ParseValue(PrintFrac(m, scale) + rest) == Parsed(Frac(m, scale), rest)
  {
    var neg := m < 0;
    var a := if neg then -m else m;
    var digits := Padded(a, scale);
    PaddedReads(a, scale);
    WholePart(a, scale);
    SplitDigits(digits, scale);
    ReducedAlready(neg, m, a, scale);
    PointedParses(neg, digits[..|digits| - scale], digits[|digits| - scale..], rest, PrintFrac(m, scale) + rest);
  }

  lemma SplitDigits(digits: string, scale: nat)
    requires 0 < scale < |digits| && AllDigits(digits)
    ensures var (whole, fs) := (digits[..|digits| - scale], digits[|digits| - scale..]);
            whole + fs == digits && |fs| == scale && fs != "" && AllDigits(fs)
  {
  }

  lemma NumberStart(s: string)
    requires s != "" && (IsDigit(s[0]) || s[0] == '-')
    ensures ParseValue(s) == ParseNumber(s)
  {
    assert SkipSpace(s) == s;
    assert ParseValue(s) == ParseScalar(s);
  }

  lemma OpenArray(body: string)
    requires body != "" && !IsJsonSpace(body[0]) && body[0] != ']'
    ensures ParseValue("[" + body) == ParseItems(body, [])
  {
    var s := "[" + body;
    assert SkipSpace(s) == s && s[1..] == body && SkipSpace(body) == body;
  }

  lemma OpenObject(body: string)
    requires body != "" && body[0] == '"'
    ensures ParseValue("{" + body) == ParseMembers(body, [])
  {
    var s := "{" + body;
    assert SkipSpace(s) == s && s[1..] == body && SkipSpace(body) == body;
  }

  /** Reading a printed value back gives the value and leaves what followed it. */
  lemma {:induction false} ParsePrinted(v: Json, rest: string)
    requires Safe(v) && Delimited(rest)
    ensures ParseValue(Print(v) + rest) == Parsed(v, rest)
    decreases v
  {
    match v
    case Null => ParsePrintedWord(v, rest);
    case Bool(b) => ParsePrintedWord(v, rest);
    case Int(n) => ParsePrintedNumber(n, rest);
    case Frac(m, scale) => ParsePrintedFrac(m, scale, rest);
    case Str(cs) => ParsePrintedString(cs, rest);
    case Arr(items) =>
      if items != [] {
        assert [] + items == items;
        ParsePrintedItems(items, rest, []);
      }
      ParsePrintedArray(items, rest);
    case Obj(ms) =>
      if ms != [] {
        assert [] + ms == ms;
        ParsePrintedMembers(ms, rest, []);
      }
      ParsePrintedObject(ms, rest);
  }

  lemma EmptyBrackets(rest: string)
    ensures ParseValue("[]" + rest) == Parsed(Arr([]), rest)
    ensures ParseValue("{}" + rest) == Parsed(Obj([]), rest)
  {
    var a, o := "[]" + rest, "{}" + rest;
    assert SkipSpace(a) == a && SkipSpace(o) == o;
    assert SkipSpace(a[1..]) == a[1..] && SkipSpace(o[1..]) == o[1..];
    assert a[1..][1..] == rest && o[1..][1..] == rest;
  }

  lemma ItemsStart(items: seq<Json>)
    requires items != [] && Safe(items[0])
    ensures var s := PrintItems(items); s != "" && !IsJsonSpace(s[0]) && s[0] != ']'
  {
    PrintStart(items[0]);
  }

  lemma ArrayShape(items: seq<Json>, rest: string)
    ensures Print(Arr(items)) + rest
         == if items == [] then "[]" + rest else "[" + (PrintItems(items) + ("]" + rest))
  {
  }

  lemma ObjectShape(ms: seq<Member>, rest: string)
    ensures Print(Obj(ms)) + rest
         == if ms == [] then "{}" + rest else "{" + (PrintMembers(ms) + ("}" + rest))
  {
  }

  lemma ParsePrintedArray(items: seq<Json>, rest: string)
    requires Safe(Arr(items))
    requires items != [] ==> ParseItems(PrintItems(items) + ("]" + rest), []) == Parsed(Arr(items), rest)
    ensures ParseValue(Print(Arr(items)) + rest) == Parsed(Arr(items), rest)
  {
    ArrayShape(items, rest);
    if items == [] {
      EmptyBrackets(rest);
    } else {
      ItemsStart(items);
      OpenArray(PrintItems(items) + ("]" + rest));
    }
  }

  lemma ParsePrintedObject(ms: seq<Member>, rest: string)
    requires ms != [] ==> ParseMembers(PrintMembers(ms) + ("}" + rest), []) == Parsed(Obj(ms), rest)
    ensures ParseValue(Print(Obj(ms)) + rest) == Parsed(Obj(ms), rest)
  {
    ObjectShape(ms, rest);
    if ms == [] {
      EmptyBrackets(rest);
    } else {
      assert PrintMembers(ms)[0] == '"';
      OpenObject(PrintMembers(ms) + ("}" + rest));
    }
  }

  lemma ParsePrintedString(cs: string, rest: string)
    ensures ParseValue(Quote(cs) + rest) == Parsed(Str(cs), rest)
  {
    var s := Quote(cs) + rest;
    assert SkipSpace(s) == s;
    assert s[1..] == Escape(cs) + "\"" + rest;
    ParseEscaped(cs, rest);
  }

  lemma {:induction false} ParsePrintedItems(items: seq<Json>, rest: string, acc: seq<Json>)
    requires items != [] && forall i :: 0 <= i < |items| ==> Safe(items[i])
    ensures ParseItems(PrintItems(items) + ("]" + rest), acc) == Parsed(Arr(acc + items), rest)
    decreases items
  {
    ItemsShape(items, rest);
    Shift(acc, items);
    if |items| == 1 {
      ParsePrinted(items[0], "]" + rest);
      ParseLastItem(PrintItems(items) + ("]" + rest), acc, items[0], rest);
    } else {
      var more := PrintItems(items[1..]) + ("]" + rest);
      ParsePrinted(items[0], "," + more);
      ParseNextItem(PrintItems(items) + ("]" + rest), acc, items[0], more);
      ParsePrintedItems(items[1..], rest, acc + [items[0]]);
    }
  }

  lemma ItemsShape(items: seq<Json>, rest: string)
    requires items != []
    ensures PrintItems(items) + ("]" + rest)
         == Print(items[0]) + if |items| == 1 then "]" + rest else "," + (PrintItems(items[1..]) + ("]" + rest))
  {
    if |items| > 1 {
      Regroup("", Print(items[0]), ",", PrintItems(items[1..]), "]" + rest);
      NoLeft(Print(items[0]));
      NoLeft(Print(items[0]) + ("," + (PrintItems(items[1..]) + ("]" + rest))));
    }
  }

  lemma ParseLastItem(s: string, acc: seq<Json>, v: Json, rest: string)
    requires ParseValue(s) == Parsed(v, "]" + rest)
    ensures ParseItems(s, acc) == Parsed(Arr(acc + [v]), rest)
  {
    assert ("]" + rest)[1..] == rest;
  }

  lemma ParseNextItem(s: string, acc: seq<Json>, v: Json, more: string)
    requires ParseValue(s) == Parsed(v, "," + more)
    ensures ParseItems(s, acc) == ParseItems(more, acc + [v])
  {
    assert ("," + more)[1..] == more;
  }

  lemma MembersShape(ms: seq<Member>, rest: string)
    requires ms != []
    ensures PrintMembers(ms) + ("}" + rest)
         == Quote(ms[0].key) + ":"
            + (Print(ms[0].value)
               + if |ms| == 1 then "}" + rest else "," + (PrintMembers(ms[1..]) + ("}" + rest)))
  {
    var head, v, r := Quote(ms[0].key) + ":", Print(ms[0].value), "}" + rest;
    if |ms| == 1 {
      Assoc(head, v, r);
    } else {
      Regroup(head, v, ",", PrintMembers(ms[1..]), r);
    }
  }

  lemma {:induction false} ParsePrintedMembers(ms: seq<Member>, rest: string, acc: seq<Member>)
    requires ms != [] && DistinctKeys(acc + ms)
    requires forall i :: 0 <= i < |ms| ==> Safe(ms[i].value)
    ensures ParseMembers(PrintMembers(ms) + ("}" + rest), acc) == Parsed(Obj(acc + ms), rest)
    decreases ms
  {
    var k, v := ms[0].key, ms[0].value;
    PutNext(acc, ms);
    Shift(acc, ms);
    MembersShape(ms, rest);
    if |ms| == 1 {
      ParsePrinted(v, "}" + rest);
      ParseMember(k, Print(v), v, "}" + rest);
      ParseLastMember(PrintMembers(ms) + ("}" + rest), acc, k, v, rest);
    } else {
      var more := PrintMembers(ms[1..]) + ("}" + rest);
      ParsePrinted(v, "," + more);
      ParseMember(k, Print(v), v, "," + more);
      ParseNextMember(PrintMembers(ms) + ("}" + rest), acc, k, v, more);
      ParsePrintedMembers(ms[1..], rest, acc + [ms[0]]);
    }
  }

  lemma PutNext(acc: seq<Member>, ms: seq<Member>)
    requires ms != [] && DistinctKeys(acc + ms)
    ensures Put(acc, ms[0].key, ms[0].value) == acc + [ms[0]]
  {
    forall i | 0 <= i < |acc|
      ensures acc[i].key != ms[0].key
    {
      assert (acc + ms)[i].key != (acc + ms)[|acc|].key;
    }
    PutFresh(acc, ms[0].key, ms[0].value);
  }

  ghost predicate ReadsMember(s: string, k: string, v: Json, rest: string) {
    exists afterKey :: ParseKey(s) == Parsed(k, afterKey) && ParseValue(afterKey) == Parsed(v, rest)
  }

  lemma ParseMember(k: string, text: string, v: Json, rest: string)
    requires ParseValue(text + rest) == Parsed(v, rest)
    ensures ReadsMember(Quote(k) + ":" + (text + rest), k, v, rest)
  {
    ParsePrintedKey(k, text + rest);
  }

  lemma ParseLastMember(s: string, acc: seq<Member>, k: string, v: Json, rest: string)
    requires ReadsMember(s, k, v, "}" + rest)
    ensures ParseMembers(s, acc) == Parsed(Obj(Put(acc, k, v)), rest)
  {
    assert ("}" + rest)[1..] == rest;
  }

  lemma ParseNextMember(s: string, acc: seq<Member>, k: string, v: Json, more: string)
    requires ReadsMember(s, k, v, "," + more)
    ensures ParseMembers(s, acc) == ParseMembers(more, Put(acc, k, v))
  {
    assert ("," + more)[1..] == more;
  }

  /** `JSON.parse(JSON.stringify(v))` is `v`. */
  lemma ParsePrint(v: Json)
    requires Safe(v)
    ensures Parse(Print(v)) == Some(v)
  {
    ParsePrinted(v, "");
    assert Print(v) + "" == Print(v);
  }

  // ----- parsing is exact -----

  lemma {:induction false} PutAddsNothingElse(ms: seq<Member>, key: string, value: Json, other: string)
    requires other != key && forall i :: 0 <= i < |ms| ==> ms[i].key != other
    ensures forall i :: 0 <= i < |Put(ms, key, value)| ==> Put(ms, key, value)[i].key != other
  {
    if ms != [] && ms[0].key != key {
      PutAddsNothingElse(ms[1..], key, value, other);
    }
  }

  lemma SafeCons(m: Member, more: seq<Member>)
    requires SafeMembers(more) && Safe(m.value) && forall i :: 0 <= i < |more| ==> more[i].key != m.key
    ensures SafeMembers([m] + more)
  {
  }

  lemma {:induction false} PutKeepsSafe(ms: seq<Member>, key: string, value: Json)
    requires SafeMembers(ms) && Safe(value)
    ensures SafeMembers(Put(ms, key, value))
  {
    if ms == [] {
    } else if ms[0].key == key {
      SafeCons(Member(key, value), ms[1..]);
    } else {
      PutKeepsSafe(ms[1..], key, value);
      PutAddsNothingElse(ms[1..], key, value, ms[0].key);
      SafeCons(ms[0], Put(ms[1..], key, value));
    }
  }

  lemma {:induction false} ParsedIsSafe(s: string)
    ensures ParseValue(s).Parsed? ==> Safe(ParseValue(s).value)
    decreases |s|, 1
  {
    var t := SkipSpace(s);
    if t != "" {
      ParsedItemsSafe(t[1..], []);
      ParsedMembersSafe(t[1..], []);
    }
  }

  lemma {:induction false} ParsedItemsSafe(s: string, acc: seq<Json>)
    requires forall i :: 0 <= i < |acc| ==> Safe(acc[i])
    ensures ParseItems(s, acc).Parsed? ==> Safe(ParseItems(s, acc).value)
    decreases |s|, 2
  {
    ParsedIsSafe(s);
    match ParseValue(s)
    case Bad =>
    case Parsed(v, rest) =>
      var t := SkipSpace(rest);
      if t != "" {
        ParsedItemsSafe(t[1..], acc + [v]);
      }
  }

  lemma {:induction false} ParsedMembersSafe(s: string, acc: seq<Member>)
    requires SafeMembers(acc)
    ensures ParseMembers(s, acc).Parsed? ==> Safe(ParseMembers(s, acc).value)
    decreases |s|, 2
  {
    match ParseKey(s)
    case Bad =>
    case Parsed(k, afterKey) =>
      ParsedIsSafe(afterKey);
      match ParseValue(afterKey)
      case Bad =>
      case Parsed(v, rest) =>
        var t := SkipSpace(rest);
        PutKeepsSafe(acc, k, v);
        if t != "" {
          ParsedMembersSafe(t[1..], Put(acc, k, v));
        }
  }

  /** Whatever the text, a parsed value repeats no key and has every number in lowest terms. */
  lemma ParseIsSafe(text: string)
    ensures Parse(text).Some? ==> Safe(Parse(text).value)
  {
    ParsedIsSafe(text);
  }

  /** What can be read is exactly what can be held. */
  lemma ParseRange(v: Json)
    ensures (exists text :: Parse(text) == Some(v)) <==> Safe(v)
  {
    if text :| Parse(text) == Some(v) {
      ParseIsSafe(text);
    }
    if Safe(v) {
      ParsePrint(v);
    }
  }

  /** Printing what was read, whatever its spacing, escapes, exponents and repeated keys, reads back as the same. */
  lemma ReprintIsStable(text: string)
    requires Parse(text).Some?
    ensures Parse(Print(Parse(text).value)) == Parse(text)
  {
    ParseIsSafe(text);
    ParsePrint(Parse(text).value);
  }

  // ----- printed text is one physical line -----

  predicate OneLine(s: string) {
    forall i :: 0 <= i < |s| ==> s[i] != '\n'
  }

  lemma {:induction false} EscapeOneLine(s: string)
    ensures OneLine(Escape(s))
  {
    if s != "" {
      EscapeOneLine(s[1..]);
    }
  }

  lemma DigitsOneLine(s: string)
    requires AllDigits(s)
    ensures OneLine(s)
  {
  }

  lemma PointedOneLine(neg: bool, digits: string, scale: nat)
    requires scale < |digits| && AllDigits(digits)
    ensures OneLine(Pointed(neg, digits, scale))
  {
    DigitsOneLine(digits);
  }

  lemma FracOneLine(m: int, scale: nat)
    ensures OneLine(PrintFrac(m, scale))
  {
    var a := if m < 0 then -m else m;
    PaddedReads(a, scale);
    PointedOneLine(m < 0, Padded(a, scale), scale);
  }

  lemma {:induction false} PrintOneLine(v: Json)
    ensures OneLine(Print(v))
    decreases v
  {
    match v
    case Str(s) => EscapeOneLine(s);
    case Arr(items) => PrintItemsOneLine(items);
    case Obj(ms) => PrintMembersOneLine(ms);
    case Int(n) => DigitsOneLine(Show(if n < 0 then -n else n));
    case Frac(m, k) => FracOneLine(m, k);
    case _ =>
  }

  lemma {:induction false} PrintItemsOneLine(items: seq<Json>)
    ensures OneLine(PrintItems(items))
    decreases items
  {
    if items != [] {
      PrintOneLine(items[0]);
      PrintItemsOneLine(items[1..]);
    }
  }

  lemma {:induction false} PrintMembersOneLine(ms: seq<Member>)
    ensures OneLine(PrintMembers(ms))
    decreases ms
  {
    if ms != [] {
      EscapeOneLine(ms[0].key);
      PrintOneLine(ms[0].value);
      var head := Quote(ms[0].key) + ":";
      assert OneLine(head + Print(ms[0].value));
      PrintMembersOneLine(ms[1..]);
    }
  }
}
