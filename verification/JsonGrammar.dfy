/**
 * The grammar of JSON text (RFC 8259, sections 2 to 7), told the other way round: every spelling of a value, with its
 * whitespace, escapes, fractions, exponents and repeated keys. The parser reads exactly the spellings.
 */
module JsonGrammar {
  import opened Wrappers
  import opened Json
  import opened Decimal
  import opened Seqs

  // ----- spellings -----

  /** One character of a string: itself, a two-character escape, four hex digits, or a surrogate pair of them. */
  datatype Unit = Plain(c: char) | Short(letter: char) | Hex(digits: string) | Pair(high: string, low: string)

  datatype Exponent = Exponent(letter: char, sign: string, digits: string)

  datatype Number = Number(neg: bool, whole: string, fraction: Option<string>, exponent: Option<Exponent>)

  datatype Text = Text(before: string, node: Node)

  datatype Node =
    | NullWord
    | TrueWord
    | FalseWord
    | Num(number: Number)
    | Quoted(units: seq<Unit>)
    | Array(inner: string, items: seq<Item>)
    | Object(inner: string, entries: seq<Entry>)

  /** An element of an array with the space after it. */
  datatype Item = Item(value: Text, after: string)

  /** A member of an object: `name` is what its key spells, `meaning` what its value does. */
  datatype Entry = Entry(
    before: string, key: seq<Unit>, name: string, colon: string, value: Text, meaning: Json, after: string)

  predicate Spaces(s: string) {
    forall i :: 0 <= i < |s| ==> s[i] == ' ' || s[i] == '\t' || s[i] == '\n' || s[i] == '\r'
  }

  /** Digits count from `0`, letters of either case from ten. */
  predicate SpellsHex(c: char, n: nat) {
    || (n < 10 && c as int == '0' as int + n)
    || (10 <= n < 16 && (c as int == 'a' as int + (n - 10) || c as int == 'A' as int + (n - 10)))
  }

  function HexSum(a: nat, b: nat, c: nat, d: nat): nat {
    ((a * 16 + b) * 16 + c) * 16 + d
  }

  /** Four hex digits, in either case, that spell `n`. */
  ghost predicate SpellsHex4(s: string, n: nat) {
    && |s| == 4
    && exists a: nat, b: nat, c: nat, d: nat ::
         && SpellsHex(s[0], a) && SpellsHex(s[1], b) && SpellsHex(s[2], c) && SpellsHex(s[3], d)
         && n == HexSum(a, b, c, d)
  }

  /** What a two-character escape stands for. */
  function ShortFor(letter: char): Option<int> {
    match letter
    case '"' => Some(0x22)
    case '\\' => Some(0x5C)
    case '/' => Some(0x2F)
    case 'b' => Some(0x08)
    case 'f' => Some(0x0C)
    case 'n' => Some(0x0A)
    case 'r' => Some(0x0D)
    case 't' => Some(0x09)
    case _ => None
  }

  /** The unit is well formed and stands for `c`. */
  ghost predicate Means(u: Unit, c: char) {
    match u
    case Plain(p) => p == c && p != '"' && p != '\\' && p as int >= 0x20
    case Short(letter) => ShortFor(letter) == Some(c as int)
    case Hex(digits) => SpellsHex4(digits, c as int)
    case Pair(high, low) =>
      exists h: nat, l: nat ::
        && SpellsHex4(high, h) && SpellsHex4(low, l) && 0xD800 <= h < 0xDC00 && 0xDC00 <= l < 0xE000
        && c as int == 0x10000 + (h - 0xD800) * 0x400 + (l - 0xDC00)
  }

  ghost predicate AllMean(units: seq<Unit>, s: string) {
    |units| == |s| && forall i :: 0 <= i < |s| ==> Means(units[i], s[i])
  }

  predicate FractionFine(fraction: Option<string>) {
    fraction.Some? ==> fraction.value != "" && AllDigits(fraction.value)
  }

  predicate ExponentFine(exponent: Option<Exponent>) {
    exponent.Some? ==>
      var e := exponent.value;
      && (e.letter == 'e' || e.letter == 'E') && (e.sign == "" || e.sign == "+" || e.sign == "-")
      && e.digits != "" && AllDigits(e.digits)
  }

  predicate NumberFine(n: Number) {
    Canonical(n.whole) && FractionFine(n.fraction) && ExponentFine(n.exponent)
  }

  function FractionDigits(n: Number): string {
    n.fraction.GetOr("")
  }

  function PowerOfTen(exponent: Option<Exponent>): int
    requires ExponentFine(exponent)
  {
    match exponent
    case None => 0
    case Some(e) =>
      Signed(e.sign == "-", Read(e.digits))
  }

  function NumberMeaning(n: Number): Json
    requires NumberFine(n)
  {
    Assembled(n.neg, n.whole, FractionDigits(n), PowerOfTen(n.exponent))
  }

  // ----- how a spelling is written -----

  function WriteUnit(u: Unit): string {
    match u
    case Plain(c) => [c]
    case Short(letter) => "\\" + [letter]
    case Hex(digits) => "\\u" + digits
    case Pair(high, low) => "\\u" + high + ("\\u" + low)
  }

  function WriteUnits(units: seq<Unit>): string {
    if units == [] then "" else WriteUnit(units[0]) + WriteUnits(units[1..])
  }

  function WriteFraction(fraction: Option<string>): string {
    match fraction
    case None => ""
    case Some(digits) => "." + digits
  }

  function WriteExponent(exponent: Option<Exponent>): string {
    match exponent
    case None => ""
    case Some(e) => [e.letter] + (e.sign + e.digits)
  }

  function WriteNumber(n: Number): string {
    (if n.neg then "-" else "") + n.whole + (WriteFraction(n.fraction) + WriteExponent(n.exponent))
  }

  function Write(t: Text): string
    decreases t
  {
    t.before + WriteNode(t.node)
  }

  function WriteNode(n: Node): string
    decreases n
  {
    match n
    case NullWord => "null"
    case TrueWord => "true"
    case FalseWord => "false"
    case Num(number) => WriteNumber(number)
    case Quoted(units) => "\"" + (WriteUnits(units) + "\"")
    case Array(inner, items) => "[" + ((if items == [] then inner else WriteItems(items)) + "]")
    case Object(inner, entries) => "{" + ((if entries == [] then inner else WriteEntries(entries)) + "}")
  }

  function WriteItems(items: seq<Item>): string
    decreases items
  {
    if items == [] then ""
    else
      Write(items[0].value) + (items[0].after + if |items| == 1 then "" else "," + WriteItems(items[1..]))
  }

  function WriteKey(e: Entry): string {
    e.before + ("\"" + (WriteUnits(e.key) + ("\"" + (e.colon + ":"))))
  }

  function WriteEntries(entries: seq<Entry>): string
    decreases entries
  {
    if entries == [] then ""
    else
      WriteKey(entries[0])
      + (Write(entries[0].value)
         + (entries[0].after + if |entries| == 1 then "" else "," + WriteEntries(entries[1..])))
  }

  // ----- what a spelling stands for -----

  ghost predicate Spells(t: Text, v: Json)
    decreases t
  {
    Spaces(t.before) && NodeSpells(t.node, v)
  }

  ghost predicate NodeSpells(n: Node, v: Json)
    decreases n
  {
    match n
    case NullWord => v == Null
    case TrueWord => v == Bool(true)
    case FalseWord => v == Bool(false)
    case Num(number) => NumberFine(number) && v == NumberMeaning(number)
    case Quoted(units) => v.Str? && AllMean(units, v.s)
    case Array(inner, items) => v.Arr? && Spaces(inner) && ItemsSpell(items, v.items)
    case Object(inner, entries) => v.Obj? && Spaces(inner) && EntriesSpell(entries, [], v.members)
  }

  ghost predicate ItemsSpell(items: seq<Item>, vs: seq<Json>)
    decreases items
  {
    if items == [] then vs == []
    else
      && vs != [] && Spells(items[0].value, vs[0]) && Spaces(items[0].after)
      && ItemsSpell(items[1..], vs[1..])
  }

  /** The entries add up to `ms`, put one by one over those in `acc`. */
  ghost predicate EntriesSpell(entries: seq<Entry>, acc: seq<Member>, ms: seq<Member>)
    decreases entries
  {
    if entries == [] then acc == ms
    else
      && EntryFine(entries[0]) && Spells(entries[0].value, entries[0].meaning)
      && EntriesSpell(entries[1..], Put(acc, entries[0].name, entries[0].meaning), ms)
  }

  ghost predicate EntryFine(e: Entry) {
    Spaces(e.before) && AllMean(e.key, e.name) && Spaces(e.colon) && Spaces(e.after)
  }

  // ----- every spelling is read -----

  lemma {:induction false} SpacesAreSkipped(ws: string, rest: string)
    requires Spaces(ws)
    ensures SkipSpace(ws + rest) == SkipSpace(rest)
  {
    if ws == "" {
      NoLeft(rest);
    } else {
      TailAppend(ws, rest);
      SpacesAreSkipped(ws[1..], rest);
    }
  }

  lemma HexDigitsExactly(c: char, n: nat)
    ensures HexValue(c) == Some(n) <==> SpellsHex(c, n)
  {
  }

  lemma Hex4From(s: string, a: nat, b: nat, c: nat, d: nat)
    requires |s| >= 4
    requires HexValue(s[0]) == Some(a) && HexValue(s[1]) == Some(b)
    requires HexValue(s[2]) == Some(c) && HexValue(s[3]) == Some(d)
    ensures Hex4(s) == Some(HexSum(a, b, c, d))
  {
  }

  lemma Hex4Parts(s: string) returns (a: nat, b: nat, c: nat, d: nat)
    requires Hex4(s).Some?
    ensures |s| >= 4
    ensures HexValue(s[0]) == Some(a) && HexValue(s[1]) == Some(b)
    ensures HexValue(s[2]) == Some(c) && HexValue(s[3]) == Some(d)
  {
    a, b, c, d := HexValue(s[0]).value, HexValue(s[1]).value, HexValue(s[2]).value, HexValue(s[3]).value;
  }

  lemma SpelledIsRead(s: string, digits: string, n: nat)
    requires |s| >= 4 && s[..4] == digits && SpellsHex4(digits, n)
    ensures Hex4(s) == Some(n)
  {
    var a: nat, b: nat, c: nat, d: nat :|
      && SpellsHex(digits[0], a) && SpellsHex(digits[1], b) && SpellsHex(digits[2], c) && SpellsHex(digits[3], d)
      && n == HexSum(a, b, c, d);
    assert s[..4][0] == s[0] && s[..4][1] == s[1] && s[..4][2] == s[2] && s[..4][3] == s[3];
    HexDigitsExactly(s[0], a);
    HexDigitsExactly(s[1], b);
    HexDigitsExactly(s[2], c);
    HexDigitsExactly(s[3], d);
    Hex4From(s, a, b, c, d);
  }

  lemma ReadIsSpelled(s: string)
    requires Hex4(s).Some?
    ensures |s| >= 4 && SpellsHex4(s[..4], Hex4(s).value)
  {
    var a, b, c, d := Hex4Parts(s);
    Hex4From(s, a, b, c, d);
    var t := s[..4];
    assert t[0] == s[0] && t[1] == s[1] && t[2] == s[2] && t[3] == s[3];
    HexDigitsExactly(t[0], a);
    HexDigitsExactly(t[1], b);
    HexDigitsExactly(t[2], c);
    HexDigitsExactly(t[3], d);
  }

  lemma HexUnit(digits: string, c: char, tail: string)
    requires SpellsHex4(digits, c as int)
    ensures ParseUnicodeEscape(digits + tail) == Parsed(c, tail)
  {
    var s := digits + tail;
    assert s[..4] == digits && s[4..] == tail;
    SpelledIsRead(s, digits, c as int);
  }

  lemma PairRead(s: string, h: nat, l: nat, c: char, tail: string)
    requires |s| >= 10 && Hex4(s) == Some(h) && s[4..6] == "\\u" && Hex4(s[6..]) == Some(l) && s[10..] == tail
    requires 0xD800 <= h < 0xDC00 && 0xDC00 <= l < 0xE000
    requires c as int == 0x10000 + (h - 0xD800) * 0x400 + (l - 0xDC00)
    ensures ParseUnicodeEscape(s) == Parsed(c, tail)
  {
    assert (0x10000 + (h - 0xD800) * 0x400 + (l - 0xDC00)) as char == c;
  }

  lemma PairSlices(high: string, low: string, tail: string, s: string)
    requires |high| == 4 && |low| == 4 && s == high + ("\\u" + low) + tail
    ensures |s| >= 10 && s[..4] == high && s[4..6] == "\\u" && s[6..][..4] == low && s[10..] == tail
  {
  }

  lemma PairUnit(high: string, low: string, h: nat, l: nat, c: char, tail: string)
    requires SpellsHex4(high, h) && SpellsHex4(low, l) && 0xD800 <= h < 0xDC00 && 0xDC00 <= l < 0xE000
    requires c as int == 0x10000 + (h - 0xD800) * 0x400 + (l - 0xDC00)
    ensures ParseUnicodeEscape(high + ("\\u" + low) + tail) == Parsed(c, tail)
  {
    var s := high + ("\\u" + low) + tail;
    PairSlices(high, low, tail, s);
    SpelledIsRead(s, high, h);
    SpelledIsRead(s[6..], low, l);
    PairRead(s, h, l, c, tail);
  }

  lemma Escaped(s: string, letter: char, body: string)
    requires s == "\\" + [letter] + body
    ensures s != "" && s[0] == '\\' && |s| > 1 && s[1] == letter && s[2..] == body
  {
  }

  lemma ShortParses(letter: char, c: char, tail: string, s: string)
    requires ShortFor(letter) == Some(c as int) && s == "\\" + [letter] + tail
    ensures ParseChar(s) == Parsed(c, tail)
  {
    Escaped(s, letter, tail);
  }

  lemma UnicodeParses(body: string, c: char, tail: string, s: string)
    requires ParseUnicodeEscape(body) == Parsed(c, tail) && s == "\\" + ['u'] + body
    ensures ParseChar(s) == Parsed(c, tail)
  {
    Escaped(s, 'u', body);
  }

  lemma UnitParses(u: Unit, c: char, tail: string)
    requires Means(u, c)
    ensures WriteUnit(u) != "" && WriteUnit(u)[0] != '"'
    ensures ParseChar(WriteUnit(u) + tail) == Parsed(c, tail)
  {
    match u {
      case Plain(p) => assert ([p] + tail)[1..] == tail;
      case Short(letter) => ShortParses(letter, c, tail, WriteUnit(u) + tail);
      case Hex(digits) =>
        HexUnit(digits, c, tail);
        Assoc("\\u", digits, tail);
        assert "\\u" == "\\" + ['u'];
        UnicodeParses(digits + tail, c, tail, WriteUnit(u) + tail);
      case Pair(high, low) =>
        PairParses(high, low, c, tail);
    }
  }

  lemma PairShape(high: string, low: string, tail: string)
    ensures WriteUnit(Pair(high, low)) + tail == "\\" + ['u'] + (high + ("\\u" + low) + tail)
  {
    Assoc("\\u", high, "\\u" + low);
    Assoc("\\u", high + ("\\u" + low), tail);
    assert "\\u" == "\\" + ['u'];
  }

  lemma PairParses(high: string, low: string, c: char, tail: string)
    requires Means(Pair(high, low), c)
    ensures ParseChar(WriteUnit(Pair(high, low)) + tail) == Parsed(c, tail)
  {
    var h: nat, l: nat :|
      && SpellsHex4(high, h) && SpellsHex4(low, l) && 0xD800 <= h < 0xDC00 && 0xDC00 <= l < 0xE000
      && c as int == 0x10000 + (h - 0xD800) * 0x400 + (l - 0xDC00);
    PairUnit(high, low, h, l, c, tail);
    PairShape(high, low, tail);
    UnicodeParses(high + ("\\u" + low) + tail, c, tail, WriteUnit(Pair(high, low)) + tail);
  }

  lemma {:induction false} UnitsParse(units: seq<Unit>, cs: string, tail: string)
    requires AllMean(units, cs)
    ensures ParseChars(WriteUnits(units) + ("\"" + tail)) == Parsed(cs, tail)
  {
    var quoted := "\"" + tail;
    if units == [] {
      NoLeft(quoted);
      assert quoted[1..] == tail;
    } else {
      var more := WriteUnits(units[1..]) + quoted;
      Assoc(WriteUnit(units[0]), WriteUnits(units[1..]), quoted);
      UnitParses(units[0], cs[0], more);
      UnitsParse(units[1..], cs[1..], tail);
      ParseCharsStep(WriteUnit(units[0]) + more, cs[0], more, cs[1..], tail);
      HeadTail(cs);
    }
  }

  lemma FractionParses(fraction: Option<string>, rest: string)
    requires FractionFine(fraction)
    requires rest == "" || !(IsDigit(rest[0]) || rest[0] == '.')
    ensures ParseFraction(WriteFraction(fraction) + rest) == Parsed(fraction.GetOr(""), rest)
  {
    if fraction.None? {
      NoLeft(rest);
    } else {
      Assoc(".", fraction.value, rest);
      assert ("." + (fraction.value + rest))[1..] == fraction.value + rest;
      TakePrinted(fraction.value, rest);
    }
  }

  lemma UnsignedExponent(s: string, digits: string, rest: string)
    requires |s| > 1 && (s[0] == 'e' || s[0] == 'E') && IsDigit(s[1]) && s[1..] == digits + rest
    requires digits != "" && AllDigits(digits) && TakeDigits(digits + rest) == (digits, rest)
    ensures ParseExponent(s) == Parsed(Read(digits), rest)
  {
  }

  lemma SignedExponent(s: string, digits: string, rest: string)
    requires |s| > 1 && (s[0] == 'e' || s[0] == 'E') && (s[1] == '+' || s[1] == '-') && s[2..] == digits + rest
    requires digits != "" && AllDigits(digits) && TakeDigits(digits + rest) == (digits, rest)
    ensures ParseExponent(s) == Parsed(Signed(s[1] == '-', Read(digits)), rest)
  {
  }

  /** An exponent letter, a sign or none, and digits. */
  lemma ExponentFrom(s: string, sign: string, digits: string, rest: string)
    requires s != "" && (s[0] == 'e' || s[0] == 'E') && (sign == "" || sign == "+" || sign == "-")
    requires s[1..] == sign + (digits + rest) && digits != "" && TakeDigits(digits + rest) == (digits, rest)
    requires AllDigits(digits)
    ensures ParseExponent(s) == Parsed(Signed(sign == "-", Read(digits)), rest)
  {
    var more := digits + rest;
    assert s[1] == s[1..][0];
    if sign == "" {
      NoLeft(more);
      assert more[0] == digits[0];
      UnsignedExponent(s, digits, rest);
    } else {
      assert s[2..] == s[1..][1..];
      TailAppend(sign, more);
      assert sign[1..] == "";
      NoLeft(more);
      SignedExponent(s, digits, rest);
    }
  }

  lemma ExponentShape(e: Exponent, rest: string)
    ensures var s := WriteExponent(Some(e)) + rest;
            s != "" && s[0] == e.letter && s[1..] == e.sign + (e.digits + rest)
  {
    Assoc([e.letter], e.sign + e.digits, rest);
    Assoc(e.sign, e.digits, rest);
  }

  lemma ExponentParses(exponent: Option<Exponent>, rest: string)
    requires ExponentFine(exponent) && Delimited(rest)
    ensures ParseExponent(WriteExponent(exponent) + rest) == Parsed(PowerOfTen(exponent), rest)
  {
    match exponent
    case None =>
      NoLeft(rest);
      NoTail(rest);
    case Some(e) =>
      SomeExponentParses(e, rest);
  }

  lemma SomeExponentParses(e: Exponent, rest: string)
    requires ExponentFine(Some(e)) && Delimited(rest)
    ensures ParseExponent(WriteExponent(Some(e)) + rest) == Parsed(Signed(e.sign == "-", Read(e.digits)), rest)
  {
    ExponentShape(e, rest);
    TakePrinted(e.digits, rest);
    ExponentFrom(WriteExponent(Some(e)) + rest, e.sign, e.digits, rest);
  }

  lemma AfterFraction(exponent: Option<Exponent>, rest: string)
    requires exponent.Some? ==> exponent.value.letter == 'e' || exponent.value.letter == 'E'
    requires Delimited(rest)
    ensures var after := WriteExponent(exponent) + rest; after == "" || !(IsDigit(after[0]) || after[0] == '.')
  {
    if exponent.None? {
      NoLeft(rest);
    } else {
      assert (WriteExponent(exponent) + rest)[0] == exponent.value.letter;
    }
  }

  lemma MarksStart(fraction: Option<string>, after: string)
    requires after == "" || !(IsDigit(after[0]) || after[0] == '.')
    ensures var tail := WriteFraction(fraction) + after; tail == "" || !IsDigit(tail[0])
  {
    if fraction.None? {
      NoLeft(after);
    } else {
      assert (WriteFraction(fraction) + after)[0] == '.';
    }
  }

  /** What follows the whole part: the fraction and the exponent, then anything a number may stop at. */
  lemma MarksParse(n: Number, after: string, rest: string)
    requires NumberFine(n) && Delimited(rest) && after == WriteExponent(n.exponent) + rest
    ensures var tail := WriteFraction(n.fraction) + after;
            && (tail == "" || !IsDigit(tail[0]))
            && ParseFraction(tail) == Parsed(FractionDigits(n), after)
            && ParseExponent(after) == Parsed(PowerOfTen(n.exponent), rest)
  {
    ExponentParses(n.exponent, rest);
    AfterFraction(n.exponent, rest);
    MarksStart(n.fraction, after);
    FractionParses(n.fraction, after);
  }

  lemma FinishParses(n: Number, tail: string, fs: string, after: string, e: int, rest: string)
    requires NumberFine(n) && fs == FractionDigits(n) && e == PowerOfTen(n.exponent)
    requires ParseFraction(tail) == Parsed(fs, after) && ParseExponent(after) == Parsed(e, rest)
    ensures FinishNumber(n.neg, n.whole, tail) == Parsed(NumberMeaning(n), rest)
  {
    AfterWhole(n.neg, n.whole, tail, fs, after, e, rest);
  }

  lemma SignedParses(n: Number, s: string, tail: string, rest: string)
    requires NumberFine(n) && (tail == "" || !IsDigit(tail[0]))
    requires s == (if n.neg then "-" else "") + n.whole + tail
    requires FinishNumber(n.neg, n.whole, tail) == Parsed(NumberMeaning(n), rest)
    ensures ParseNumber(s) == Parsed(NumberMeaning(n), rest)
  {
    DigitsAfterSign(n.neg, n.whole, tail, s);
    assert ParseNumber(s) == FinishNumber(n.neg, n.whole, tail);
  }

  lemma NumberStarts(n: Number)
    requires NumberFine(n)
    ensures WriteNumber(n) != "" && (IsDigit(WriteNumber(n)[0]) || WriteNumber(n)[0] == '-')
  {
    assert WriteNumber(n)[0] == if n.neg then '-' else n.whole[0];
  }

  lemma NumberParses(n: Number, rest: string)
    requires NumberFine(n) && Delimited(rest)
    ensures ParseNumber(WriteNumber(n) + rest) == Parsed(NumberMeaning(n), rest)
  {
    var sign, fraction, exponent := if n.neg then "-" else "", WriteFraction(n.fraction), WriteExponent(n.exponent);
    var after := exponent + rest;
    Assoc(sign + n.whole, fraction + exponent, rest);
    Assoc(fraction, exponent, rest);
    MarksParse(n, after, rest);
    FinishParses(n, fraction + after, FractionDigits(n), after, PowerOfTen(n.exponent), rest);
    SignedParses(n, WriteNumber(n) + rest, fraction + after, rest);
  }

  /** A value may stop here: text that starts with a space or a structural character, or nothing. */
  predicate Stops(rest: string) {
    rest == "" || rest[0] == ',' || rest[0] == ']' || rest[0] == '}' || Spaces(rest[..1])
  }

  lemma StopsDelimits(rest: string)
    requires Stops(rest)
    ensures Delimited(rest)
  {
    if rest != "" {
      assert rest[..1][0] == rest[0];
    }
  }

  lemma StopsAfter(after: string, c: char, more: string)
    requires Spaces(after) && (c == ',' || c == ']' || c == '}')
    ensures Stops(after + ([c] + more)) && SkipSpace(after + ([c] + more)) == [c] + more
  {
    SpacesAreSkipped(after, [c] + more);
    if after == "" {
      NoLeft([c] + more);
    } else {
      assert (after + ([c] + more))[..1][0] == after[0];
    }
  }

  /** How a value begins: never with a space, and with a bracket only when it is one. */
  lemma NodeStarts(n: Node, v: Json)
    requires NodeSpells(n, v)
    ensures var s := WriteNode(n);
            && s != "" && !IsJsonSpace(s[0]) && s[0] != ']' && s[0] != '}'
            && (s[0] == '{' <==> n.Object?) && (s[0] == '[' <==> n.Array?)
  {
    if n.Num? {
      NumberStarts(n.number);
    }
  }

  lemma ScalarStarts(n: Node, v: Json, t: string)
    requires NodeSpells(n, v) && !n.Array? && !n.Object?
    ensures ParseValue(WriteNode(n) + t) == ParseScalar(WriteNode(n) + t)
  {
    NodeStarts(n, v);
    var s := WriteNode(n) + t;
    assert s[0] == WriteNode(n)[0];
    assert SkipSpace(s) == s;
  }

  lemma WordParses(n: Node, v: Json, rest: string)
    requires (n.NullWord? || n.TrueWord? || n.FalseWord?) && NodeSpells(n, v)
    ensures ParseScalar(WriteNode(n) + rest) == Parsed(v, rest)
  {
    var w := WriteNode(n);
    assert w <= w + rest && (w + rest)[|w|..] == rest && (w + rest)[0] == w[0];
  }

  lemma QuotedParses(units: seq<Unit>, cs: string, rest: string)
    requires AllMean(units, cs)
    ensures ParseScalar(WriteNode(Quoted(units)) + rest) == Parsed(Str(cs), rest)
  {
    var s := WriteNode(Quoted(units)) + rest;
    Assoc("\"", WriteUnits(units) + "\"", rest);
    Assoc(WriteUnits(units), "\"", rest);
    assert s[1..] == WriteUnits(units) + ("\"" + rest) && s[0] == '"';
    UnitsParse(units, cs, rest);
  }

  lemma NumParses(n: Number, rest: string)
    requires NumberFine(n) && Delimited(rest)
    ensures ParseScalar(WriteNode(Num(n)) + rest) == Parsed(NumberMeaning(n), rest)
  {
    NumberStarts(n);
    assert (WriteNumber(n) + rest)[0] == WriteNumber(n)[0];
    NumberParses(n, rest);
  }

  lemma ScalarParses(n: Node, v: Json, rest: string)
    requires NodeSpells(n, v) && !n.Array? && !n.Object? && Delimited(rest)
    ensures ParseValue(WriteNode(n) + rest) == Parsed(v, rest)
  {
    ScalarStarts(n, v, rest);
    match n
    case Num(number) => NumParses(number, rest);
    case Quoted(units) => QuotedParses(units, v.s, rest);
    case _ => WordParses(n, v, rest);
  }

  lemma LeadingSpace(ws: string, s: string)
    requires Spaces(ws)
    ensures ParseValue(ws + s) == ParseValue(s)
  {
    SpacesAreSkipped(ws, s);
  }

  /** A spelling in front of anything a value may stop at is read, and nothing after it. */
  lemma {:induction false} TextParses(t: Text, v: Json, rest: string)
    requires Spells(t, v) && Stops(rest)
    ensures ParseValue(Write(t) + rest) == Parsed(v, rest)
    decreases t, 1
  {
    Assoc(t.before, WriteNode(t.node), rest);
    LeadingSpace(t.before, WriteNode(t.node) + rest);
    NodeParses(t.node, v, rest);
  }

  lemma {:induction false} NodeParses(n: Node, v: Json, rest: string)
    requires NodeSpells(n, v) && Stops(rest)
    ensures ParseValue(WriteNode(n) + rest) == Parsed(v, rest)
    decreases n, 0
  {
    match n
    case Array(inner, items) =>
      if items == [] {
        EmptyArray(inner, rest);
        NoneSpelled(v.items, []);
      } else {
        ItemsParse(items, v.items, [], rest);
        NoLeft(v.items);
        ArrayOpens(inner, items, v.items, rest);
      }
    case Object(inner, entries) =>
      if entries == [] {
        EmptyObject(inner, rest);
        NoneSpelled([], v.members);
      } else {
        EntriesParse(entries, [], v.members, rest);
        ObjectOpens(inner, entries, v.members, rest);
      }
    case _ =>
      StopsDelimits(rest);
      ScalarParses(n, v, rest);
  }

  lemma NoneSpelled(vs: seq<Json>, ms: seq<Member>)
    ensures ItemsSpell([], vs) ==> vs == []
    ensures EntriesSpell([], [], ms) ==> ms == []
  {
  }

  lemma BracketShape(open: string, body: string, close: string, rest: string)
    ensures open + (body + close) + rest == open + (body + (close + rest))
  {
    Assoc(open, body + close, rest);
    Assoc(body, close, rest);
  }

  lemma EmptyArray(inner: string, rest: string)
    requires Spaces(inner)
    ensures ParseValue(WriteNode(Array(inner, [])) + rest) == Parsed(Arr([]), rest)
  {
    var s := WriteNode(Array(inner, [])) + rest;
    BracketShape("[", inner, "]", rest);
    assert SkipSpace(s) == s && s[1..] == inner + ("]" + rest);
    StopsAfter(inner, ']', rest);
    assert ("]" + rest)[1..] == rest;
  }

  lemma EmptyObject(inner: string, rest: string)
    requires Spaces(inner)
    ensures ParseValue(WriteNode(Object(inner, [])) + rest) == Parsed(Obj([]), rest)
  {
    var s := WriteNode(Object(inner, [])) + rest;
    BracketShape("{", inner, "}", rest);
    assert SkipSpace(s) == s && s[1..] == inner + ("}" + rest);
    StopsAfter(inner, '}', rest);
    assert ("}" + rest)[1..] == rest;
  }

  /** The first thing after the space a list begins with. */
  lemma ItemsStart(items: seq<Item>, vs: seq<Json>, rest: string)
    requires items != [] && ItemsSpell(items, vs)
    ensures var u := SkipSpace(WriteItems(items) + rest); u != "" && u[0] != ']'
  {
    var t := items[0].value;
    var more := items[0].after + if |items| == 1 then "" else "," + WriteItems(items[1..]);
    NodeStarts(t.node, vs[0]);
    Assoc(t.before, WriteNode(t.node), more);
    Assoc(t.before, WriteNode(t.node) + more, rest);
    SpacesAreSkipped(t.before, WriteNode(t.node) + more + rest);
    var u := WriteNode(t.node) + more + rest;
    assert u[0] == WriteNode(t.node)[0];
    assert SkipSpace(u) == u;
  }

  lemma Opened(open: string, body: string, s: string)
    requires open == "[" || open == "{"
    requires s == open + body
    ensures s != "" && s[0] == open[0] && s[1..] == body && SkipSpace(s) == s
  {
  }

  lemma ArrayOpens(inner: string, items: seq<Item>, vs: seq<Json>, rest: string)
    requires items != [] && ItemsSpell(items, vs)
    requires ParseItems(WriteItems(items) + ("]" + rest), []) == Parsed(Arr(vs), rest)
    ensures ParseValue(WriteNode(Array(inner, items)) + rest) == Parsed(Arr(vs), rest)
  {
    var body := WriteItems(items) + ("]" + rest);
    var s := "[" + body;
    BracketShape("[", WriteItems(items), "]", rest);
    ItemsStart(items, vs, "]" + rest);
    Opened("[", body, s);
  }

  lemma ObjectOpens(inner: string, entries: seq<Entry>, ms: seq<Member>, rest: string)
    requires entries != [] && EntriesSpell(entries, [], ms)
    requires ParseMembers(WriteEntries(entries) + ("}" + rest), []) == Parsed(Obj(ms), rest)
    ensures ParseValue(WriteNode(Object(inner, entries)) + rest) == Parsed(Obj(ms), rest)
  {
    var body := WriteEntries(entries) + ("}" + rest);
    var s := "{" + body;
    BracketShape("{", WriteEntries(entries), "}", rest);
    EntriesStart(entries, "}" + rest);
    Opened("{", body, s);
  }

  lemma KeyShape(e: Entry, more: string)
    ensures WriteKey(e) + more == e.before + ("\"" + (WriteUnits(e.key) + ("\"" + (e.colon + (":" + more)))))
  {
    Assoc(e.before, "\"" + (WriteUnits(e.key) + ("\"" + (e.colon + ":"))), more);
    Assoc("\"", WriteUnits(e.key) + ("\"" + (e.colon + ":")), more);
    Assoc(WriteUnits(e.key), "\"" + (e.colon + ":"), more);
    Assoc("\"", e.colon + ":", more);
    Assoc(e.colon, ":", more);
  }

  lemma EntriesStart(entries: seq<Entry>, rest: string)
    requires entries != [] && Spaces(entries[0].before)
    ensures var u := SkipSpace(WriteEntries(entries) + rest); u != "" && u[0] == '"'
  {
    var e := entries[0];
    var more := Write(e.value) + (e.after + if |entries| == 1 then "" else "," + WriteEntries(entries[1..]));
    Assoc(WriteKey(e), more, rest);
    KeyShape(e, more + rest);
    var u := "\"" + (WriteUnits(e.key) + ("\"" + (e.colon + (":" + (more + rest)))));
    SpacesAreSkipped(e.before, u);
    assert u[0] == '"';
    assert SkipSpace(u) == u;
  }

  lemma KeyParses(e: Entry, more: string)
    requires EntryFine(e)
    ensures ParseKey(WriteKey(e) + more) == Parsed(e.name, more)
  {
    var afterKey := e.colon + (":" + more);
    var u := "\"" + (WriteUnits(e.key) + ("\"" + afterKey));
    KeyShape(e, more);
    SpacesAreSkipped(e.before, u);
    assert u[0] == '"' && SkipSpace(u) == u && u[1..] == WriteUnits(e.key) + ("\"" + afterKey);
    UnitsParse(e.key, e.name, afterKey);
    SpacesAreSkipped(e.colon, ":" + more);
    assert SkipSpace(":" + more) == ":" + more && (":" + more)[1..] == more;
  }

  /** What follows an element: its space, then a comma and the others or the end. */
  lemma ItemShape(items: seq<Item>, rest: string)
    requires items != []
    ensures WriteItems(items) + ("]" + rest)
         == Write(items[0].value)
            + (items[0].after
               + if |items| == 1 then "]" + rest else "," + (WriteItems(items[1..]) + ("]" + rest)))
  {
    var (w, a, close) := (Write(items[0].value), items[0].after, "]" + rest);
    if |items| == 1 {
      NoRight(a);
      Assoc(w, a, close);
    } else {
      Assoc(w, a + ("," + WriteItems(items[1..])), close);
      Assoc(a, "," + WriteItems(items[1..]), close);
      Assoc(",", WriteItems(items[1..]), close);
    }
  }

  lemma EntryShape(entries: seq<Entry>, rest: string)
    requires entries != []
    ensures WriteEntries(entries) + ("}" + rest)
         == WriteKey(entries[0])
            + (Write(entries[0].value)
               + (entries[0].after
                  + if |entries| == 1 then "}" + rest else "," + (WriteEntries(entries[1..]) + ("}" + rest))))
  {
    var e, close := entries[0], "}" + rest;
    var w, a := Write(e.value), e.after;
    if |entries| == 1 {
      NoRight(a);
      Assoc(WriteKey(e), w + a, close);
      Assoc(w, a, close);
    } else {
      var others := "," + WriteEntries(entries[1..]);
      Assoc(WriteKey(e), w + (a + others), close);
      Assoc(w, a + others, close);
      Assoc(a, others, close);
      Assoc(",", WriteEntries(entries[1..]), close);
    }
  }

  lemma LastItem(s: string, acc: seq<Json>, v: Json, after: string, rest: string)
    requires ParseValue(s) == Parsed(v, after + ("]" + rest)) && Spaces(after)
    ensures ParseItems(s, acc) == Parsed(Arr(acc + [v]), rest)
  {
    StopsAfter(after, ']', rest);
    assert ("]" + rest)[1..] == rest;
  }

  lemma NextItem(s: string, acc: seq<Json>, v: Json, after: string, more: string)
    requires ParseValue(s) == Parsed(v, after + ("," + more)) && Spaces(after)
    ensures ParseItems(s, acc) == ParseItems(more, acc + [v])
  {
    StopsAfter(after, ',', more);
    assert ("," + more)[1..] == more;
  }

  lemma {:induction false} ItemsParse(items: seq<Item>, vs: seq<Json>, acc: seq<Json>, rest: string)
    requires items != [] && ItemsSpell(items, vs)
    ensures ParseItems(WriteItems(items) + ("]" + rest), acc) == Parsed(Arr(acc + vs), rest)
    decreases items
  {
    var (a, s) := (items[0].after, WriteItems(items) + ("]" + rest));
    ItemShape(items, rest);
    Shift(acc, vs);
    if |items| == 1 {
      assert items[1..] == [];
      assert vs[1..] == [];
      StopsAfter(a, ']', rest);
      TextParses(items[0].value, vs[0], a + ("]" + rest));
      LastItem(s, acc, vs[0], a, rest);
    } else {
      var more := WriteItems(items[1..]) + ("]" + rest);
      StopsAfter(a, ',', more);
      TextParses(items[0].value, vs[0], a + ("," + more));
      NextItem(s, acc, vs[0], a, more);
      ItemsParse(items[1..], vs[1..], acc + [vs[0]], rest);
    }
  }

  lemma EntryReads(e: Entry, afterValue: string)
    requires EntryFine(e) && ParseValue(Write(e.value) + afterValue) == Parsed(e.meaning, afterValue)
    ensures ReadsMember(WriteKey(e) + (Write(e.value) + afterValue), e.name, e.meaning, afterValue)
  {
    KeyParses(e, Write(e.value) + afterValue);
  }

  lemma LastEntry(s: string, acc: seq<Member>, k: string, v: Json, after: string, rest: string)
    requires ReadsMember(s, k, v, after + ("}" + rest)) && Spaces(after)
    ensures ParseMembers(s, acc) == Parsed(Obj(Put(acc, k, v)), rest)
  {
    StopsAfter(after, '}', rest);
    assert ("}" + rest)[1..] == rest;
  }

  lemma NextEntry(s: string, acc: seq<Member>, k: string, v: Json, after: string, more: string)
    requires ReadsMember(s, k, v, after + ("," + more)) && Spaces(after)
    ensures ParseMembers(s, acc) == ParseMembers(more, Put(acc, k, v))
  {
    StopsAfter(after, ',', more);
    assert ("," + more)[1..] == more;
  }

  lemma {:induction false} EntriesParse(entries: seq<Entry>, acc: seq<Member>, ms: seq<Member>, rest: string)
    requires entries != [] && EntriesSpell(entries, acc, ms)
    ensures ParseMembers(WriteEntries(entries) + ("}" + rest), acc) == Parsed(Obj(ms), rest)
    decreases entries
  {
    var e, s := entries[0], WriteEntries(entries) + ("}" + rest);
    EntryShape(entries, rest);
    if |entries| == 1 {
      assert entries[1..] == [];
      StopsAfter(e.after, '}', rest);
      TextParses(e.value, e.meaning, e.after + ("}" + rest));
      EntryReads(e, e.after + ("}" + rest));
      LastEntry(s, acc, e.name, e.meaning, e.after, rest);
    } else {
      var more := WriteEntries(entries[1..]) + ("}" + rest);
      StopsAfter(e.after, ',', more);
      TextParses(e.value, e.meaning, e.after + ("," + more));
      EntryReads(e, e.after + ("," + more));
      NextEntry(s, acc, e.name, e.meaning, e.after, more);
      EntriesParse(entries[1..], Put(acc, e.name, e.meaning), ms, rest);
    }
  }

  /** Every spelling of a value, with whatever space around it, is read as that value. */
  lemma SpellingIsRead(t: Text, v: Json, after: string)
    requires Spells(t, v) && Spaces(after)
    ensures Parse(Write(t) + after) == Some(v)
  {
    if after != "" {
      assert after[..1][0] == after[0];
    }
    TextParses(t, v, after);
    SpacesAreSkipped(after, "");
    NoRight(after);
  }

  // ----- nothing else is read -----

  lemma {:induction false} SkippedAreSpaces(s: string) returns (ws: string)
    ensures Spaces(ws) && s == ws + SkipSpace(s)
  {
    if s != "" && IsJsonSpace(s[0]) {
      var more := SkippedAreSpaces(s[1..]);
      ws := [s[0]] + more;
      Assoc([s[0]], more, SkipSpace(s[1..]));
      HeadTail(s);
    } else {
      ws := "";
      NoLeft(s);
    }
  }

  lemma HexRead(s: string, c: char, rest: string) returns (u: Unit)
    requires ParseUnicodeEscape(s) == Parsed(c, rest)
    ensures Means(u, c) && "\\u" + s == WriteUnit(u) + rest
  {
    ReadIsSpelled(s);
    var n := Hex4(s).value;
    if n < 0xD800 || 0xE000 <= n < 0x10000 {
      u := Hex(s[..4]);
      assert s == s[..4] + rest;
      Assoc("\\u", s[..4], rest);
    } else {
      PairIsSpelled(s, c, rest);
      u := Pair(s[..4], s[6..10]);
    }
  }

  lemma PairRests(s: string, c: char, rest: string, h: nat, l: nat)
    requires ParseUnicodeEscape(s) == Parsed(c, rest)
    requires Hex4(s) == Some(h) && 0xD800 <= h < 0xDC00 && (Hex4(s[6..]).Some? ==> Hex4(s[6..]).value == l)
    ensures |s| >= 10 && s[4..6] == "\\u" && Hex4(s[6..]) == Some(l) && 0xDC00 <= l < 0xE000
    ensures c as int == 0x10000 + (h - 0xD800) * 0x400 + (l - 0xDC00) && rest == s[10..]
  {
  }

  lemma PairText(s: string)
    requires |s| >= 10 && s[4..6] == "\\u"
    ensures "\\u" + s == WriteUnit(Pair(s[..4], s[6..10])) + s[10..]
  {
  }

  lemma PairIsSpelled(s: string, c: char, rest: string)
    requires ParseUnicodeEscape(s) == Parsed(c, rest)
    requires Hex4(s).Some? && 0xD800 <= Hex4(s).value < 0xDC00
    ensures |s| >= 10 && Means(Pair(s[..4], s[6..10]), c)
    ensures "\\u" + s == WriteUnit(Pair(s[..4], s[6..10])) + rest
  {
    var h, l := Hex4(s).value, Hex4(s[6..]).GetOr(0);
    PairRests(s, c, rest, h, l);
    ReadIsSpelled(s);
    ReadIsSpelled(s[6..]);
    assert s[6..][..4] == s[6..10];
    PairText(s);
  }

  lemma ShortRead(s: string, c: char, rest: string) returns (u: Unit)
    requires |s| > 1 && s[0] == '\\' && s[1] != 'u' && ParseChar(s) == Parsed(c, rest)
    ensures Means(u, c) && s == WriteUnit(u) + rest
  {
    u := Short(s[1]);
    assert rest == s[2..];
    assert s == "\\" + [s[1]] + s[2..];
  }

  lemma UnitRead(s: string, c: char, rest: string) returns (u: Unit)
    requires s != "" && s[0] != '"' && ParseChar(s) == Parsed(c, rest)
    ensures Means(u, c) && s == WriteUnit(u) + rest
  {
    if s[0] != '\\' {
      u := Plain(s[0]);
      HeadTail(s);
    } else if s[1] == 'u' {
      u := HexRead(s[2..], c, rest);
      assert s == "\\u" + s[2..];
    } else {
      u := ShortRead(s, c, rest);
    }
  }

  lemma {:induction false} UnitsRead(s: string) returns (units: seq<Unit>)
    requires ParseChars(s).Parsed?
    ensures AllMean(units, ParseChars(s).value) && s == WriteUnits(units) + ("\"" + ParseChars(s).rest)
    decreases |s|
  {
    if s[0] == '"' {
      units := [];
      HeadTail(s);
      NoLeft("\"" + s[1..]);
    } else {
      var one := ParseChar(s);
      var u := UnitRead(s, one.value, one.rest);
      var more := UnitsRead(one.rest);
      units := [u] + more;
      UnitsCons(u, one.value, more, ParseChars(one.rest).value);
      Assoc(WriteUnit(u), WriteUnits(more), "\"" + ParseChars(s).rest);
    }
  }

  lemma MeansCons(u: Unit, c: char, units: seq<Unit>, cs: string)
    requires Means(u, c) && AllMean(units, cs)
    ensures AllMean([u] + units, [c] + cs)
  {
    forall i | 0 <= i < |[c] + cs|
      ensures Means(([u] + units)[i], ([c] + cs)[i])
    {
      if i > 0 {
        var j := i - 1;
        assert ([u] + units)[i] == units[j] && ([c] + cs)[i] == cs[j];
        assert Means(units[j], cs[j]);
      }
    }
  }

  lemma UnitsCons(u: Unit, c: char, units: seq<Unit>, cs: string)
    requires Means(u, c) && AllMean(units, cs)
    ensures AllMean([u] + units, [c] + cs) && WriteUnits([u] + units) == WriteUnit(u) + WriteUnits(units)
  {
    MeansCons(u, c, units, cs);
    var all := [u] + units;
    assert all[0] == u && all[1..] == units;
  }

  lemma FractionRead(s: string) returns (fraction: Option<string>)
    requires ParseFraction(s).Parsed?
    ensures FractionFine(fraction)
    ensures fraction.GetOr("") == ParseFraction(s).value && s == WriteFraction(fraction) + ParseFraction(s).rest
  {
    if s != "" && s[0] == '.' {
      var (ds, rest) := TakeDigits(s[1..]);
      fraction := Some(ds);
      HeadTail(s);
      Assoc(".", ds, rest);
    } else {
      fraction := None;
      NoLeft(s);
    }
  }

  lemma ExponentSplits(s: string) returns (sign: string, ds: string, rest: string)
    requires ParseExponent(s).Parsed? && s != "" && (s[0] == 'e' || s[0] == 'E')
    ensures (sign == "" || sign == "+" || sign == "-") && s[1..] == sign + (ds + rest)
    ensures ds != "" && AllDigits(ds) && ParseExponent(s) == Parsed(Signed(sign == "-", Read(ds)), rest)
  {
    var more := s[1..];
    if |s| > 1 && (s[1] == '+' || s[1] == '-') {
      sign := [s[1]];
      assert more[0] == s[1] && more[1..] == s[2..];
      HeadTail(more);
      ds, rest := TakeDigits(s[2..]).0, TakeDigits(s[2..]).1;
    } else {
      sign := "";
      ds, rest := TakeDigits(more).0, TakeDigits(more).1;
      NoLeft(ds + rest);
    }
  }

  lemma ExponentRead(s: string) returns (exponent: Option<Exponent>)
    requires ParseExponent(s).Parsed?
    ensures ExponentFine(exponent) && PowerOfTen(exponent) == ParseExponent(s).value
    ensures s == WriteExponent(exponent) + ParseExponent(s).rest
  {
    if s != "" && (s[0] == 'e' || s[0] == 'E') {
      var sign, ds, rest := ExponentSplits(s);
      exponent := Some(Exponent(s[0], sign, ds));
      HeadTail(s);
      Assoc(sign, ds, rest);
      Assoc([s[0]], sign + ds, rest);
    } else {
      exponent := None;
      NoLeft(s);
    }
  }

  lemma FinishParts(neg: bool, whole: string, tail: string)
    requires AllDigits(whole) && FinishNumber(neg, whole, tail).Parsed?
    ensures ParseFraction(tail).Parsed? && ParseExponent(ParseFraction(tail).rest).Parsed?
    ensures ParseExponent(ParseFraction(tail).rest).rest == FinishNumber(neg, whole, tail).rest
  {
  }

  lemma FinishRead(neg: bool, whole: string, tail: string)
    returns (fraction: Option<string>, exponent: Option<Exponent>)
    requires Canonical(whole) && FinishNumber(neg, whole, tail).Parsed?
    ensures var n := Number(neg, whole, fraction, exponent);
            && NumberFine(n) && NumberMeaning(n) == FinishNumber(neg, whole, tail).value
            && tail == WriteFraction(fraction) + (WriteExponent(exponent) + FinishNumber(neg, whole, tail).rest)
  {
    FinishParts(neg, whole, tail);
    fraction := FractionRead(tail);
    var after := ParseFraction(tail).rest;
    exponent := ExponentRead(after);
    FinishMeans(Number(neg, whole, fraction, exponent), tail, after);
  }

  lemma FinishMeans(n: Number, tail: string, after: string)
    requires NumberFine(n) && ParseFraction(tail) == Parsed(FractionDigits(n), after)
    requires ParseExponent(after).Parsed? && ParseExponent(after).value == PowerOfTen(n.exponent)
    ensures FinishNumber(n.neg, n.whole, tail) == Parsed(NumberMeaning(n), ParseExponent(after).rest)
  {
    FinishParses(n, tail, FractionDigits(n), after, PowerOfTen(n.exponent), ParseExponent(after).rest);
  }

  lemma SignAndDigits(s: string, neg: bool, ds: string, tail: string)
    requires neg == (s != "" && s[0] == '-') && TakeDigits(if neg then s[1..] else s) == (ds, tail)
    ensures s == (if neg then "-" else "") + ds + tail
  {
    if neg {
      HeadTail(s);
      Assoc("-", ds, tail);
    } else {
      NoLeft(ds);
    }
  }

  lemma NumberRead(s: string) returns (n: Number)
    requires ParseNumber(s).Parsed?
    ensures NumberFine(n) && NumberMeaning(n) == ParseNumber(s).value && s == WriteNumber(n) + ParseNumber(s).rest
  {
    var neg := s != "" && s[0] == '-';
    var (ds, tail) := TakeDigits(if neg then s[1..] else s);
    var fraction, exponent := FinishRead(neg, ds, tail);
    n := Number(neg, ds, fraction, exponent);
    var rest := ParseNumber(s).rest;
    SignAndDigits(s, neg, ds, tail);
    Assoc(WriteFraction(fraction), WriteExponent(exponent), rest);
    Assoc((if neg then "-" else "") + ds, WriteFraction(fraction) + WriteExponent(exponent), rest);
  }

  lemma QuotedRead(s: string) returns (n: Node)
    requires s != "" && s[0] == '"' && ParseScalar(s).Parsed?
    ensures NodeSpells(n, ParseScalar(s).value) && s == WriteNode(n) + ParseScalar(s).rest
  {
    var units := UnitsRead(s[1..]);
    n := Quoted(units);
    var rest := ParseChars(s[1..]).rest;
    HeadTail(s);
    Assoc(WriteUnits(units), "\"", rest);
    Assoc("\"", WriteUnits(units) + "\"", rest);
  }

  lemma ScalarRead(s: string) returns (n: Node)
    requires s != "" && ParseScalar(s).Parsed?
    ensures NodeSpells(n, ParseScalar(s).value) && s == WriteNode(n) + ParseScalar(s).rest
  {
    if s[0] == '"' {
      n := QuotedRead(s);
    } else if s[0] == 't' || s[0] == 'f' || s[0] == 'n' {
      n := if s[0] == 't' then TrueWord else if s[0] == 'f' then FalseWord else NullWord;
    } else {
      var number := NumberRead(s);
      n := Num(number);
    }
  }

  /** What ends or goes on after a value: its space, then the character found there. */
  lemma Found(rest: string, c: char) returns (after: string)
    requires SkipSpace(rest) != "" && SkipSpace(rest)[0] == c
    ensures Spaces(after) && rest == after + ([c] + SkipSpace(rest)[1..])
  {
    after := SkippedAreSpaces(rest);
    HeadTail(SkipSpace(rest));
  }

  lemma {:induction false} TextRead(s: string) returns (t: Text)
    requires ParseValue(s).Parsed?
    ensures Spells(t, ParseValue(s).value) && s == Write(t) + ParseValue(s).rest
    decreases |s|, 2
  {
    var ws := SkippedAreSpaces(s);
    var u := SkipSpace(s);
    var n := NodeRead(s, u);
    t := Text(ws, n);
    Assoc(ws, WriteNode(n), ParseValue(s).rest);
  }

  lemma NodeRead(s: string, u: string) returns (n: Node)
    requires ParseValue(s).Parsed? && u == SkipSpace(s)
    ensures NodeSpells(n, ParseValue(s).value) && u == WriteNode(n) + ParseValue(s).rest
    decreases |s|, 1
  {
    if u[0] == '[' {
      n := ArrayRead(s, u);
    } else if u[0] == '{' {
      n := ObjectRead(s, u);
    } else {
      n := ScalarRead(u);
    }
  }

  lemma ArrayRead(s: string, u: string) returns (n: Node)
    requires ParseValue(s).Parsed? && u == SkipSpace(s) && u[0] == '['
    ensures NodeSpells(n, ParseValue(s).value) && u == WriteNode(n) + ParseValue(s).rest
    decreases |s|, 0
  {
    var v, rest := ParseValue(s).value, ParseValue(s).rest;
    var w := SkipSpace(u[1..]);
    HeadTail(u);
    if w != "" && w[0] == ']' {
      var inner := Found(u[1..], ']');
      n := Array(inner, []);
      BracketShape("[", inner, "]", rest);
    } else {
      var items, vs := ItemsRead(u[1..], []);
      n := Array("", items);
      NoLeft(vs);
      BracketShape("[", WriteItems(items), "]", rest);
    }
  }

  lemma ObjectRead(s: string, u: string) returns (n: Node)
    requires ParseValue(s).Parsed? && u == SkipSpace(s) && u[0] == '{'
    ensures NodeSpells(n, ParseValue(s).value) && u == WriteNode(n) + ParseValue(s).rest
    decreases |s|, 0
  {
    var rest := ParseValue(s).rest;
    var w := SkipSpace(u[1..]);
    HeadTail(u);
    if w != "" && w[0] == '}' {
      var inner := Found(u[1..], '}');
      n := Object(inner, []);
      BracketShape("{", inner, "}", rest);
    } else {
      var entries := EntriesRead(u[1..], []);
      n := Object("", entries);
      BracketShape("{", WriteEntries(entries), "}", rest);
    }
  }

  lemma ItemsCons(item: Item, v: Json, items: seq<Item>, vs: seq<Json>)
    requires Spells(item.value, v) && Spaces(item.after) && ItemsSpell(items, vs)
    ensures ItemsSpell([item] + items, [v] + vs)
    ensures items == [] ==> WriteItems([item] + items) == Write(item.value) + item.after
    ensures items != [] ==>
              WriteItems([item] + items) == Write(item.value) + (item.after + ("," + WriteItems(items)))
  {
    TailAppend([item], items);
    TailAppend([v], vs);
    NoLeft(items);
    NoLeft(vs);
    NoRight(item.after);
  }

  lemma {:induction false} ItemsRead(s: string, acc: seq<Json>) returns (items: seq<Item>, vs: seq<Json>)
    requires ParseItems(s, acc).Parsed?
    ensures items != [] && ItemsSpell(items, vs) && ParseItems(s, acc).value == Arr(acc + vs)
    ensures s == WriteItems(items) + ("]" + ParseItems(s, acc).rest)
    decreases |s|, 3
  {
    var t := TextRead(s);
    var v, after := ParseValue(s).value, ParseValue(s).rest;
    var u := SkipSpace(after);
    if u[0] == ',' {
      var space := Found(after, ',');
      var more, ws := ItemsRead(u[1..], acc + [v]);
      items, vs := [Item(t, space)] + more, [v] + ws;
      ItemsCons(Item(t, space), v, more, ws);
      Assoc(acc, [v], ws);
      ItemShape(items, ParseItems(s, acc).rest);
      TailAppend([Item(t, space)], more);
      NoLeft(more);
    } else {
      var space := Found(after, ']');
      items, vs := [Item(t, space)], [v];
      ItemsCons(Item(t, space), v, [], []);
      NoRight([Item(t, space)]);
      NoRight([v]);
      ItemShape(items, u[1..]);
    }
  }

  lemma KeyRead(s: string) returns (before: string, units: seq<Unit>, colon: string)
    requires ParseKey(s).Parsed?
    ensures Spaces(before) && AllMean(units, ParseKey(s).value) && Spaces(colon)
    ensures s == before + ("\"" + (WriteUnits(units) + ("\"" + (colon + (":" + ParseKey(s).rest)))))
  {
    before := Found(s, '"');
    var u := SkipSpace(s);
    units := UnitsRead(u[1..]);
    colon := Found(ParseChars(u[1..]).rest, ':');
  }

  lemma EntriesCons(e: Entry, entries: seq<Entry>, acc: seq<Member>, ms: seq<Member>)
    requires EntryFine(e) && Spells(e.value, e.meaning) && EntriesSpell(entries, Put(acc, e.name, e.meaning), ms)
    ensures EntriesSpell([e] + entries, acc, ms) && ([e] + entries)[0] == e && ([e] + entries)[1..] == entries
  {
    TailAppend([e], entries);
    NoLeft(entries);
  }

  lemma {:induction false} EntriesRead(s: string, acc: seq<Member>) returns (entries: seq<Entry>)
    requires ParseMembers(s, acc).Parsed?
    ensures entries != [] && ParseMembers(s, acc).value.Obj?
    ensures EntriesSpell(entries, acc, ParseMembers(s, acc).value.members)
    ensures s == WriteEntries(entries) + ("}" + ParseMembers(s, acc).rest)
    decreases |s|, 3
  {
    var before, units, colon := KeyRead(s);
    var k, afterKey := ParseKey(s).value, ParseKey(s).rest;
    var t := TextRead(afterKey);
    var v, after := ParseValue(afterKey).value, ParseValue(afterKey).rest;
    var u := SkipSpace(after);
    if u[0] == ',' {
      var space := Found(after, ',');
      var more := EntriesRead(u[1..], Put(acc, k, v));
      var e := Entry(before, units, k, colon, t, v, space);
      entries := [e] + more;
      EntriesCons(e, more, acc, ParseMembers(s, acc).value.members);
      EntryShape(entries, ParseMembers(s, acc).rest);
      KeyShape(e, afterKey);
    } else {
      var space := Found(after, '}');
      var e := Entry(before, units, k, colon, t, v, space);
      entries := [e];
      NoRight([e]);
      EntriesCons(e, [], acc, Put(acc, k, v));
      EntryShape(entries, u[1..]);
      KeyShape(e, afterKey);
    }
  }

  /** Nothing is read but spellings: a text that is read as a value is one of its spellings. */
  lemma ReadIsSpelling(text: string) returns (t: Text, after: string)
    requires Parse(text).Some?
    ensures Spells(t, Parse(text).value) && Spaces(after) && text == Write(t) + after
  {
    t := TextRead(text);
    after := SkippedAreSpaces(ParseValue(text).rest);
    NoRight(after);
  }

  ghost predicate IsSpelling(text: string, v: Json) {
    exists t, after :: Spells(t, v) && Spaces(after) && text == Write(t) + after
  }

  /** The parser reads exactly the spellings of a value, each as that value. */
  lemma ParsesExactly(text: string, v: Json)
    ensures Parse(text) == Some(v) <==> IsSpelling(text, v)
  {
    if Parse(text) == Some(v) {
      var t, after := ReadIsSpelling(text);
    }
    if t, after :| Spells(t, v) && Spaces(after) && text == Write(t) + after {
      SpellingIsRead(t, v, after);
    }
  }

  // ----- what a number and a repeated key come to -----

  /** `x` divided by ten `k` times. */
  function Tenths(x: real, k: nat): real
    decreases k
  {
    if k == 0 then x else Tenths(x / 10.0, k - 1)
  }

  function Tens(x: real, k: nat): real
    decreases k
  {
    if k == 0 then x else Tens(x * 10.0, k - 1)
  }

  /** The rational a number stands for. */
  function Value(v: Json): real
    requires v.Int? || v.Frac?
  {
    match v
    case Int(n) => n as real
    case Frac(m, scale) => Tenths(m as real, scale)
  }

  lemma {:induction false} ShiftedIsTens(m: nat, k: nat, neg: bool)
    ensures Signed(neg, Shifted(m, k)) as real == Tens(Signed(neg, m) as real, k)
    decreases k
  {
    if k > 0 {
      ShiftedIsTens(m * 10, k - 1, neg);
      assert Signed(neg, m * 10) as real == Signed(neg, m) as real * 10.0;
    }
  }

  lemma {:induction false} ReducedIsTenths(neg: bool, m: nat, k: nat)
    ensures Value(Reduce(neg, m, k)) == Tenths(Signed(neg, m) as real, k)
    decreases k
  {
    if k > 0 && m % 10 == 0 {
      ReducedIsTenths(neg, m / 10, k - 1);
      assert m == 10 * (m / 10);
      assert Signed(neg, m) as real / 10.0 == Signed(neg, m / 10) as real;
    }
  }

  /** A spelled number stands for its digits, moved by its exponent less the places after its point. */
  lemma NumberIsItsDigits(n: Number)
    requires NumberFine(n)
    ensures var (digits, places) := (Signed(n.neg, Read(n.whole + FractionDigits(n))) as real,
                                     PowerOfTen(n.exponent) - |FractionDigits(n)|);
            Value(NumberMeaning(n)) == if places >= 0 then Tens(digits, places) else Tenths(digits, -places)
  {
    var m, places := Read(n.whole + FractionDigits(n)), PowerOfTen(n.exponent) - |FractionDigits(n)|;
    if places >= 0 {
      ShiftedIsTens(m, places, n.neg);
    } else {
      ReducedIsTenths(n.neg, m, -places);
    }
  }

  predicate HasKey(ms: seq<Member>, key: string) {
    exists j :: 0 <= j < |ms| && ms[j].key == key
  }

  /** A repeated key takes the last value in the first place; a new one comes last; no other member moves. */
  lemma PutExactly(ms: seq<Member>, key: string, value: Json)
    requires DistinctKeys(ms)
    ensures if HasKey(ms, key)
            then && |Put(ms, key, value)| == |ms|
                 && forall i :: 0 <= i < |ms| ==>
                      Put(ms, key, value)[i] == if ms[i].key == key then Member(key, value) else ms[i]
            else Put(ms, key, value) == ms + [Member(key, value)]
  {
    if HasKey(ms, key) {
      PutInPlace(ms, key, value);
    } else {
      PutLast(ms, key, value);
    }
  }

  lemma {:induction false} PutLast(ms: seq<Member>, key: string, value: Json)
    requires !HasKey(ms, key)
    ensures Put(ms, key, value) == ms + [Member(key, value)]
  {
    if ms != [] {
      assert forall j :: 0 <= j < |ms| - 1 ==> ms[1..][j] == ms[j + 1];
      PutLast(ms[1..], key, value);
      HeadTail(ms);
      Assoc([ms[0]], ms[1..], [Member(key, value)]);
    }
  }

  lemma {:induction false} PutInPlace(ms: seq<Member>, key: string, value: Json)
    requires DistinctKeys(ms) && HasKey(ms, key)
    ensures |Put(ms, key, value)| == |ms|
    ensures forall i :: 0 <= i < |ms| ==>
              Put(ms, key, value)[i] == if ms[i].key == key then Member(key, value) else ms[i]
  {
    if ms[0].key != key {
      var j :| 0 <= j < |ms| && ms[j].key == key;
      assert ms[1..][j - 1] == ms[j];
      PutInPlace(ms[1..], key, value);
    }
  }
}
