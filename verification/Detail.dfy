/** The one-line normal form that every worker-supplied display string passes through. */
module Detail {
  import opened Wrappers
  import opened Seqs
  import opened Text

  const MAX_DETAIL_LENGTH := 200
  const ELLIPSIS: char := '\U{2026}'

  function RemoveFormat(s: string): string {
    if s == "" then "" else (if IsFormat(s[0]) then "" else [s[0]]) + RemoveFormat(s[1..])
  }

  function ControlsToSpaces(s: string): (r: string)
    ensures |r| == |s|
    ensures forall i :: 0 <= i < |s| ==> r[i] == if IsControl(s[i]) then ' ' else s[i]
  {
    seq(|s|, i requires 0 <= i < |s| => if IsControl(s[i]) then ' ' else s[i])
  }

  /** `s.replace(/\s+/g, " ")`. */
  function CollapseSpaces(s: string): string {
    if s == "" then ""
    else if !IsSpace(s[0]) then [s[0]] + CollapseSpaces(s[1..])
    else if |s| > 1 && IsSpace(s[1]) then CollapseSpaces(s[1..])
    else " " + CollapseSpaces(s[1..])
  }

  function Flatten(s: string): string {
    Trim(CollapseSpaces(ControlsToSpaces(RemoveFormat(s))))
  }

  /** `points.slice(0, end)`, where a negative end counts from the back. */
  function SliceTo(s: string, end: int): (r: string)
    ensures r <= s
  {
    if end >= 0 then s[..if end < |s| then end else |s|]
    else s[..if |s| + end > 0 then |s| + end else 0]
  }

  function Clamp(s: string, maxLength: int): string {
    if |s| > maxLength then SliceTo(s, maxLength - 1) + [ELLIPSIS] else s
  }

  function DisplayableDetail(detail: Option<string>, maxLength: int := MAX_DETAIL_LENGTH): Option<string> {
    match detail
    case None => None
    case Some(d) =>
      var flattened := Flatten(d);
      if flattened == "" then None else Some(Clamp(flattened, maxLength))
  }

  // ----- what a result looks like -----

  /** One clean line: nothing invisible or active, and no whitespace but single inner spaces. */
  predicate Clean(s: string) {
    && Trimmed(s)
    && Visible(s)
    && forall i :: 0 <= i < |s| - 1 ==> !(s[i] == ' ' && s[i + 1] == ' ')
  }

  predicate Visible(s: string) {
    forall i :: 0 <= i < |s| ==> !IsFormat(s[i]) && !IsControl(s[i]) && (IsSpace(s[i]) ==> s[i] == ' ')
  }

  predicate Displayable(s: string, maxLength: int) {
    s != "" && |s| <= maxLength && Clean(s)
  }

  /** A short line of printable ASCII with no doubled and no outer space. */
  lemma AsciiIsDisplayable(s: string, maxLength: int)
    requires 0 < |s| <= maxLength && s[0] != ' ' && s[|s| - 1] != ' '
    requires forall i :: 0 <= i < |s| ==> 0x20 <= s[i] as int <= 0x7E
    requires forall i :: 0 <= i < |s| - 1 ==> !(s[i] == ' ' && s[i + 1] == ' ')
    ensures Displayable(s, maxLength)
  {
  }

  lemma {:induction false} NoFormatLeft(s: string)
    ensures forall i :: 0 <= i < |RemoveFormat(s)| ==> !IsFormat(RemoveFormat(s)[i])
  {
    if s != "" {
      NoFormatLeft(s[1..]);
    }
  }

  lemma {:induction false} CollapsedIsClean(s: string)
    requires forall i :: 0 <= i < |s| ==> !IsFormat(s[i]) && !IsControl(s[i])
    ensures var r := CollapseSpaces(s);
            && Visible(r)
            && (forall i :: 0 <= i < |r| - 1 ==> !(r[i] == ' ' && r[i + 1] == ' '))
            && (r != "" ==> s != "" && (IsSpace(r[0]) ==> IsSpace(s[0])))
  {
    if s != "" {
      CollapsedIsClean(s[1..]);
    }
  }

  lemma TrimmedPart(s: string) returns (k: nat)
    ensures k + |Trim(s)| <= |s| && Trim(s) == s[k..k + |Trim(s)|]
  {
    var t := TrimStart(s);
    k := |s| - |t|;
    SliceOfTail(s, k, |Trim(s)|);
  }

  lemma CleanPart(s: string, k: nat, part: string)
    requires k + |part| <= |s| && part == s[k..k + |part|] && Visible(s)
    requires forall i :: 0 <= i < |s| - 1 ==> !(s[i] == ' ' && s[i + 1] == ' ')
    requires Trimmed(part)
    ensures Clean(part)
  {
  }

  lemma TrimIsClean(s: string)
    requires Visible(s)
    requires forall i :: 0 <= i < |s| - 1 ==> !(s[i] == ' ' && s[i + 1] == ' ')
    ensures Clean(Trim(s))
  {
    var k := TrimmedPart(s);
    CleanPart(s, k, Trim(s));
  }

  lemma SpacedIsPlain(s: string)
    requires forall i :: 0 <= i < |s| ==> !IsFormat(s[i])
    ensures var r := ControlsToSpaces(s); forall i :: 0 <= i < |r| ==> !IsFormat(r[i]) && !IsControl(r[i])
  {
  }

  lemma FlattenIsClean(s: string)
    ensures Clean(Flatten(s))
  {
    NoFormatLeft(s);
    var t := RemoveFormat(s);
    SpacedIsPlain(t);
    CollapsedIsClean(ControlsToSpaces(t));
    TrimIsClean(CollapseSpaces(ControlsToSpaces(t)));
  }

  lemma ClampIsClean(s: string, maxLength: int)
    requires s != "" && Clean(s)
    ensures Clean(Clamp(s, maxLength)) && Clamp(s, maxLength) != ""
    ensures maxLength >= 1 ==> |Clamp(s, maxLength)| <= maxLength
  {
  }

  /** Whatever the worker sent, what is kept is one clean line within the bound. */
  lemma ResultIsDisplayable(detail: Option<string>, maxLength: int)
    requires maxLength >= 1
    ensures match DisplayableDetail(detail, maxLength)
            case None => true
            case Some(r) => Displayable(r, maxLength)
  {
    if detail.Some? {
      FlattenIsClean(detail.value);
      if Flatten(detail.value) != "" {
        ClampIsClean(Flatten(detail.value), maxLength);
      }
    }
  }

  /** Format characters are dropped wherever they stand, and every other character is kept where it stands. */
  lemma {:induction false} OnlyFormatIsDropped(a: string, c: char, b: string)
    ensures RemoveFormat(a + [c] + b) == RemoveFormat(a) + (if IsFormat(c) then "" else [c]) + RemoveFormat(b)
  {
    if a == "" {
      NoLeft([c]);
      NoLeft(if IsFormat(c) then "" else [c]);
      TailAppend([c], b);
      NoLeft(b);
    } else {
      OnlyFormatIsDropped(a[1..], c, b);
      TailAppend(a, [c]);
      TailAppend(a + [c], b);
      var head := if IsFormat(a[0]) then "" else [a[0]];
      Assoc(head, RemoveFormat(a[1..]), if IsFormat(c) then "" else [c]);
      Assoc(head, RemoveFormat(a[1..]) + (if IsFormat(c) then "" else [c]), RemoveFormat(b));
    }
  }

  // ----- normalising is the identity on what it produces -----

  lemma {:induction false} NothingToRemove(s: string)
    requires forall i :: 0 <= i < |s| ==> !IsFormat(s[i])
    ensures RemoveFormat(s) == s
  {
    if s != "" {
      NothingToRemove(s[1..]);
      HeadTail(s);
    }
  }

  lemma {:induction false} NothingToCollapse(s: string)
    requires forall i :: 0 <= i < |s| ==> IsSpace(s[i]) ==> s[i] == ' '
    requires forall i :: 0 <= i < |s| - 1 ==> !(s[i] == ' ' && s[i + 1] == ' ')
    ensures CollapseSpaces(s) == s
  {
    if s != "" {
      NothingToCollapse(s[1..]);
      HeadTail(s);
    }
  }

  lemma CleanIsFlat(s: string)
    requires Clean(s)
    ensures Flatten(s) == s
  {
    NothingToRemove(s);
    assert ControlsToSpaces(s) == s;
    NothingToCollapse(s);
  }

  /** The fixed points are exactly the displayable lines. */
  lemma FixedPoints(s: string, maxLength: int)
    requires maxLength >= 1
    ensures DisplayableDetail(Some(s), maxLength) == Some(s) <==> Displayable(s, maxLength)
  {
    if Displayable(s, maxLength) {
      CleanIsFlat(s);
    }
    ResultIsDisplayable(Some(s), maxLength);
  }

  ghost predicate NormalisesOnce(d: string, maxLength: int) {
    DisplayableDetail(DisplayableDetail(Some(d), maxLength), maxLength) == DisplayableDetail(Some(d), maxLength)
  }

  lemma Idempotent(d: string, maxLength: int)
    requires maxLength >= 0
    ensures NormalisesOnce(d, maxLength)
  {
    FlattenIsClean(d);
    if Flatten(d) != "" {
      var r := Clamp(Flatten(d), maxLength);
      ClampIsClean(Flatten(d), maxLength);
      CleanIsFlat(r);
      ClampTwice(Flatten(d), maxLength);
    }
  }

  lemma ClampTwice(s: string, maxLength: int)
    requires s != "" && maxLength >= 0
    ensures Clamp(Clamp(s, maxLength), maxLength) == Clamp(s, maxLength)
  {
    if maxLength == 0 {
      var r := Clamp(s, 0);
      assert r == s[..|s| - 1] + [ELLIPSIS];
      assert r[..|r| - 1] == s[..|s| - 1];
    }
  }

  /** Normalising twice is normalising once, for every text, exactly when the bound is not negative. */
  lemma IdempotentExactly(maxLength: int)
    ensures (forall d :: NormalisesOnce(d, maxLength)) <==> maxLength >= 0
  {
    if maxLength >= 0 {
      forall d ensures NormalisesOnce(d, maxLength) { Idempotent(d, maxLength); }
    } else {
      NegativeBoundShortens(seq(3 - maxLength, _ => 'a'), maxLength);
    }
  }

  /** A negative bound counts from the back, and counts again from the back of what it kept. */
  lemma NegativeBoundShortens(d: string, maxLength: int)
    requires maxLength < 0 && |d| == 3 - maxLength && Clean(d)
    ensures !NormalisesOnce(d, maxLength)
  {
    var r := Clamp(d, maxLength);
    CleanIsFlat(d);
    ClampIsClean(d, maxLength);
    CleanIsFlat(r);
    assert |r| == 3 && |Clamp(r, maxLength)| < 3;
  }

  /** The bound is kept exactly when it leaves room for the ellipsis. */
  lemma BoundIsKept(maxLength: int)
    ensures (forall d :: var r := DisplayableDetail(Some(d), maxLength); r.Some? ==> |r.value| <= maxLength)
       <==> maxLength >= 1
  {
    forall d | maxLength >= 1
      ensures var r := DisplayableDetail(Some(d), maxLength); r.Some? ==> |r.value| <= maxLength
    {
      ResultIsDisplayable(Some(d), maxLength);
    }
    if maxLength < 1 {
      CleanIsFlat("a");
      assert DisplayableDetail(Some("a"), maxLength).Some?;
    }
  }

  // ----- what is kept: the words, in order -----

  predicate Separates(c: char) {
    IsSpace(c) || IsControl(c)
  }

  function WordLength(s: string): (k: nat)
    ensures k <= |s|
    ensures forall i :: 0 <= i < k ==> !Separates(s[i])
    ensures k < |s| ==> Separates(s[k])
  {
    if s == "" || Separates(s[0]) then 0 else 1 + WordLength(s[1..])
  }

  /** Maximal runs of characters that are neither whitespace nor control characters. */
  function Words(s: string): seq<string>
    decreases |s|
  {
    if s == "" then []
    else if Separates(s[0]) then Words(s[1..])
    else [s[..WordLength(s)]] + Words(s[WordLength(s)..])
  }

  function JoinWords(words: seq<string>): string {
    if words == [] then ""
    else if |words| == 1 then words[0]
    else words[0] + " " + JoinWords(words[1..])
  }

  function Squash(s: string): string {
    CollapseSpaces(ControlsToSpaces(s))
  }

  lemma SquashSeparator(s: string)
    requires s != "" && Separates(s[0])
    ensures Squash(s) == if |s| > 1 && Separates(s[1]) then Squash(s[1..]) else " " + Squash(s[1..])
  {
    assert ControlsToSpaces(s)[1..] == ControlsToSpaces(s[1..]);
  }

  lemma {:induction false} SquashWord(s: string, k: nat)
    requires k <= |s| && forall i :: 0 <= i < k ==> !Separates(s[i])
    ensures Squash(s) == s[..k] + Squash(s[k..])
    decreases k
  {
    if k == 0 {
      NoLeft(Squash(s));
      assert s[0..] == s;
    } else {
      assert ControlsToSpaces(s)[1..] == ControlsToSpaces(s[1..]);
      SquashWord(s[1..], k - 1);
      assert s[1..][k - 1..] == s[k..];
      assert [s[0]] + s[1..][..k - 1] == s[..k];
      Assoc([s[0]], s[1..][..k - 1], Squash(s[k..]));
    }
  }

  lemma {:induction false} TrimEndAppend(a: string, b: string)
    requires a != "" && !IsSpace(a[|a| - 1])
    ensures TrimEnd(a + b) == a + TrimEnd(b)
    decreases |b|
  {
    if b == "" {
      NoRight(a);
    } else {
      assert (a + b)[..|a + b| - 1] == a + b[..|b| - 1];
      if IsSpace(b[|b| - 1]) {
        TrimEndAppend(a, b[..|b| - 1]);
      }
    }
  }

  /** After a word: nothing more, or one space and the rest. */
  lemma {:induction false} AfterWord(s: string)
    requires s == "" || Separates(s[0])
    requires Trim(Squash(s)) == JoinWords(Words(s))
    ensures TrimEnd(Squash(s)) == if Words(s) == [] then "" else " " + JoinWords(Words(s))
    decreases |s|
  {
    if s != "" {
      SquashSeparator(s);
      if |s| > 1 && Separates(s[1]) {
        AfterWord(s[1..]);
      } else {
        AfterLastSeparator(s[1..]);
        TrimLeadingSpace(Squash(s[1..]));
      }
    }
  }

  lemma AfterLastSeparator(t: string)
    requires t == "" || !Separates(t[0])
    ensures TrimEnd(" " + Squash(t)) == if t == "" then "" else " " + Trim(Squash(t))
    ensures t != "" ==> Words(t) != []
  {
    if t == "" {
      assert (" " + Squash(t))[..0] == "";
    } else {
      SquashWord(t, 1);
      assert t[..1] == [t[0]];
      TrimEndAround(t[0], Squash(t[1..]));
    }
  }

  lemma TrimEndAround(c: char, rest: string)
    requires !IsSpace(c)
    ensures TrimEnd(" " + ([c] + rest)) == " " + Trim([c] + rest)
  {
    TrimEndAppend([c], rest);
    TrimEndAppend(" " + [c], rest);
    Assoc(" ", [c], rest);
    Assoc(" ", [c], TrimEnd(rest));
    assert TrimStart([c] + rest) == [c] + rest;
  }

  /** What is kept of a text without format characters: its words, single-spaced. */
  lemma {:induction false} SquashedIsWords(s: string)
    ensures Trim(Squash(s)) == JoinWords(Words(s))
    decreases |s|
  {
    if s == "" {
    } else if Separates(s[0]) {
      SquashSeparator(s);
      SquashedIsWords(s[1..]);
      TrimLeadingSpace(Squash(s[1..]));
    } else {
      var k := WordLength(s);
      var w, u := s[..k], s[k..];
      SquashWord(s, k);
      SquashedIsWords(u);
      AfterWord(u);
      assert TrimStart(Squash(s)) == Squash(s);
      TrimEndAppend(w, Squash(u));
      FirstWord(w, Words(u));
    }
  }

  lemma FirstWord(w: string, more: seq<string>)
    ensures JoinWords([w] + more) == w + if more == [] then "" else " " + JoinWords(more)
  {
    if more == [] {
      NoRight(w);
      NoRight([w]);
    } else {
      TailAppend([w], more);
      NoLeft(more);
      Assoc(w, " ", JoinWords(more));
    }
  }

  function Abridged(line: string, maxLength: nat): Option<string>
    requires maxLength >= 1
  {
    if line == "" then None
    else if |line| <= maxLength then Some(line)
    else Some(line[..maxLength - 1] + [ELLIPSIS])
  }

  /**
   * What is kept, told without the passes: the words that remain once format characters are dropped, in order and
   * single-spaced, cut to the bound with an ellipsis in the last place.
   */
  lemma DetailIsItsWords(d: string, maxLength: int)
    requires maxLength >= 1
    ensures DisplayableDetail(Some(d), maxLength) == Abridged(JoinWords(Words(RemoveFormat(d))), maxLength)
  {
    SquashedIsWords(RemoveFormat(d));
  }
}
