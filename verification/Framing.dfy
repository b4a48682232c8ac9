/**
 * Delimiter framing: the pure account of a loop that grows a buffer, cuts it at every `indexOf` hit and
 * keeps the tail. The NDJSON decoder, the event-stream reader and `split` are all instances.
 */
module Framing {
  import opened Wrappers
  import opened Seqs

  predicate OccursAt(s: string, d: string, i: int) {
    0 <= i && i + |d| <= |s| && s[i..i + |d|] == d
  }

  ghost predicate Occurs(s: string, d: string) {
    exists i :: OccursAt(s, d, i)
  }

  /** `s.indexOf(d, from)`: the first occurrence at or after `from`, or -1. */
  function IndexFrom(s: string, d: string, from: nat): (i: int)
    requires from <= |s|
    ensures i == -1 || (from <= i && i + |d| <= |s|)
    decreases |s| - from
  {
    if OccursAt(s, d, from) then from
    else if from == |s| then -1
    else IndexFrom(s, d, from + 1)
  }

  function IndexOf(s: string, d: string): (i: int)
    ensures i == -1 || (0 <= i && i + |d| <= |s|)
  {
    IndexFrom(s, d, 0)
  }

  lemma {:induction false} IndexFromIsFirst(s: string, d: string, from: nat)
    requires from <= |s|
    ensures var i := IndexFrom(s, d, from);
            && (i != -1 ==> OccursAt(s, d, i))
            && (i == -1 ==> forall j :: from <= j ==> !OccursAt(s, d, j))
            && (forall j :: from <= j < i ==> !OccursAt(s, d, j))
    decreases |s| - from
  {
    if !OccursAt(s, d, from) && from < |s| {
      IndexFromIsFirst(s, d, from + 1);
    }
  }

  /** `indexOf` finds the delimiter exactly when it is there, and finds its first occurrence. */
  lemma IndexOfIsFirst(s: string, d: string)
    ensures var i := IndexOf(s, d);
            && (i == -1 <==> !Occurs(s, d))
            && (i != -1 ==> OccursAt(s, d, i))
            && (forall j :: 0 <= j < i ==> !OccursAt(s, d, j))
  {
    IndexFromIsFirst(s, d, 0);
  }

  /** The complete, delimiter-terminated pieces of `s`, cut left to right. */
  function Segments(s: string, d: string): seq<string>
    requires |d| > 0
    decreases |s|
  {
    var i := IndexOf(s, d);
    if i == -1 then [] else [s[..i]] + Segments(s[i + |d|..], d)
  }

  /** What follows the last cut. */
  function Remainder(s: string, d: string): (r: string)
    requires |d| > 0
    decreases |s|
  {
    var i := IndexOf(s, d);
    if i == -1 then s else Remainder(s[i + |d|..], d)
  }

  lemma {:induction false} RemainderIsUncut(s: string, d: string)
    requires |d| > 0
    ensures !Occurs(Remainder(s, d), d)
    decreases |s|
  {
    IndexOfIsFirst(s, d);
    var i := IndexOf(s, d);
    if i != -1 {
      RemainderIsUncut(s[i + |d|..], d);
    }
  }

  function Terminated(parts: seq<string>, d: string): string {
    if parts == [] then "" else parts[0] + d + Terminated(parts[1..], d)
  }

  function Concat(chunks: seq<string>): string {
    if chunks == [] then "" else chunks[0] + Concat(chunks[1..])
  }

  lemma {:induction false} ConcatAppend(a: seq<string>, b: seq<string>)
    ensures Concat(a + b) == Concat(a) + Concat(b)
  {
    if a == [] {
      NoLeft(b);
      NoLeft(Concat(b));
    } else {
      TailAppend(a, b);
      ConcatAppend(a[1..], b);
      Assoc(a[0], Concat(a[1..]), Concat(b));
    }
  }

  lemma FirstOccurrence(s: string, d: string, i: int)
    requires OccursAt(s, d, i)
    requires forall j :: 0 <= j < i ==> !OccursAt(s, d, j)
    ensures IndexOf(s, d) == i
  {
    IndexOfIsFirst(s, d);
  }

  /** A delimiter found in `s` is found at the same place in any extension of `s`. */
  lemma IndexOfExtended(s: string, t: string, d: string)
    requires IndexOf(s, d) != -1
    ensures IndexOf(s + t, d) == IndexOf(s, d)
  {
    var i := IndexOf(s, d);
    IndexOfIsFirst(s, d);
    assert (s + t)[i..i + |d|] == s[i..i + |d|];
    forall j | 0 <= j < i
      ensures !OccursAt(s + t, d, j)
    {
      assert !OccursAt(s, d, j);
      assert (s + t)[j..j + |d|] == s[j..j + |d|];
    }
    FirstOccurrence(s + t, d, i);
  }

  lemma CutInto(s: string, d: string, part: string, rest: string)
    requires |d| > 0 && IndexOf(s, d) == |part|
    requires s[..|part|] == part && s[|part| + |d|..] == rest
    ensures Segments(s, d) == [part] + Segments(rest, d)
    ensures Remainder(s, d) == Remainder(rest, d)
  {
  }

  lemma FirstCut(s: string, d: string, i: nat)
    requires |d| > 0 && IndexOf(s, d) == i
    ensures Segments(s, d) == [s[..i]] + Segments(s[i + |d|..], d)
    ensures Remainder(s, d) == Remainder(s[i + |d|..], d)
  {
    CutInto(s, d, s[..i], s[i + |d|..]);
  }

  lemma FirstCutExtended(s: string, t: string, d: string, i: nat)
    requires |d| > 0 && IndexOf(s, d) == i
    ensures Segments(s + t, d) == [s[..i]] + Segments(s[i + |d|..] + t, d)
    ensures Remainder(s + t, d) == Remainder(s[i + |d|..] + t, d)
  {
    IndexOfExtended(s, t, d);
    SlicesOfAppend(s, t, i, i + |d|);
    CutInto(s + t, d, s[..i], s[i + |d|..] + t);
  }

  /** Cutting can be suspended after any prefix and resumed on the remainder: nothing depends on the chunking. */
  lemma {:induction false} CutsCompose(s: string, t: string, d: string)
    requires |d| > 0
    ensures Segments(s + t, d) == Segments(s, d) + Segments(Remainder(s, d) + t, d)
    ensures Remainder(s + t, d) == Remainder(Remainder(s, d) + t, d)
    decreases |s|
  {
    var i := IndexOf(s, d);
    if i == -1 {
      NoLeft(Segments(s + t, d));
    } else {
      var u := s[i + |d|..];
      var r := Remainder(u, d);
      CutsCompose(u, t, d);
      FirstCut(s, d, i);
      FirstCutExtended(s, t, d, i);
      Assoc([s[..i]], Segments(u, d), Segments(r + t, d));
    }
  }

  /** The pieces and the remainder are a lossless account of the text. */
  lemma {:induction false} CutsAreLossless(s: string, d: string)
    requires |d| > 0
    ensures s == Terminated(Segments(s, d), d) + Remainder(s, d)
    decreases |s|
  {
    var i := IndexOf(s, d);
    if i == -1 {
      NoLeft(s);
    } else {
      var u := s[i + |d|..];
      IndexOfIsFirst(s, d);
      FirstCut(s, d, i);
      CutsAreLossless(u, d);
      TerminatedFirst(s[..i], Segments(u, d), d);
      Assoc(s[..i] + d, Terminated(Segments(u, d), d), Remainder(u, d));
      Rejoin(s, d, i);
    }
  }

  lemma Rejoin(s: string, d: string, i: nat)
    requires OccursAt(s, d, i)
    ensures s[..i] + d + s[i + |d|..] == s
  {
  }

  lemma TerminatedFirst(part: string, parts: seq<string>, d: string)
    ensures Terminated([part] + parts, d) == part + d + Terminated(parts, d)
  {
    TailAppend([part], parts);
    NoLeft(parts);
  }

  /** Every piece ends at the first delimiter after its start. */
  predicate CutsWhole(part: string, d: string) {
    IndexOf(part + d, d) == |part|
  }

  /** Conversely, pieces that hold no early delimiter are recovered exactly. */
  lemma {:induction false} CutsRecover(parts: seq<string>, tail: string, d: string)
    requires |d| > 0
    requires forall p :: p in parts ==> CutsWhole(p, d)
    requires !Occurs(tail, d)
    ensures Segments(Terminated(parts, d) + tail, d) == parts
    ensures Remainder(Terminated(parts, d) + tail, d) == tail
  {
    if parts == [] {
      NoLeft(tail);
      IndexOfIsFirst(tail, d);
    } else {
      var p, rest := parts[0], Terminated(parts[1..], d) + tail;
      Assoc(p + d, Terminated(parts[1..], d), tail);
      assert CutsWhole(p, d);
      CutWhole(p, rest, d);
      CutsRecover(parts[1..], tail, d);
      HeadTail(parts);
    }
  }

  lemma CutWhole(p: string, rest: string, d: string)
    requires |d| > 0 && CutsWhole(p, d)
    ensures Segments(p + d + rest, d) == [p] + Segments(rest, d)
    ensures Remainder(p + d + rest, d) == Remainder(rest, d)
  {
    FirstCutExtended(p + d, rest, d, |p|);
    assert (p + d)[..|p|] == p;
    assert (p + d)[|p| + |d|..] == "";
    NoLeft(rest);
  }

  /** `s.split(d)`. */
  function Split(s: string, d: string): (parts: seq<string>)
    requires |d| > 0
    ensures |parts| > 0
  {
    Segments(s, d) + [Remainder(s, d)]
  }

  /** `parts.join(d)`. */
  function Join(parts: seq<string>, d: string): string
    requires |parts| > 0
  {
    if |parts| == 1 then parts[0] else parts[0] + d + Join(parts[1..], d)
  }

  lemma {:induction false} JoinIsTerminated(parts: seq<string>, last: string, d: string)
    ensures Join(parts + [last], d) == Terminated(parts, d) + last
  {
    if parts == [] {
      NoLeft([last]);
      NoLeft(last);
    } else {
      TailAppend(parts, [last]);
      JoinIsTerminated(parts[1..], last, d);
      Assoc(parts[0] + d, Terminated(parts[1..], d), last);
    }
  }

  lemma JoinSplit(s: string, d: string)
    requires |d| > 0
    ensures Join(Split(s, d), d) == s
  {
    CutsAreLossless(s, d);
    JoinIsTerminated(Segments(s, d), Remainder(s, d), d);
  }

  /** With a one-character delimiter a part is whole exactly when the delimiter is not in it. */
  lemma CharFree(part: string, c: char)
    requires c !in part
    ensures CutsWhole(part, [c]) && !Occurs(part, [c])
  {
    var s := part + [c];
    forall j | 0 <= j < |part|
      ensures !OccursAt(s, [c], j) && !OccursAt(part, [c], j)
    {
      assert s[j..j + 1] == part[j..j + 1] == [part[j]];
      assert part[j] in part;
    }
    assert OccursAt(s, [c], |part|);
    FirstOccurrence(s, [c], |part|);
  }

  lemma OccursIsMember(s: string, c: char)
    ensures Occurs(s, [c]) <==> c in s
  {
    if c in s {
      var i :| 0 <= i < |s| && s[i] == c;
      assert OccursAt(s, [c], i);
    } else {
      CharFree(s, c);
    }
  }

  lemma AllCutWhole(parts: seq<string>, c: char)
    requires forall p :: p in parts ==> c !in p
    ensures forall p :: p in parts ==> CutsWhole(p, [c])
  {
    forall p | p in parts
      ensures CutsWhole(p, [c])
    {
      CharFree(p, c);
    }
  }

  lemma SplitJoin(parts: seq<string>, c: char)
    requires |parts| > 0
    requires forall p :: p in parts ==> c !in p
    ensures Split(Join(parts, [c]), [c]) == parts
  {
    var front, last := parts[..|parts| - 1], parts[|parts| - 1];
    FrontLast(parts);
    JoinIsTerminated(front, last, [c]);
    AllCutWhole(front, c);
    CharFree(last, c);
    CutsRecover(front, last, [c]);
  }

  /** The parts of a split never hold the delimiter character. */
  lemma {:induction false} SplitPartsFree(s: string, c: char)
    ensures forall p :: p in Split(s, [c]) ==> c !in p
    decreases |s|
  {
    var i := IndexOf(s, [c]);
    IndexOfIsFirst(s, [c]);
    if i == -1 {
      OccursIsMember(s, c);
    } else {
      SplitPartsFree(s[i + 1..], c);
      assert c !in s[..i] by {
        if c in s[..i] {
          var j :| 0 <= j < i && s[j] == c;
          assert OccursAt(s, [c], j);
        }
      }
      assert Split(s, [c]) == [s[..i]] + Split(s[i + 1..], [c]);
    }
  }

  /** What a reader emits for a list of pieces, dropping the pieces it reads as nothing. */
  function Collect<R>(pieces: seq<string>, read: string -> Option<R>): seq<R> {
    if pieces == [] then [] else Listed(read(pieces[0])) + Collect(pieces[1..], read)
  }

  lemma {:induction false} CollectAppend<R>(a: seq<string>, b: seq<string>, read: string -> Option<R>)
    ensures Collect(a + b, read) == Collect(a, read) + Collect(b, read)
  {
    if a == [] {
      NoLeft(b);
      NoLeft(Collect(b, read));
    } else {
      TailAppend(a, b);
      CollectAppend(a[1..], b, read);
      Assoc(Listed(read(a[0])), Collect(a[1..], read), Collect(b, read));
    }
  }

  /** The pieces that read as something. */
  function Kept<R>(pieces: seq<string>, read: string -> Option<R>): seq<string> {
    if pieces == [] then []
    else (if read(pieces[0]).Some? then [pieces[0]] else []) + Kept(pieces[1..], read)
  }

  /** One result for every piece that reads as something, in the order of the pieces. */
  lemma {:induction false} OneEach<R>(pieces: seq<string>, read: string -> Option<R>)
    ensures |Collect(pieces, read)| == |Kept(pieces, read)|
    ensures forall i :: 0 <= i < |Kept(pieces, read)| ==>
              Kept(pieces, read)[i] in pieces && read(Kept(pieces, read)[i]) == Some(Collect(pieces, read)[i])
  {
    if pieces != [] {
      OneEach(pieces[1..], read);
    }
  }

  /** One turn of the cutting loop: the piece at the front is read, the rest is left in the buffer. */
  lemma CollectFirst<R>(s: string, d: string, i: nat, read: string -> Option<R>)
    requires |d| > 0 && IndexOf(s, d) == i
    ensures Collect(Segments(s, d), read)
         == Listed(read(s[..i])) + Collect(Segments(s[i + |d|..], d), read)
  {
    FirstCut(s, d, i);
    TailAppend([s[..i]], Segments(s[i + |d|..], d));
    NoLeft(Segments(s[i + |d|..], d));
  }

  /** When every piece reads as something, nothing is dropped. */
  lemma {:induction false} CollectAll<R>(pieces: seq<string>, read: string -> Option<R>, results: seq<R>)
    requires |pieces| == |results|
    requires forall i :: 0 <= i < |pieces| ==> read(pieces[i]) == Some(results[i])
    ensures Collect(pieces, read) == results
  {
    if pieces != [] {
      CollectAll(pieces[1..], read, results[1..]);
      HeadTail(results);
    }
  }

  /** Feeding one more chunk to a reader whose buffer holds the remainder of what it has seen. */
  lemma CollectMore<R>(seen: string, chunk: string, d: string, read: string -> Option<R>)
    requires |d| > 0
    ensures Collect(Segments(seen + chunk, d), read)
         == Collect(Segments(seen, d), read) + Collect(Segments(Remainder(seen, d) + chunk, d), read)
    ensures Remainder(seen + chunk, d) == Remainder(Remainder(seen, d) + chunk, d)
  {
    CutsCompose(seen, chunk, d);
    CollectAppend(Segments(seen, d), Segments(Remainder(seen, d) + chunk, d), read);
  }

  /** The bookkeeping of one turn of the cutting loop. */
  lemma EmitFirst<R>(emitted: seq<R>, s: string, d: string, i: nat, read: string -> Option<R>)
    requires |d| > 0 && IndexOf(s, d) == i
    ensures emitted + Collect(Segments(s, d), read)
         == emitted + Listed(read(s[..i])) + Collect(Segments(s[i + |d|..], d), read)
    ensures Remainder(s, d) == Remainder(s[i + |d|..], d)
  {
    CollectFirst(s, d, i, read);
    FirstCut(s, d, i);
    Assoc(emitted, Listed(read(s[..i])), Collect(Segments(s[i + |d|..], d), read));
  }

  /** Reading a whole text that ends without a delimiter: its pieces, then what is left. */
  lemma CollectSplit<R>(s: string, d: string, read: string -> Option<R>)
    requires |d| > 0
    ensures Collect(Split(s, d), read) == Collect(Segments(s, d), read) + Listed(read(Remainder(s, d)))
  {
    var last := Remainder(s, d);
    CollectAppend(Segments(s, d), [last], read);
    CollectOne(last, read);
  }

  lemma CollectOne<R>(piece: string, read: string -> Option<R>)
    ensures Collect([piece], read) == Listed(read(piece))
  {
    NoRight(Listed(read(piece)));
    assert [piece][1..] == [];
  }

  lemma ConcatPrefix(chunks: seq<string>, i: nat)
    requires i < |chunks|
    ensures Concat(chunks[..i + 1]) == Concat(chunks[..i]) + chunks[i]
  {
    PrefixNext(chunks, i);
    ConcatAppend(chunks[..i], [chunks[i]]);
    NoRight(chunks[i]);
    assert [chunks[i]][1..] == [];
  }

  /** A delimiter character splits independently on its two sides. */
  lemma SplitAt(a: string, b: string, c: char)
    ensures Split(a + [c] + b, [c]) == Split(a, [c]) + Split(b, [c])
  {
    var r := Remainder(a, [c]);
    SplitPartsFree(a, c);
    CharFree(r, c);
    CutsCompose(a, [c] + b, [c]);
    Assoc(a, [c], b);
    Assoc(r, [c], b);
    CutWhole(r, b, [c]);
    Assoc(Segments(a, [c]), [r], Segments(b, [c]));
    Assoc(Segments(a, [c]) + [r], Segments(b, [c]), [Remainder(b, [c])]);
  }
}
