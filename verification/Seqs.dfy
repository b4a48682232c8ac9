/** Sequence algebra, one law at a time. */
module Seqs {
  lemma Assoc<T>(a: seq<T>, b: seq<T>, c: seq<T>)
    ensures (a + b) + c == a + (b + c)
  {
  }

  lemma Regroup<T>(a: seq<T>, b: seq<T>, c: seq<T>, d: seq<T>, e: seq<T>)
    ensures a + b + c + d + e == a + (b + (c + (d + e)))
  {
  }

  lemma NoLeft<T>(a: seq<T>)
    ensures [] + a == a
  {
  }

  lemma NoRight<T>(a: seq<T>)
    ensures a + [] == a
  {
  }

  lemma TailAppend<T>(a: seq<T>, b: seq<T>)
    requires a != []
    ensures a + b != [] && (a + b)[0] == a[0] && (a + b)[1..] == a[1..] + b
  {
  }

  lemma HeadTail<T>(a: seq<T>)
    requires a != []
    ensures a == [a[0]] + a[1..]
  {
  }

  lemma FrontLast<T>(a: seq<T>)
    requires a != []
    ensures a == a[..|a| - 1] + [a[|a| - 1]]
  {
  }

  lemma LastOfAppend<T>(a: seq<T>, b: seq<T>)
    requires b != []
    ensures a + b != [] && (a + b)[|a + b| - 1] == b[|b| - 1] && (a + b)[..|a + b| - 1] == a + b[..|b| - 1]
  {
  }

  lemma SliceOfTail<T>(s: seq<T>, k: nat, n: nat)
    requires k + n <= |s|
    ensures s[k..][..n] == s[k..k + n]
  {
  }

  /** Cutting at `i` and skipping `n` more. */
  lemma SlicesOfAppend<T>(s: seq<T>, t: seq<T>, i: nat, k: nat)
    requires i <= |s| && k <= |s|
    ensures (s + t)[..i] == s[..i] && (s + t)[k..] == s[k..] + t
  {
  }

  lemma PrefixNext<T>(s: seq<T>, i: nat)
    requires i < |s|
    ensures s[..i + 1] == s[..i] + [s[i]]
  {
  }

  lemma WholePrefix<T>(s: seq<T>)
    ensures s[..|s|] == s
  {
  }

  /** Moving the head of the work list to the end of the accumulator. */
  lemma Shift<T>(acc: seq<T>, items: seq<T>)
    requires items != []
    ensures acc + [items[0]] + items[1..] == acc + items
    ensures |items| == 1 ==> acc + [items[0]] == acc + items
  {
  }
}
