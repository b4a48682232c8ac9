/** The character classes and trimming that the program's string operations use. */
module Text {

  /** What `\s` matches and `trim` removes: WhiteSpace and LineTerminator (sections 12.2 and 12.3 of ECMA-262). */
  predicate IsSpace(c: char) {
    var n := c as int;
    || 0x09 <= n <= 0x0D || n == 0x20 || n == 0xA0 || n == 0x1680 || 0x2000 <= n <= 0x200A
    || n == 0x2028 || n == 0x2029 || n == 0x202F || n == 0x205F || n == 0x3000 || n == 0xFEFF
  }

  /** General category Cc. */
  predicate IsControl(c: char) {
    var n := c as int;
    n < 0x20 || 0x7F <= n <= 0x9F
  }

  /** General category Cf. */
  predicate IsFormat(c: char) {
    var n := c as int;
    || n == 0xAD || 0x600 <= n <= 0x605 || n == 0x61C || n == 0x6DD || n == 0x70F || n == 0x890 || n == 0x891
    || n == 0x8E2 || n == 0x180E || 0x200B <= n <= 0x200F || 0x202A <= n <= 0x202E || 0x2060 <= n <= 0x2064
    || 0x2066 <= n <= 0x206F || n == 0xFEFF || 0xFFF9 <= n <= 0xFFFB || n == 0x110BD || n == 0x110CD
    || 0x13430 <= n <= 0x1343F || 0x1BCA0 <= n <= 0x1BCA3 || 0x1D173 <= n <= 0x1D17A || n == 0xE0001
    || 0xE0020 <= n <= 0xE007F
  }

  function TrimStart(s: string): (r: string)
    ensures r == "" || !IsSpace(r[0])
    ensures |r| <= |s| && s[|s| - |r|..] == r
    ensures forall i :: 0 <= i < |s| - |r| ==> IsSpace(s[i])
  {
    if s != "" && IsSpace(s[0]) then TrimStart(s[1..]) else s
  }

  function TrimEnd(s: string): (r: string)
    ensures r == "" || !IsSpace(r[|r| - 1])
    ensures r <= s
    ensures forall i :: |r| <= i < |s| ==> IsSpace(s[i])
  {
    if s != "" && IsSpace(s[|s| - 1]) then TrimEnd(s[..|s| - 1]) else s
  }

  /** `s.trim()`. */
  function Trim(s: string): (r: string)
    ensures Trimmed(r)
    ensures Trimmed(s) ==> r == s
    ensures r == "" <==> forall i :: 0 <= i < |s| ==> IsSpace(s[i])
  {
    TrimEnd(TrimStart(s))
  }

  predicate Trimmed(s: string) {
    s != "" ==> !IsSpace(s[0]) && !IsSpace(s[|s| - 1])
  }

  lemma TrimLeadingSpace(s: string)
    ensures Trim(" " + s) == Trim(s)
  {
    assert (" " + s)[1..] == s;
  }
}
