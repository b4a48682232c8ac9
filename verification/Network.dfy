/** Which hosts never leave the box, and how a host and a port are spelled as one authority. */
module Network {
  import opened Decimal
  import opened Framing

  /** `^(0|[1-9]\d{0,2})$` and at most 255. */
  predicate IsOctet(s: string) {
    Canonical(s) && |s| <= 3 && Read(s) <= 255
  }

  predicate Ipv4Loopback(host: string) {
    var octets := Split(host, ".");
    |octets| == 4 && (forall i :: 0 <= i < 4 ==> IsOctet(octets[i])) && octets[0] == "127"
  }

  method IsIpv4LoopbackHost(host: string) returns (r: bool)
    ensures r <==> Ipv4Loopback(host)
  {
    var octets := Split(host, ".");
    if |octets| != 4 {
      return false;
    }
    for i := 0 to |octets|
      invariant forall j :: 0 <= j < i ==> IsOctet(octets[j])
    {
      if !(Canonical(octets[i]) && |octets[i]| <= 3) || Read(octets[i]) > 255 {
        return false;
      }
    }
    return octets[0] == "127";
  }

  lemma LocalhostIsLoopback(host: string)
    requires host == "127.0.0.1"
    ensures Ipv4Loopback(host)
  {
    var octets := ["127", "0", "0", "1"];
    JoinFour("127", "0", "0", "1");
    assert Join(octets, ".") == host;
    SplitJoin(octets, '.');
    assert IsOctet("127") && IsOctet("0") && IsOctet("1") by {
      SmallIsShort(127);
      SmallIsShort(0);
      SmallIsShort(1);
      assert Show(1) == "1" && Show(12) == "12" && Show(127) == "127" && Show(0) == "0";
    }
  }

  lemma JoinFour(a: string, b: string, c: string, d: string)
    ensures Join([a, b, c, d], ".") == a + "." + (b + "." + (c + "." + d))
  {
    assert [a, b, c, d][1..] == [b, c, d] && [b, c, d][1..] == [c, d] && [c, d][1..] == [d];
    assert Join([c, d], ".") == c + "." + d;
    assert Join([b, c, d], ".") == b + "." + Join([c, d], ".");
  }

  method IsLoopbackHost(host: string) returns (r: bool)
    ensures r <==> host == "localhost" || host == "::1" || Ipv4Loopback(host)
  {
    if host == "127.0.0.1" {
      LocalhostIsLoopback(host);
      return true;
    }
    if host == "localhost" || host == "::1" {
      return true;
    }
    r := IsIpv4LoopbackHost(host);
  }

  function Octets(a: nat, b: nat, c: nat): seq<string> {
    ["127", Show(a), Show(b), Show(c)]
  }

  /** The canonical spelling of `127.a.b.c`. */
  function Dotted(a: nat, b: nat, c: nat): string {
    Join(Octets(a, b, c), ".")
  }

  lemma SplitDotted(a: nat, b: nat, c: nat)
    ensures Split(Dotted(a, b, c), ".") == Octets(a, b, c)
  {
    SplitJoin(Octets(a, b, c), '.');
  }

  lemma {:induction false} SmallIsShort(n: nat)
    requires n <= 255
    ensures IsOctet(Show(n))
  {
    ReadShow(n);
    if n >= 100 {
      assert |Show(n / 100)| == 1 && n / 10 / 10 == n / 100;
      assert |Show(n / 10)| == 2;
    } else if n >= 10 {
      assert |Show(n / 10)| == 1;
    }
  }

  lemma CanonicalLoopback(a: nat, b: nat, c: nat)
    requires a <= 255 && b <= 255 && c <= 255
    ensures Ipv4Loopback(Dotted(a, b, c))
  {
    SplitDotted(a, b, c);
    SmallIsShort(a);
    SmallIsShort(b);
    SmallIsShort(c);
    assert "127" == Show(127) by {
      assert Show(1) == "1" && Show(12) == "12";
    }
    SmallIsShort(127);
  }

  /** Section 3.2.1.3 of RFC 1122: accepted are exactly the canonical spellings of 127.a.b.c with byte octets. */
  lemma LoopbackExactly(host: string)
    ensures Ipv4Loopback(host) <==> exists a, b, c :: a <= 255 && b <= 255 && c <= 255 && host == Dotted(a, b, c)
  {
    if Ipv4Loopback(host) {
      var o := Split(host, ".");
      assert IsOctet(o[1]) && IsOctet(o[2]) && IsOctet(o[3]);
      ShowRead(o[1]);
      ShowRead(o[2]);
      ShowRead(o[3]);
      JoinSplit(host, ".");
      assert o == Octets(Read(o[1]), Read(o[2]), Read(o[3]));
      assert host == Dotted(Read(o[1]), Read(o[2]), Read(o[3]));
    }
    forall a: nat, b: nat, c: nat | a <= 255 && b <= 255 && c <= 255 && host == Dotted(a, b, c)
      ensures Ipv4Loopback(host)
    {
      CanonicalLoopback(a, b, c);
    }
  }

  /** Each spelling names one address. */
  lemma DottedIsInjective(a: nat, b: nat, c: nat, x: nat, y: nat, z: nat)
    requires Dotted(a, b, c) == Dotted(x, y, z)
    ensures a == x && b == y && c == z
  {
    SplitDotted(a, b, c);
    SplitDotted(x, y, z);
    assert Octets(a, b, c)[1] == Octets(x, y, z)[1];
    assert Octets(a, b, c)[2] == Octets(x, y, z)[2];
    assert Octets(a, b, c)[3] == Octets(x, y, z)[3];
    ShowInjective(a, x);
    ShowInjective(b, y);
    ShowInjective(c, z);
  }

  // ----- authorities: section 3.2.2 of RFC 3986 -----

  function Bracketed(host: string): string {
    if ':' in host then "[" + host + "]" else host
  }

  function FormatAuthority(host: string, port: nat): string {
    Bracketed(host) + ":" + Show(port)
  }

  /** An address with a colon goes in brackets, so that the port's colon is the only one outside them. */
  lemma AuthorityExactly(h: string, port: nat)
    ensures FormatAuthority(h, port) == if ':' in h then "[" + h + "]" + ":" + Show(port) else h + ":" + Show(port)
    ensures var s := FormatAuthority(h, port);
            forall i :: 0 <= i < |s| && s[i] == ':' ==>
              i == |s| - |Show(port)| - 1 || (':' in h && s[0] == '[' && 0 < i < |h| + 1 && s[|h| + 1] == ']')
  {
    var s := FormatAuthority(h, port);
    var a := Bracketed(h);
    LastColon(a, Show(port));
    assert |s| == |a| + 1 + |Show(port)|;
    forall i | 0 <= i < |s| && s[i] == ':'
      ensures i == |a| || (':' in h && s[0] == '[' && 0 < i < |h| + 1 && s[|h| + 1] == ']')
    {
      if i < |a| {
        assert s[i] == a[i] && s[0] == a[0] && s[|a| - 1] == a[|a| - 1];
        assert a[i] in a;
      }
    }
  }

  /** Brackets are added around a colon and never hide it. */
  lemma ColonStays(h: string)
    ensures ':' in Bracketed(h) <==> ':' in h
    ensures ':' in h ==> Bracketed(h)[1..|Bracketed(h)| - 1] == h
  {
    if ':' in h {
      var i :| 0 <= i < |h| && h[i] == ':';
      assert Bracketed(h)[i + 1] == ':';
    }
  }

  lemma BracketedIsInjective(g: string, h: string)
    requires Bracketed(g) == Bracketed(h)
    ensures g == h
  {
    ColonStays(g);
    ColonStays(h);
  }

  lemma LastColon(a: string, d: string)
    requires AllDigits(d)
    ensures var s := a + ":" + d;
            s[|a|] == ':' && s[..|a|] == a && s[|a| + 1..] == d && forall i :: |a| < i < |s| ==> s[i] != ':'
  {
    var s := a + ":" + d;
    forall i | |a| < i < |s|
      ensures s[i] != ':'
    {
      assert s[i] == d[i - |a| - 1] && IsDigit(d[i - |a| - 1]);
    }
  }

  /** Host and port can be told from the authority, for every host and every port. */
  lemma AuthorityIsInjective(g: string, p: nat, h: string, q: nat)
    requires FormatAuthority(g, p) == FormatAuthority(h, q)
    ensures g == h && p == q
  {
    LastColon(Bracketed(g), Show(p));
    LastColon(Bracketed(h), Show(q));
    assert |Bracketed(g)| == |Bracketed(h)|;
    BracketedIsInjective(g, h);
    ShowInjective(p, q);
  }
}
