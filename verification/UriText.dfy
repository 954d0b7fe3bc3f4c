/** The characters and texts of URIs, spelled out (src/HTTP/uri.rl). */
module UriText {
  import opened Basics
  import opened Codec
  import opened Uri
  import opened UriRoundTrip

  const UPPER := "ABCDEFGHIJKLMNOPQRSTUVWXYZ"
  const LOWER := "abcdefghijklmnopqrstuvwxyz"
  const DIGITS := "0123456789"

  lemma LettersAre(c: char)
    ensures Alpha(c) <==> c in UPPER || c in LOWER
    ensures Digit(c) <==> c in DIGITS
  {
  }

  lemma HexAre(c: char)
    ensures Hex(c) <==> c in DIGITS || c in "ABCDEF" || c in "abcdef"
  {
  }

  /** A scheme, a name, a path and a query: letters, digits, and which signs. */
  lemma ClassesAre(c: char)
    ensures SchemeChar(c) <==> c in UPPER || c in LOWER || c in DIGITS || c in "+-."
    ensures NameChar(c) <==> c in UPPER || c in LOWER || c in DIGITS || c in "-._~!$&'()*+,;="
    ensures PathChar(c) <==> NameChar(c) || c in ":@/" || 128 <= c as int < 256
    ensures QueryChar(c) <==> NameChar(c) || c in ":@/?" || 128 <= c as int < 256
  {
    LettersAre(c);
  }

  /** atoi of a printed number: exact below 2^31, cut to 32 bits in two's complement up to 2^63. */
  lemma AtoiCuts(n: nat)
    requires n < 0x8000_0000_0000_0000
    ensures Atoi(Decimal(n)) == if n % 0x1_0000_0000 < 0x8000_0000 then n % 0x1_0000_0000 else n % 0x1_0000_0000 - 0x1_0000_0000
  {
    DecimalReads(n);
  }

  /** The printed text, part by part: the port only when it is neither absent nor the scheme's own. */
  lemma PrintedText(u: Uri)
    ensures var info := if u.userinfo == "" then "" else u.userinfo + "@";
            var port := if u.port == 0 || (u.scheme == "http" && u.port == 80) || (u.scheme == "https" && u.port == 443) then ""
                        else if u.port < 0 then ":-" + Decimal(-u.port) else ":" + Decimal(u.port);
            var path := if u.path == "" then "/" else u.path;
            var query := if u.query == "" then "" else "?" + u.query;
            var fragment := if u.fragment == "" then "" else "#" + u.fragment;
            ToString(u) == u.scheme + "://" + info + u.host + port + path + query + fragment
  {
    var a, b := u.scheme + "://", InfoPart(u);
    var d, e := PortPart(u), GetPath(u);
    var f, g := Optional('?', u.query), Optional('#', u.fragment);
    if u.port < 0 {
      assert ":" + ("-" + Decimal(-u.port)) == ":-" + Decimal(-u.port);
    }
    Assoc(a, b, u.host + (d + FromPath(u)));
    Assoc(a + b, u.host, d + FromPath(u));
    Assoc(a + b + u.host, d, FromPath(u));
    Assoc(a + b + u.host + d, e, f + g);
    Assoc(a + b + u.host + d + e, f, g);
  }

  /** The port a caller sees: its own, else the scheme's. */
  lemma PortsAre(u: Uri)
    ensures GetPort(u) == if u.port != 0 then u.port else if u.scheme == "http" then 80 else if u.scheme == "https" then 443 else 0
  {
  }

  /** One text with all its parts. */
  lemma AllParts()
    ensures Parsed("http://u@h.X:81/a~b?q=1#f") == Accepted(Uri("http", "u", "h.X", "/a~b", "q=1", "f", 81))
  {
    AllPartsText();
    AllPartsReparse(Uri("http", "u", "h.X", "/a~b", "q=1", "f", 81));
    assert FirstColon("u") == 1 by { assert "u"[1..] == ""; }
  }

  lemma AllPartsReparse(u: Uri)
    requires u == Uri("http", "u", "h.X", "/a~b", "q=1", "f", 81)
    ensures Parsed(ToString(u)) == Accepted(Reparsed(u))
  {
    PlainParts(u);
    Reparse(u);
  }

  lemma AllPartsText()
    ensures ToString(Uri("http", "u", "h.X", "/a~b", "q=1", "f", 81)) == "http://u@h.X:81/a~b?q=1#f"
  {
    Decimal81();
    PrintedText(Uri("http", "u", "h.X", "/a~b", "q=1", "f", 81));
  }

  lemma Decimal81()
    ensures Decimal(81) == "81"
  {
    assert Decimal(81) == Decimal(8) + "1";
  }

  /** Parts without escapes are in the grammar when their characters are. */
  lemma PlainParts(u: Uri)
    requires SchemeOk(u.scheme) && -0x8000_0000 <= u.port < 0x8000_0000
    requires (forall i :: 0 <= i < |u.userinfo| ==> Body(Info, u.userinfo[i])) && (forall i :: 0 <= i < |u.host| ==> Body(Authority, u.host[i]))
    requires u.path != "" && u.path[0] == '/' && forall i :: 0 < i < |u.path| ==> Body(Path, u.path[i])
    requires forall i :: 0 <= i < |u.query| ==> Body(QueryStart, u.query[i])
    requires forall i :: 0 <= i < |u.fragment| ==> Body(FragmentStart, u.fragment[i])
    ensures Printable(u)
  {
    AllBody(Info, u.userinfo);
    AllBody(Authority, u.host);
    AllBody(Path, u.path[1..]);
    AllBody(QueryStart, u.query);
    AllBody(FragmentStart, u.fragment);
  }

  lemma {:induction false} AllBody(m: Mode, s: string)
    requires forall i :: 0 <= i < |s| ==> Body(m, s[i])
    ensures Clean(m, s)
  {
    if s != "" {
      AllBody(m, s[1..]);
    }
  }
}
