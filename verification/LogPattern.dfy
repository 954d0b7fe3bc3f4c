/**
 * The tokenizer of log patterns (LogFormatter::init in src/log/log.cpp): an index-jumping scanner
 * against a description of its result, and what the tokens say about the pattern.
 */
module LogPattern {
  import opened Basics

  /** An entry of `vec`: text, or a conversion with its argument. */
  datatype Token = Literal(text: string) | Spec(str: string, fmt: string)

  const PATTERN_ERROR := "<pattern_error>"

  /** What the name of a conversion is made of: the scanner lets a closing brace through. */
  predicate NameChar(c: char) {
    'a' <= c <= 'z' || 'A' <= c <= 'Z' || c == '}'
  }

  /** Letters of either case belong to a name; of all other ASCII characters only the closing brace does. */
  lemma NamesAre(c: char)
    ensures NameChar(c) <==> c in "ABCDEFGHIJKLMNOPQRSTUVWXYZ" || c in "abcdefghijklmnopqrstuvwxyz" || c == '}'
  {
  }

  /** The length of the name at the front of `r`. */
  function Span(r: string): (k: nat)
    ensures k <= |r| && (forall j :: 0 <= j < k ==> NameChar(r[j])) && (k < |r| ==> !NameChar(r[k]))
  {
    if r == "" || !NameChar(r[0]) then 0 else 1 + Span(r[1..])
  }

  /** The position of the first closing brace, or the length. */
  function Close(r: string): (k: nat)
    ensures k <= |r| && (forall j :: 0 <= j < k ==> r[j] != '}') && (k < |r| ==> r[k] == '}')
  {
    if r == "" || r[0] == '}' then 0 else 1 + Close(r[1..])
  }

  /** A conversion, without its percent sign, at the front of a text. */
  datatype Conversion = Conversion(str: string, fmt: string, braces: bool, length: nat) | Unclosed

  function Scan(r: string): (c: Conversion)
    ensures c.Conversion? ==> c.length <= |r|
  {
    var k := Span(r);
    if k == |r| || r[k] != '{' then Conversion(r[..k], "", false, k)
    else
      var m := Close(r[k + 1..]);
      if m == |r[k + 1..]| then Unclosed else Conversion(r[..k], r[k + 1..][..m], true, k + 1 + m + 1)
  }

  function Flush(text: string): seq<Token> {
    if text == "" then [] else [Literal(text)]
  }

  /** A percent sign at the front of `s` starts a conversion. */
  predicate Starts(s: string) {
    s != "" && s[0] == '%' && !(|s| > 1 && s[1] == '%')
  }

  /** The tokens of `s`, with `text` pending. */
  function Tokens(s: string, text: string): seq<Token>
    decreases |s|
  {
    if s == "" then Flush(text)
    else if !Starts(s) then Tokens(s[1..], text + [s[0]])
    else
      var c := Scan(s[1..]);
      if c.Unclosed? then [Literal(PATTERN_ERROR)] + Tokens(s[1..], text)
      else Flush(text) + [Spec(c.str, c.fmt)] + Tokens(s[1..][c.length..], "")
  }

  /** The number of conversions whose brace is never closed, or is closed at once. */
  function Count(s: string, unclosed: bool): nat
    decreases |s|
  {
    if s == "" then 0
    else if !Starts(s) then Count(s[1..], unclosed)
    else
      var c := Scan(s[1..]);
      if c.Unclosed? then (if unclosed then 1 else 0) + Count(s[1..], unclosed)
      else (if !unclosed && c.braces && c.fmt == "" then 1 else 0) + Count(s[1..][c.length..], unclosed)
  }

  // ---------------------------------------------------------------- strings

  lemma Join(a: string, b: string, c: string)
    ensures a + b + c == a + (b + c)
  {
  }

  lemma Nil(s: string)
    ensures "" + s == s && s + "" == s
  {
  }

  lemma HeadTail(s: string)
    requires s != ""
    ensures [s[0]] + s[1..] == s
  {
  }

  lemma TailOf(s: string, a: nat, b: nat)
    requires a <= b < |s|
    ensures s[a..][b - a + 1..] == s[b + 1..] && s[a..][..b - a] == s[a..b] && s[a..][b - a] == s[b]
  {
  }

  // ---------------------------------------------------------------- the scanner

  ghost predicate Names(pattern: string, from: nat, to: nat) {
    from <= to <= |pattern| && forall j :: from <= j < to ==> NameChar(pattern[j])
  }

  /** The name ends at `n` without a brace. */
  lemma ScannedName(pattern: string, i: nat, n: nat)
    requires i < |pattern| && Names(pattern, i + 1, n)
    requires n < |pattern| ==> !NameChar(pattern[n]) && pattern[n] != '{'
    ensures Scan(pattern[i + 1..]) == Conversion(pattern[i + 1..n], "", false, n - i - 1)
  {
    SpanOf(pattern, i, n);
    if n < |pattern| {
      TailOf(pattern, i + 1, n);
    }
  }

  lemma SpanOf(pattern: string, i: nat, n: nat)
    requires i < |pattern| && Names(pattern, i + 1, n) && (n < |pattern| ==> !NameChar(pattern[n]))
    ensures Span(pattern[i + 1..]) == n - i - 1
  {
    var r := pattern[i + 1..];
    assert forall j :: 0 <= j < |r| ==> r[j] == pattern[i + 1 + j];
    assert n < |pattern| ==> r[n - i - 1] == pattern[n];
  }

  lemma CloseOf(pattern: string, begin: nat, n: nat)
    requires begin < n <= |pattern| && (forall j :: begin < j < n ==> pattern[j] != '}') && (n < |pattern| ==> pattern[n] == '}')
    ensures Close(pattern[begin + 1..]) == n - begin - 1
  {
    var r := pattern[begin + 1..];
    assert forall j :: 0 <= j < |r| ==> r[j] == pattern[begin + 1 + j];
    assert n < |pattern| ==> r[n - begin - 1] == pattern[n];
  }

  /** The name that ends at a brace. */
  lemma NameBefore(pattern: string, i: nat, begin: nat, r: string, k: nat)
    requires i < begin < |pattern| && Names(pattern, i + 1, begin) && pattern[begin] == '{'
    requires r == pattern[i + 1..] && i + 1 + k == begin
    ensures Span(r) == k < |r| && r[k] == '{' && r[..k] == pattern[i + 1..begin] && r[k + 1..] == pattern[begin + 1..]
  {
    SpanOf(pattern, i, begin);
    TailOf(pattern, i + 1, begin);
  }

  /** The braces open at `begin` and close at `n`. */
  lemma ScannedBraces(pattern: string, i: nat, begin: nat, n: nat)
    requires i < begin < n < |pattern| && Names(pattern, i + 1, begin) && pattern[begin] == '{'
    requires (forall j :: begin < j < n ==> pattern[j] != '}') && pattern[n] == '}'
    ensures Scan(pattern[i + 1..]) == Conversion(pattern[i + 1..begin], pattern[begin + 1..n], true, n - i)
  {
    var k, m := begin - (i + 1), n - (begin + 1);
    var tail := pattern[begin + 1..];
    NameBefore(pattern, i, begin, pattern[i + 1..], k);
    CloseOf(pattern, begin, n);
    TailOf(pattern, begin + 1, n);
    ScanParts(pattern[i + 1..], k, tail, m);
  }

  /** The braces open at `begin` and never close. */
  lemma ScannedOpen(pattern: string, i: nat, begin: nat)
    requires i < begin < |pattern| && Names(pattern, i + 1, begin) && pattern[begin] == '{'
    requires forall j :: begin < j < |pattern| ==> pattern[j] != '}'
    ensures Scan(pattern[i + 1..]) == Unclosed
  {
    NameBefore(pattern, i, begin, pattern[i + 1..], begin - (i + 1));
    CloseOf(pattern, begin, |pattern|);
    ScanParts(pattern[i + 1..], begin - (i + 1), pattern[begin + 1..], |pattern| - begin - 1);
  }

  lemma ScanParts(r: string, k: nat, tail: string, m: nat)
    requires Span(r) == k < |r| && r[k] == '{' && tail == r[k + 1..] && Close(tail) == m
    ensures Scan(r) == if m == |tail| then Unclosed else Conversion(r[..k], tail[..m], true, k + m + 2)
  {
  }

  /** The inner loop: from the percent sign at `i` to the end of its conversion. */
  method ScanSpec(pattern: string, i: nat) returns (n: nat, closed: bool, str: string, fmt: string)
    requires i < |pattern| && pattern[i] == '%'
    ensures i < n <= |pattern|
    ensures closed <==> Scan(pattern[i + 1..]).Conversion?
    ensures closed ==> n == i + 1 + Scan(pattern[i + 1..]).length && str == Scan(pattern[i + 1..]).str && fmt == Scan(pattern[i + 1..]).fmt
  {
    n := i + 1;
    var status := 0;
    var begin := i;
    str := "";
    fmt := "";
    ghost var done := false;
    while n < |pattern|
      invariant i < n <= |pattern| && (status == 0 || status == 1) && fmt == "" && !done
      invariant status == 0 ==> Names(pattern, i + 1, n) && str == if n == |pattern| then pattern[i + 1..] else ""
      invariant status == 1 ==> i < begin < n && Names(pattern, i + 1, begin) && pattern[begin] == '{'
      invariant status == 1 ==> forall j :: begin < j < n ==> pattern[j] != '}'
      invariant status == 1 && n < |pattern| ==> str == pattern[i + 1..begin]
    {
      if status == 0 && !NameChar(pattern[n]) && pattern[n] != '{' {
        str := pattern[i + 1..n];
        ScannedName(pattern, i, n);
        done := true;
        break;
      }
      if status == 0 {
        if pattern[n] == '{' {
          str := pattern[i + 1..n];
          status := 1;
          begin := n;
          n := n + 1;
          continue;
        }
      } else if status == 1 {
        if pattern[n] == '}' {
          fmt := pattern[begin + 1..n];
          ScannedBraces(pattern, i, begin, n);
          done := true;
          status := 0;
          n := n + 1;
          break;
        }
      }
      n := n + 1;
      if n == |pattern| {
        if str == "" {
          str := pattern[i + 1..];
        }
      }
    }
    closed := status == 0;
    if !done && closed {
      ScannedName(pattern, i, n);
    } else if !done {
      ScannedOpen(pattern, i, begin);
    }
  }

  /** What one turn of the outer loop does, by the three ways it can go. */
  lemma Literally(s: string, text: string)
    requires s != "" && !Starts(s)
    ensures Tokens(s, text) == Tokens(s[1..], text + [s[0]])
    ensures forall b :: Count(s, b) == Count(s[1..], b)
  {
  }

  lemma Broken(s: string, text: string)
    requires Starts(s) && Scan(s[1..]).Unclosed?
    ensures Tokens(s, text) == [Literal(PATTERN_ERROR)] + Tokens(s[1..], text)
    ensures Count(s, true) == 1 + Count(s[1..], true)
  {
  }

  lemma ConvertedTokens(s: string, text: string, c: Conversion)
    requires Starts(s) && c == Scan(s[1..]) && c.Conversion?
    ensures 1 + c.length <= |s|
    ensures Tokens(s, text) == Flush(text) + [Spec(c.str, c.fmt)] + Tokens(s[1 + c.length..], "")
  {
    assert s[1..][c.length..] == s[1 + c.length..];
  }

  lemma ConvertedCount(s: string, c: Conversion)
    requires Starts(s) && c == Scan(s[1..]) && c.Conversion?
    ensures 1 + c.length <= |s|
    ensures Count(s, true) == Count(s[1 + c.length..], true)
    ensures Count(s, false) == (if c.braces && c.fmt == "" then 1 else 0) + Count(s[1 + c.length..], false)
  {
    assert s[1..][c.length..] == s[1 + c.length..];
  }

  lemma Assoc(a: seq<Token>, b: seq<Token>, c: seq<Token>)
    ensures a + b + c == a + (b + c)
  {
  }

  /** The body of the outer loop at `i`: what it appends to `vec`, and where it goes on. */
  method Turn(pattern: string, i: nat, nstr: string) returns (out: seq<Token>, next: nat, pending: string, broken: bool)
    requires i < |pattern|
    ensures i < next <= |pattern|
    ensures Tokens(pattern[i..], nstr) == out + Tokens(pattern[next..], pending)
    ensures Count(pattern[i..], true) > 0 <==> broken || Count(pattern[next..], true) > 0
  {
    ghost var s := pattern[i..];
    assert s[1..] == pattern[i + 1..];
    out, broken := [], false;
    if pattern[i] != '%' || (i + 1 < |pattern| && pattern[i + 1] == '%') {
      Literally(s, nstr);
      pending := nstr + [pattern[i]];
      next := i + 1;
      assert out + Tokens(s[1..], pending) == Tokens(s[1..], pending);
      return;
    }
    var n, closed, str, fmt := ScanSpec(pattern, i);
    if closed {
      ConvertedTokens(s, nstr, Scan(s[1..]));
      ConvertedCount(s, Scan(s[1..]));
      assert pattern[n..] == s[n - i..];
      if nstr != "" {
        out := [Literal(nstr)];
      }
      out := out + [Spec(str, fmt)];
      assert out == Flush(nstr) + [Spec(str, fmt)];
      pending := "";
      next := n;
    } else {
      Broken(s, nstr);
      broken := true;
      out := [Literal(PATTERN_ERROR)];
      pending := nstr;
      next := i + 1;
    }
  }

  /** LogFormatter::init, up to the lookup of the conversions. */
  method Init(pattern: string) returns (vec: seq<Token>, error: bool)
    ensures vec == Tokens(pattern, "")
    ensures error <==> Count(pattern, true) > 0
  {
    vec := [];
    error := false;
    var nstr := "";
    var i := 0;
    assert pattern[0..] == pattern;
    while i < |pattern|
      invariant i <= |pattern|
      invariant vec + Tokens(pattern[i..], nstr) == Tokens(pattern, "")
      invariant error || Count(pattern[i..], true) > 0 <==> Count(pattern, true) > 0
    {
      var out, next, pending, broken := Turn(pattern, i, nstr);
      Assoc(vec, out, Tokens(pattern[next..], pending));
      vec := vec + out;
      i, nstr, error := next, pending, error || broken;
    }
    if nstr != "" {
      vec := vec + [Literal(nstr)];
    }
  }

  // ---------------------------------------------------------------- from pattern to tokens and back

  function Braces(fmt: string): string {
    if fmt == "" then "" else "{" + fmt + "}"
  }

  function PrintToken(t: Token): string {
    match t
    case Literal(text) => text
    case Spec(str, fmt) => "%" + (str + Braces(fmt))
  }

  function Print(ts: seq<Token>): string {
    if ts == [] then "" else PrintToken(ts[0]) + Print(ts[1..])
  }

  lemma PrintCons(t: Token, rest: seq<Token>)
    ensures Print([t] + rest) == PrintToken(t) + Print(rest)
  {
    assert ([t] + rest)[1..] == rest;
  }

  lemma PrintSpec(text: string, t: Token, rest: seq<Token>)
    ensures Print(Flush(text) + [t] + rest) == text + PrintToken(t) + Print(rest)
  {
    PrintCons(t, rest);
    Assoc(Flush(text), [t], rest);
    Join(text, PrintToken(t), Print(rest));
    if text == "" {
      assert [] + ([t] + rest) == [t] + rest;
      Nil(PrintToken(t) + Print(rest));
    } else {
      PrintCons(Literal(text), [t] + rest);
    }
  }

  lemma Bracketed(r: string, k: nat, m: nat)
    requires k + m + 2 <= |r| && r[k] == '{' && r[k + 1 + m] == '}'
    ensures r[..k + m + 2] == r[..k] + ("{" + r[k + 1..][..m] + "}")
  {
    assert r[k + 1..][..m] == r[k + 1..k + 1 + m];
    assert "{" + r[k + 1..k + 1 + m] + "}" == r[k..k + m + 2];
  }

  /** A conversion prints as the text it was scanned from, unless its braces are empty. */
  lemma ScanPrints(r: string)
    requires Scan(r).Conversion?
    ensures var c := Scan(r);
            if c.braces && c.fmt == "" then |PrintToken(Spec(c.str, c.fmt))| + 2 == 1 + c.length
            else PrintToken(Spec(c.str, c.fmt)) == "%" + r[..c.length]
  {
    var c := Scan(r);
    var k := Span(r);
    if c.braces {
      var m := Close(r[k + 1..]);
      assert r[k + 1..][m] == r[k + 1 + m];
      Bracketed(r, k, m);
    } else {
      assert c.str + "" == c.str;
    }
  }

  lemma NotBroken(s: string)
    requires Starts(s) && Count(s, true) == 0
    ensures Scan(s[1..]).Conversion?
  {
  }

  lemma Pieces(s: string, text: string, k: nat)
    requires 1 + k <= |s| && s[0] == '%'
    ensures text + ("%" + s[1..][..k]) + s[1 + k..] == text + s
  {
    assert "%" + s[1..][..k] == s[..1 + k];
  }

  /** Printed, the tokens are shorter by two for every pair of empty braces; kept folded. */
  ghost predicate Shortened(s: string, text: string) {
    forall x {:trigger Unfold(x)} :: Unfold(x) ==>
      && |Print(Tokens(s, text))| + 2 * Count(s, false) == |text| + |s|
      && (Count(s, false) == 0 ==> Print(Tokens(s, text)) == text + s)
  }

  /**
   * Without an unclosed brace, printing the tokens gives a text that is shorter by two for
   * every pair of empty braces, and is the pattern when there is none.
   */
  lemma PrintTokens(s: string, text: string)
    requires Count(s, true) == 0
    ensures |Print(Tokens(s, text))| + 2 * Count(s, false) == |text| + |s|
    ensures Count(s, false) == 0 ==> Print(Tokens(s, text)) == text + s
  {
    ShortenedAlways(s, text);
    ShortenedIs(s, text);
  }

  lemma {:induction false} ShortenedAlways(s: string, text: string)
    requires Count(s, true) == 0
    ensures Shortened(s, text)
    decreases |s|
  {
    if s == "" {
      ShortenedEnd(text);
    } else if !Starts(s) {
      ShortenedAlways(s[1..], text + [s[0]]);
      ShortenedLiteral(s, text);
    } else {
      NotBroken(s);
      ConvertedCount(s, Scan(s[1..]));
      ShortenedAlways(s[1 + Scan(s[1..]).length..], "");
      ShortenedSpec(s, text, Scan(s[1..]));
    }
  }

  lemma ShortenedEnd(text: string)
    ensures Shortened("", text)
  {
    Nil(text);
    if text != "" {
      PrintCons(Literal(text), []);
      assert [Literal(text)] + [] == [Literal(text)];
    }
  }

  lemma ShortenedLiteral(s: string, text: string)
    requires s != "" && !Starts(s) && Shortened(s[1..], text + [s[0]])
    ensures Shortened(s, text)
  {
    ShortenedIs(s[1..], text + [s[0]]);
    Literally(s, text);
    Join(text, [s[0]], s[1..]);
    HeadTail(s);
  }

  lemma ShortenedSpec(s: string, text: string, c: Conversion)
    requires Starts(s) && c == Scan(s[1..]) && c.Conversion? && 1 + c.length <= |s| && Shortened(s[1 + c.length..], "")
    ensures Shortened(s, text)
  {
    var rest := s[1 + c.length..];
    ShortenedIs(rest, "");
    Nil(rest);
    var printed, lost := ShortenedPrint(s, text, c, Print(Tokens(rest, "")), Count(rest, false));
    PrintConverted(s, text, c);
    ConvertedCount(s, c);
    ShortenedFrom(s, text, printed, lost);
  }

  /** The printed text, given what the rest prints as. */
  lemma ShortenedPrint(s: string, text: string, c: Conversion, tail: string, left: nat) returns (printed: string, lost: nat)
    requires Starts(s) && c == Scan(s[1..]) && c.Conversion? && 1 + c.length <= |s|
    requires |tail| + 2 * left == |s| - 1 - c.length && (left == 0 ==> tail == s[1 + c.length..])
    ensures printed == text + PrintToken(Spec(c.str, c.fmt)) + tail && lost == left + (if c.braces && c.fmt == "" then 1 else 0)
    ensures |printed| + 2 * lost == |text| + |s| && (lost == 0 ==> printed == text + s)
  {
    ScanPrints(s[1..]);
    var empty := c.braces && c.fmt == "";
    ShortenedSum(s, text, PrintToken(Spec(c.str, c.fmt)), tail, c.length, left, empty);
    printed, lost := text + PrintToken(Spec(c.str, c.fmt)) + tail, left + if empty then 1 else 0;
  }

  lemma ShortenedFrom(s: string, text: string, printed: string, lost: nat)
    requires Print(Tokens(s, text)) == printed && Count(s, false) == lost
    requires |printed| + 2 * lost == |text| + |s| && (lost == 0 ==> printed == text + s)
    ensures Shortened(s, text)
  {
  }

  /** What is printed for a pattern that starts with a conversion. */
  lemma PrintConverted(s: string, text: string, c: Conversion)
    requires Starts(s) && c == Scan(s[1..]) && c.Conversion?
    ensures 1 + c.length <= |s|
    ensures Print(Tokens(s, text)) == text + PrintToken(Spec(c.str, c.fmt)) + Print(Tokens(s[1 + c.length..], ""))
  {
    ConvertedTokens(s, text, c);
    PrintSpec(text, Spec(c.str, c.fmt), Tokens(s[1 + c.length..], ""));
  }

  lemma ShortenedIs(s: string, text: string)
    requires Shortened(s, text)
    ensures |Print(Tokens(s, text))| + 2 * Count(s, false) == |text| + |s|
    ensures Count(s, false) == 0 ==> Print(Tokens(s, text)) == text + s
  {
    assert Unfold(0);
  }

  /** The text of a conversion and of what follows it, put together. */
  lemma ShortenedSum(s: string, text: string, spec: string, tail: string, k: nat, lost: nat, empty: bool)
    requires 1 + k <= |s| && s[0] == '%' && |tail| + 2 * lost == |s| - 1 - k && (lost == 0 ==> tail == s[1 + k..])
    requires if empty then |spec| + 2 == 1 + k else spec == "%" + s[1..][..k]
    ensures |text + spec + tail| + 2 * (lost + if empty then 1 else 0) == |text| + |s|
    ensures lost == 0 && !empty ==> text + spec + tail == text + s
  {
    Pieces(s, text, k);
  }

  /** The number of percent signs. */
  function Percents(s: string): nat {
    if s == "" then 0 else (if s[0] == '%' then 1 else 0) + Percents(s[1..])
  }

  lemma {:induction false} PercentsJoin(a: string, b: string)
    ensures Percents(a + b) == Percents(a) + Percents(b)
    decreases |a|
  {
    if a == "" {
      assert a + b == b;
    } else {
      assert (a + b)[1..] == a[1..] + b;
      PercentsJoin(a[1..], b);
    }
  }

  lemma {:induction false} NoPercents(s: string)
    requires forall j :: 0 <= j < |s| ==> s[j] != '%'
    ensures Percents(s) == 0
    decreases |s|
  {
    if s != "" {
      NoPercents(s[1..]);
    }
  }

  /** A printed conversion has the percent signs of the text it was scanned from. */
  lemma ScanPercents(r: string)
    requires Scan(r).Conversion?
    ensures var c := Scan(r); Percents(PrintToken(Spec(c.str, c.fmt))) == 1 + Percents(r[..c.length])
  {
    var c := Scan(r);
    ScanPrints(r);
    if c.braces && c.fmt == "" {
      EmptyBracesText(r);
      PercentsJoin(c.str, "{}");
      NoPercents("{}");
      assert c.str + Braces("") == c.str;
      PercentsJoin("%", c.str);
    } else {
      PercentsJoin("%", r[..c.length]);
    }
    assert Percents("%") == 1 + Percents("%"[1..]);
  }

  lemma EmptyBracesText(r: string)
    requires Scan(r).Conversion? && Scan(r).braces && Scan(r).fmt == ""
    ensures r[..Scan(r).length] == Scan(r).str + "{}"
  {
    var k := Span(r);
    var m := Close(r[k + 1..]);
    assert m == |r[k + 1..][..m]| == 0;
    assert r[k + 1..][m] == r[k + 1];
    assert r[..k + 2] == r[..k] + [r[k], r[k + 1]];
  }

  /** Printed, the tokens lack one percent sign for every unclosed brace; kept folded. */
  ghost predicate Balanced(s: string, text: string) {
    forall x {:trigger Unfold(x)} :: Unfold(x) ==>
      Percents(Print(Tokens(s, text))) + Count(s, true) == Percents(text) + Percents(s)
  }

  lemma BalancedIs(s: string, text: string)
    requires Balanced(s, text)
    ensures Percents(Print(Tokens(s, text))) + Count(s, true) == Percents(text) + Percents(s)
  {
    assert Unfold(0);
  }

  /** Each unclosed brace costs the printed tokens one percent sign, and nothing else does. */
  lemma {:induction false} PercentsLost(s: string, text: string)
    ensures Balanced(s, text)
    decreases |s|
  {
    if s == "" {
      BalancedEnd(text);
    } else if !Starts(s) {
      PercentsLost(s[1..], text + [s[0]]);
      BalancedLiteral(s, text);
    } else if Scan(s[1..]).Unclosed? {
      PercentsLost(s[1..], text);
      BalancedBroken(s, text);
    } else {
      PercentsLost(s[1 + Scan(s[1..]).length..], "");
      BalancedSpec(s, text, Scan(s[1..]));
    }
  }

  lemma BalancedEnd(text: string)
    ensures Balanced("", text)
  {
    Nil(text);
    if text != "" {
      PrintCons(Literal(text), []);
      assert [Literal(text)] + [] == [Literal(text)];
    }
  }

  lemma BalancedLiteral(s: string, text: string)
    requires s != "" && !Starts(s) && Balanced(s[1..], text + [s[0]])
    ensures Balanced(s, text)
  {
    BalancedIs(s[1..], text + [s[0]]);
    Literally(s, text);
    PercentsJoin(text, [s[0]]);
    PercentsJoin([s[0]], s[1..]);
    HeadTail(s);
  }

  lemma BalancedBroken(s: string, text: string)
    requires Starts(s) && Scan(s[1..]).Unclosed? && Balanced(s[1..], text)
    ensures Balanced(s, text)
  {
    BalancedIs(s[1..], text);
    PrintBroken(s, text);
  }

  lemma PrintBroken(s: string, text: string)
    requires Starts(s) && Scan(s[1..]).Unclosed?
    ensures Percents(Print(Tokens(s, text))) == Percents(Print(Tokens(s[1..], text)))
    ensures Count(s, true) == 1 + Count(s[1..], true)
  {
    Broken(s, text);
    PrintPlain(PATTERN_ERROR, Tokens(s[1..], text));
  }

  lemma PrintPlain(text: string, ts: seq<Token>)
    requires forall j :: 0 <= j < |text| ==> text[j] != '%'
    ensures Percents(Print([Literal(text)] + ts)) == Percents(Print(ts))
  {
    PrintCons(Literal(text), ts);
    PercentsJoin(text, Print(ts));
    NoPercents(text);
  }

  lemma BalancedSpec(s: string, text: string, c: Conversion)
    requires Starts(s) && c == Scan(s[1..]) && c.Conversion? && 1 + c.length <= |s| && Balanced(s[1 + c.length..], "")
    ensures Balanced(s, text)
  {
    var ts := Tokens(s[1 + c.length..], "");
    BalancedIs(s[1 + c.length..], "");
    PrintConverted(s, text, c);
    ConvertedCount(s, c);
    ScanPercents(s[1..]);
    PercentsThree(text, PrintToken(Spec(c.str, c.fmt)), Print(ts));
    PercentsSplit(s, c.length);
  }

  lemma PercentsThree(a: string, b: string, c: string)
    ensures Percents(a + b + c) == Percents(a) + Percents(b) + Percents(c)
  {
    PercentsJoin(a + b, c);
    PercentsJoin(a, b);
  }

  lemma PercentsSplit(s: string, k: nat)
    requires 1 + k <= |s| && s[0] == '%'
    ensures Percents(s) == 1 + Percents(s[1..][..k]) + Percents(s[1 + k..])
  {
    assert s[1..] == s[1..][..k] + s[1 + k..];
    PercentsJoin(s[1..][..k], s[1 + k..]);
  }

  /** The tokenizer loses nothing exactly when no conversion has unclosed or empty braces. */
  lemma LosslessExactly(pattern: string)
    ensures Print(Tokens(pattern, "")) == pattern <==> Count(pattern, true) == 0 && Count(pattern, false) == 0
  {
    if Count(pattern, true) > 0 {
      PercentsLost(pattern, "");
      BalancedIs(pattern, "");
    } else {
      PrintTokens(pattern, "");
      Nil(pattern);
    }
  }

  /** No opening brace is closed at once. */
  ghost predicate NoEmptyPair(s: string) {
    forall i, j :: 0 <= i < |s| && j == i + 1 && j < |s| && s[i] == '{' ==> s[j] != '}'
  }

  /** A pattern without empty braces anywhere has no conversion with empty braces. */
  lemma {:induction false} NoEmptyBraces(s: string)
    requires NoEmptyPair(s)
    ensures Count(s, false) == 0
    decreases |s|
  {
    if s != "" {
      assert NoEmptyPair(s[1..]);
      if !Starts(s) || Scan(s[1..]).Unclosed? {
        NoEmptyBraces(s[1..]);
      } else {
        var c := Scan(s[1..]);
        ConvertedCount(s, c);
        NoEmptyBraces(s[1 + c.length..]);
        if c.braces {
          ScanHasBraces(s[1..]);
        }
      }
    }
  }

  lemma ScanHasBraces(r: string)
    requires NoEmptyPair(r) && Scan(r).Conversion? && Scan(r).braces
    ensures Scan(r).fmt != ""
  {
    var k := Span(r);
    assert r[k + 1..][Close(r[k + 1..])] == '}';
    assert r[k] == '{';
  }

  // ---------------------------------------------------------------- normal forms

  /** No conversion starts inside `text` when `after` follows. */
  ghost predicate LiteralOk(text: string, after: string) {
    text == "" || (!Starts(text + after) && LiteralOk(text[1..], after))
  }

  /** The conversion ends where it should when `after` follows. */
  ghost predicate SpecOk(str: string, fmt: string, after: string) {
    && (forall j :: 0 <= j < |str| ==> NameChar(str[j]))
    && (forall j :: 0 <= j < |fmt| ==> fmt[j] != '}')
    && (fmt == "" && after != "" ==> !NameChar(after[0]) && after[0] != '{' && (str == "" ==> after[0] != '%'))
  }

  /** Token lists that the tokenizer can produce without losing anything. */
  ghost predicate Normal(ts: seq<Token>) {
    ts == [] ||
    (Normal(ts[1..]) &&
     match ts[0]
     case Literal(text) => text != "" && (|ts| > 1 ==> ts[1].Spec?) && LiteralOk(text, Print(ts[1..]))
     case Spec(str, fmt) => SpecOk(str, fmt, Print(ts[1..])))
  }

  lemma SpanIs(str: string, after: string)
    requires (forall j :: 0 <= j < |str| ==> NameChar(str[j])) && (after != "" ==> !NameChar(after[0]))
    ensures Span(str + after) == |str| && (str + after)[..|str|] == str
  {
    assert after != "" ==> (str + after)[|str|] == after[0];
  }

  lemma CloseIs(fmt: string, after: string)
    requires forall j :: 0 <= j < |fmt| ==> fmt[j] != '}'
    ensures Close(fmt + ("}" + after)) == |fmt| && (fmt + ("}" + after))[..|fmt|] == fmt
  {
    assert (fmt + ("}" + after))[|fmt|] == '}';
  }

  lemma ScanName(str: string, after: string)
    requires SpecOk(str, "", after)
    ensures Scan(str + after) == Conversion(str, "", false, |str|)
  {
    SpanIs(str, after);
  }

  lemma ScanBraces(str: string, fmt: string, after: string)
    requires SpecOk(str, fmt, after) && fmt != ""
    ensures Scan(str + (Braces(fmt) + after)) == Conversion(str, fmt, true, |str| + |fmt| + 2)
  {
    var t := fmt + ("}" + after);
    Join("{" + fmt, "}", after);
    Join("{", fmt, "}" + after);
    SpanIs(str, "{" + t);
    CloseIs(fmt, after);
    Dropped(str, "{", t);
    ScanParts(str + ("{" + t), |str|, t, |fmt|);
  }

  /** What follows the percent sign of a printed conversion is scanned back. */
  lemma SpecReads(str: string, fmt: string, after: string)
    requires SpecOk(str, fmt, after)
    ensures Scan(str + (Braces(fmt) + after)) == Conversion(str, fmt, fmt != "", |str| + |Braces(fmt)|)
  {
    if fmt == "" {
      assert Braces(fmt) + after == after;
      ScanName(str, after);
    } else {
      ScanBraces(str, fmt, after);
    }
  }

  lemma SpecStarts(str: string, fmt: string, after: string)
    requires SpecOk(str, fmt, after)
    ensures Starts("%" + (str + (Braces(fmt) + after)))
  {
    var r := str + (Braces(fmt) + after);
    if r != "" {
      assert ("%" + r)[1] == r[0];
      if str != "" {
        assert r[0] == str[0];
      } else if fmt != "" {
        assert r[0] == '{';
      } else {
        assert r == after;
      }
    }
  }

  /** Literal text is absorbed into the pending text. */
  lemma {:induction false} Absorb(text: string, after: string, pending: string)
    requires LiteralOk(text, after)
    ensures Tokens(text + after, pending) == Tokens(after, pending + text)
    ensures forall b :: Count(text + after, b) == Count(after, b)
    decreases |text|
  {
    if text == "" {
      Nil(after);
      Nil(pending);
    } else {
      Literally(text + after, pending);
      assert (text + after)[1..] == text[1..] + after;
      Absorb(text[1..], after, pending + [text[0]]);
      Join(pending, [text[0]], text[1..]);
      HeadTail(text);
    }
  }

  /** `s` has the tokens `ts`, and no conversion in it has unclosed or empty braces; kept folded. */
  ghost predicate Reads(s: string, ts: seq<Token>) {
    forall x {:trigger Unfold(x)} :: Unfold(x) ==> Tokens(s, "") == ts && Count(s, true) == 0 && Count(s, false) == 0
  }

  lemma ReadsIs(s: string, ts: seq<Token>)
    requires Reads(s, ts)
    ensures Tokens(s, "") == ts && Count(s, true) == 0 && Count(s, false) == 0
  {
    assert Unfold(0);
  }

  lemma NothingReads()
    ensures Reads("", [])
  {
  }

  /** Tokenizing a printed list in normal form gives back the list. */
  lemma {:induction false} TokensOfPrint(ts: seq<Token>)
    requires Normal(ts)
    ensures Reads(Print(ts), ts)
    decreases |ts|
  {
    if ts == [] {
      NothingReads();
    } else {
      TokensOfPrint(ts[1..]);
      HeadReads(ts);
    }
  }

  lemma HeadReads(ts: seq<Token>)
    requires Normal(ts) && ts != [] && Reads(Print(ts[1..]), ts[1..])
    ensures Reads(Print(ts), ts)
  {
    assert ts == [ts[0]] + ts[1..];
    if ts[0].Literal? {
      LiteralReads(ts[0].text, ts[1..]);
    } else {
      SpecPrintReads(ts[0], ts[1..]);
    }
  }

  lemma SpecPrintReads(t: Token, rest: seq<Token>)
    requires t.Spec? && SpecOk(t.str, t.fmt, Print(rest)) && Reads(Print(rest), rest)
    ensures Reads(PrintToken(t) + Print(rest), [t] + rest)
  {
    ReadsIs(Print(rest), rest);
    SpecFirst(t.str, t.fmt, Print(rest), "");
    assert [] + ([t] + rest) == [t] + rest;
  }

  lemma LiteralReads(text: string, rest: seq<Token>)
    requires Reads(Print(rest), rest) && Normal(rest) && LiteralOk(text, Print(rest)) && text != ""
    requires rest != [] ==> rest[0].Spec?
    ensures Reads(text + Print(rest), [Literal(text)] + rest)
  {
    ReadsIs(Print(rest), rest);
    Absorb(text, Print(rest), "");
    Nil(text);
    if rest == [] {
      assert [Literal(text)] + rest == [Literal(text)];
    } else {
      PendingFirst(rest, text);
    }
  }

  lemma PendingFirst(ts: seq<Token>, text: string)
    requires Normal(ts) && ts != [] && ts[0].Spec? && Tokens(Print(ts), "") == ts
    ensures Tokens(Print(ts), text) == Flush(text) + ts
  {
    SpecFirst(ts[0].str, ts[0].fmt, Print(ts[1..]), "");
    SpecFirst(ts[0].str, ts[0].fmt, Print(ts[1..]), text);
    var tail := [ts[0]] + Tokens(Print(ts[1..]), "");
    assert Flush("") + tail == tail;
  }

  /** Pending text comes out before a conversion. */
  lemma SpecFirst(str: string, fmt: string, after: string, text: string)
    requires SpecOk(str, fmt, after)
    ensures Tokens(PrintToken(Spec(str, fmt)) + after, text) == Flush(text) + ([Spec(str, fmt)] + Tokens(after, ""))
    ensures forall b :: Count(PrintToken(Spec(str, fmt)) + after, b) == Count(after, b)
  {
    var r := str + (Braces(fmt) + after);
    var c := Conversion(str, fmt, fmt != "", |str| + |Braces(fmt)|);
    Join("%", str + Braces(fmt), after);
    Join(str, Braces(fmt), after);
    SpecReads(str, fmt, after);
    SpecStarts(str, fmt, after);
    assert ("%" + r)[1..] == r;
    Dropped("%" + str, Braces(fmt), after);
    Join("%", str, Braces(fmt) + after);
    ConvertedTokens("%" + r, text, c);
    ConvertedCount("%" + r, c);
    Assoc(Flush(text), [Spec(str, fmt)], Tokens(after, ""));
  }

  lemma Dropped(a: string, b: string, after: string)
    ensures (a + (b + after))[|a| + |b|..] == after
  {
  }

  lemma {:induction false} LiteralGrows(text: string, s: string)
    requires LiteralOk(text, s) && s != "" && !Starts(s)
    ensures LiteralOk(text + [s[0]], s[1..])
    decreases |text|
  {
    if text == "" {
      assert text + [s[0]] + s[1..] == s;
      assert (text + [s[0]])[1..] == "";
    } else {
      LiteralGrows(text[1..], s);
      assert (text + [s[0]])[1..] == text[1..] + [s[0]];
      assert text + [s[0]] + s[1..] == text + s;
    }
  }

  lemma ScanIsOk(r: string)
    requires Scan(r).Conversion? && !(Scan(r).braces && Scan(r).fmt == "") && (r != "" ==> r[0] != '%')
    ensures SpecOk(Scan(r).str, Scan(r).fmt, r[Scan(r).length..])
  {
    var c := Scan(r);
    var k := Span(r);
    if c.braces {
      assert c.fmt == r[k + 1..][..Close(r[k + 1..])];
    } else if k < |r| {
      assert r[k..][0] == r[k];
    }
  }

  /** Without unclosed and empty braces the tokens are in normal form. */
  lemma {:induction false} TokensAreNormal(s: string, text: string)
    requires Count(s, true) == 0 && Count(s, false) == 0 && LiteralOk(text, s)
    ensures Normal(Tokens(s, text))
    decreases |s|
  {
    if s == "" {
      if text != "" {
        assert [Literal(text)][1..] == [];
      }
    } else if !Starts(s) {
      Literally(s, text);
      LiteralGrows(text, s);
      TokensAreNormal(s[1..], text + [s[0]]);
    } else {
      NotBroken(s);
      var c := Scan(s[1..]);
      var rest := s[1 + c.length..];
      var ts := Tokens(rest, "");
      ConvertedTokens(s, text, c);
      ConvertedCount(s, c);
      assert s[1..] != "" ==> s[1..][0] == s[1];
      ScanIsOk(s[1..]);
      assert s[1..][c.length..] == rest;
      TokensAreNormal(rest, "");
      PrintTokens(rest, "");
      Nil(rest);
      PrintTokens(s, "");
      Nil(s);
      NormalJoin(s, text, Spec(c.str, c.fmt), ts);
    }
  }

  lemma NormalSpec(t: Token, ts: seq<Token>)
    requires Normal(ts) && t.Spec? && SpecOk(t.str, t.fmt, Print(ts))
    ensures Normal([t] + ts)
  {
    assert ([t] + ts)[1..] == ts;
  }

  lemma NormalLiteral(text: string, ts: seq<Token>)
    requires Normal(ts) && text != "" && ts != [] && ts[0].Spec? && LiteralOk(text, Print(ts))
    ensures Normal([Literal(text)] + ts)
  {
    assert ([Literal(text)] + ts)[1..] == ts;
  }

  lemma NormalJoin(s: string, text: string, t: Token, ts: seq<Token>)
    requires Normal(ts) && t.Spec? && SpecOk(t.str, t.fmt, Print(ts)) && LiteralOk(text, s)
    requires Print(Flush("") + [t] + ts) == s
    ensures Normal(Flush(text) + [t] + ts)
  {
    NormalSpec(t, ts);
    assert Flush("") + [t] + ts == [t] + ts;
    if text != "" {
      NormalLiteral(text, [t] + ts);
      Assoc(Flush(text), [t], ts);
    }
  }

  lemma ReadsNormal(s: string, ts: seq<Token>)
    requires Reads(s, ts)
    ensures Normal(ts)
  {
    ReadsIs(s, ts);
    TokensAreNormal(s, "");
  }

  /** The lists in normal form are exactly the tokens of the patterns without bad braces. */
  lemma NormalExactly(ts: seq<Token>)
    ensures Normal(ts) <==> exists s :: Reads(s, ts)
  {
    if Normal(ts) {
      TokensOfPrint(ts);
    } else if s :| Reads(s, ts) {
      ReadsNormal(s, ts);
    }
  }

  /** After an unclosed brace the error text comes before the literal text that precedes it. */
  lemma ErrorComesFirst(text: string, r: string)
    requires Scan(r).Unclosed? && LiteralOk(text, "%" + r)
    ensures Tokens(text + ("%" + r), "") == [Literal(PATTERN_ERROR)] + Tokens(r, text)
  {
    var s := "%" + r;
    assert s[1..] == r;
    Absorb(text, s, "");
    assert "" + text == text;
    if r != "" {
      assert s[1] == r[0];
    }
    Broken(s, text);
  }

  // ---------------------------------------------------------------- patterns that do not come back

  lemma ScanEmptyBraces()
    ensures Scan("d{}") == Conversion("d", "", true, 3)
  {
    var r := "d{}";
    assert Span(r) == 1 && r[2..] == "}" && Close("}") == 0;
    assert r[..1] == "d" && "}"[..0] == "";
  }

  lemma EmptyBracesLost()
    ensures Tokens("%d{}", "") == [Spec("d", "")]
    ensures Print(Tokens("%d{}", "")) != "%d{}"
  {
    EmptyBracesTokens();
    EmptyBracesCount();
    LosslessExactly("%d{}");
  }

  lemma EmptyBracesTokens()
    ensures Tokens("%d{}", "") == [Spec("d", "")]
  {
    var s := "%d{}";
    assert s[1..] == "d{}" && s[4..] == "";
    ScanEmptyBraces();
    ConvertedTokens(s, "", Conversion("d", "", true, 3));
  }

  lemma EmptyBracesCount()
    ensures Count("%d{}", false) == 1
  {
    var s := "%d{}";
    assert s[1..] == "d{}" && s[4..] == "";
    ScanEmptyBraces();
    ConvertedCount(s, Conversion("d", "", true, 3));
  }

  lemma UnclosedBraceLost()
    ensures Tokens("%d{", "") == [Literal("<pattern_error>"), Literal("d{")]
    ensures Print(Tokens("%d{", "")) != "%d{"
  {
    UnclosedRest();
    UnclosedScan();
    assert "%d{"[1..] == "d{";
    Broken("%d{", "");
    LosslessExactly("%d{");
  }

  lemma UnclosedScan()
    ensures Scan("d{").Unclosed?
  {
    var r := "d{";
    assert Span(r) == 1 && r[2..] == "" && Close("") == 0;
  }

  lemma UnclosedRest()
    ensures Tokens("d{", "") == [Literal("d{")]
  {
    assert "d{"[1..] == "{" && "{"[1..] == "" && "" + ['d'] == "d" && "d" + ['{'] == "d{";
    Literally("d{", "");
    Literally("{", "d");
  }

  /** One conversion without braces behind pending text. */
  lemma OneName(s: string, text: string, name: string, rest: string)
    requires s == "%" + (name + rest) && !(name + rest != "" && (name + rest)[0] == '%')
    requires (forall j :: 0 <= j < |name| ==> NameChar(name[j])) && (rest != "" ==> !NameChar(rest[0]) && rest[0] != '{')
    ensures Tokens(s, text) == Flush(text) + [Spec(name, "")] + Tokens(rest, "")
  {
    var r := name + rest;
    assert s[1..] == r && r[..|name|] == name && s[1 + |name|..] == rest;
    NameOnly(r, |name|);
    ConvertedTokens(s, text, Conversion(name, "", false, |name|));
  }

  /** A conversion for each name, in either case. */
  lemma EitherCase()
    ensures Tokens("%T%n", "") == [Spec("T", ""), Spec("n", "")]
  {
    assert "%T%n" == "%" + ("T" + "%n") && "%n" == "%" + ("n" + "");
    OneName("%T%n", "", "T", "%n");
    OneName("%n", "", "n", "");
  }

  /** Of two percent signs the first is text and the second may start a conversion. */
  lemma PercentPair()
    ensures Tokens("%%d", "") == [Literal("%"), Spec("d", "")]
  {
    assert "%%d"[1..] == "%d" && "%d" == "%" + ("d" + "") && "" + ['%'] == "%";
    Literally("%%d", "");
    OneName("%d", "%", "d", "");
  }

  lemma NameOnly(r: string, k: nat)
    requires k <= |r| && (forall j :: 0 <= j < k ==> NameChar(r[j])) && (k < |r| ==> !NameChar(r[k]) && r[k] != '{')
    ensures Scan(r) == Conversion(r[..k], "", false, k)
  {
    assert Span(r) == k;
  }
}
