/** What CreateUri accepts: the parts it saves are always in the grammar of src/HTTP/uri.rl. */
module UriGrammar {
  import opened Basics
  import opened Codec
  import opened Uri
  import opened UriRoundTrip

  /** Text of mode `m` up to an escape with `e` hexadecimal digits to come. */
  ghost predicate SoFar(m: Mode, s: string, e: nat)
    decreases |s|
  {
    if s == "" then e == 0
    else if s[0] != '%' then Body(m, s[0]) && SoFar(m, s[1..], e)
    else if |s| == 1 then e == 2
    else if |s| == 2 then Hex(s[1]) && e == 1
    else Hex(s[1]) && Hex(s[2]) && SoFar(m, s[3..], e)
  }

  lemma {:induction false} SoFarIsClean(m: Mode, s: string)
    requires SoFar(m, s, 0)
    ensures Clean(m, s)
    decreases |s|
  {
    if s != "" {
      SoFarIsClean(m, if s[0] == '%' then s[3..] else s[1..]);
    }
  }

  /** One character more. */
  lemma {:induction false} SoFarMore(m: Mode, s: string, e: nat, c: char)
    requires SoFar(m, s, e)
    ensures e > 0 && Hex(c) ==> SoFar(m, s + [c], e - 1)
    ensures e == 0 && Body(m, c) && c != '%' ==> SoFar(m, s + [c], 0)
    ensures e == 0 && c == '%' ==> SoFar(m, s + [c], 2)
    decreases |s|
  {
    if s == "" {
      assert s + [c] == [c] && [c][1..] == "";
    } else if s[0] != '%' {
      SoFarMore(m, s[1..], e, c);
      assert (s + [c])[1..] == s[1..] + [c];
    } else if |s| > 2 {
      SoFarMore(m, s[3..], e, c);
      assert (s + [c])[3..] == s[3..] + [c];
    } else if |s| == 2 {
      assert (s + [c])[3..] == "";
    }
  }

  /** What a name is made of, user information is made of. */
  lemma {:induction false} NamesAreInfo(s: string, e: nat)
    requires SoFar(Authority, s, e)
    ensures SoFar(Info, s, e)
    decreases |s|
  {
    if s != "" && s[0] != '%' {
      NamesAreInfo(s[1..], e);
    } else if |s| > 2 {
      NamesAreInfo(s[3..], e);
    }
  }

  /** The kind of text a mode's mark holds, told by a mode with that body. */
  function Part(m: Mode): Mode {
    match m
    case Name => Authority
    case Host => Authority
    case Separator => Info
    case Digits => Info
    case Info => Info
    case Query => QueryStart
    case Fragment => FragmentStart
    case _ => m
  }

  /** The mark holds text of the mode's part. */
  ghost predicate Holds(p: Parser) {
    p.mark.Some? && SoFar(Part(p.mode), p.mark.value, p.escape)
  }

  ghost predicate PathOk(s: string, e: nat) {
    s != "" && s[0] == '/' && SoFar(Path, s[1..], e)
  }

  /** The parts saved so far are in the grammar. */
  ghost predicate PartsOk(u: Uri) {
    && SchemeOk(u.scheme) && Clean(Info, u.userinfo) && Clean(Authority, u.host)
    && (u.path == "" || PathOk(u.path, 0))
    && Clean(QueryStart, u.query) && Clean(FragmentStart, u.fragment)
    && -0x8000_0000 <= u.port < 0x8000_0000
  }

  /** What holds of the parser between two characters. */
  ghost predicate Good(p: Parser) {
    p.crashed || p.mode.Error? || p.mode.Outside? ||
    match p.mode
    case Begin => p.uri == NO_URI && p.escape == 0
    case Scheme => p.uri == NO_URI && p.escape == 0 && p.mark.Some? && SchemeOk(p.mark.value)
    case Name => PartsOk(p.uri) && Holds(p)
    case Separator => PartsOk(p.uri) && Holds(p) && p.escape == 0
    case Digits => PartsOk(p.uri) && Holds(p) && p.escape == 0
    case Info => PartsOk(p.uri) && Holds(p)
    case Host => PartsOk(p.uri) && Holds(p)
    case Query => PartsOk(p.uri) && Holds(p)
    case Fragment => PartsOk(p.uri) && Holds(p)
    case Path => PartsOk(p.uri) && (p.mark.Some? ==> PathOk(p.mark.value, p.escape))
    case PortStart => PartsOk(p.uri) && p.escape == 0
    case Port => PartsOk(p.uri) && p.escape == 0 && p.mark.Some?
    case _ => PartsOk(p.uri) && p.escape == 0 && p.mark.None?
  }

  // ---------------------------------------------------------------- one character

  lemma AtoiRange(s: string)
    ensures -0x8000_0000 <= Atoi(s) < 0x8000_0000
  {
  }

  /** A hexadecimal digit of an escape. */
  lemma GoodEscape(p: Parser, c: char)
    requires Good(p) && p.escape > 0
    ensures Good(Feed(p, c))
  {
    if p.mark.Some? {
      if p.mode == Path && PathOk(p.mark.value, p.escape) {
        PathMore(p.mark.value, p.escape, c);
      } else if Holds(p) {
        SoFarMore(Part(p.mode), p.mark.value, p.escape, c);
      }
    }
  }

  lemma PathMore(s: string, e: nat, c: char)
    requires PathOk(s, e)
    ensures e > 0 && Hex(c) ==> PathOk(s + [c], e - 1)
    ensures e == 0 && PathChar(c) ==> PathOk(s + [c], 0)
    ensures e == 0 && c == '%' ==> PathOk(s + [c], 2)
  {
    SoFarMore(Path, s[1..], e, c);
    assert (s + [c])[1..] == s[1..] + [c];
  }

  lemma FirstPercent(m: Mode)
    ensures SoFar(m, "" + ['%'], 2)
  {
    assert "" + ['%'] == ['%'];
  }

  /** The percent sign that starts an escape. */
  lemma GoodPercent(p: Parser)
    requires Good(p) && p.escape == 0 && Escapes(p.mode)
    ensures Good(Feed(p, '%'))
  {
    FirstPercent(Part(Inner(p.mode).mode));
    if p.mark.Some? {
      if p.mode == Path && PathOk(p.mark.value, 0) {
        PathMore(p.mark.value, 0, '%');
      } else if Holds(p) {
        SoFarMore(Part(p.mode), p.mark.value, 0, '%');
      }
    }
  }

  lemma FirstOf(m: Mode, c: char)
    requires Body(m, c) && c != '%'
    ensures SoFar(m, "" + [c], 0)
  {
    assert "" + [c] == [c] && [c][1..] == "";
  }

  lemma GoodScheme(p: Parser, c: char)
    requires Good(p) && p.escape == 0 && !p.crashed && (p.mode.Begin? || p.mode.Scheme? || p.mode.Colon? || p.mode.Slash?)
    ensures Good(Feed(p, c))
  {
    if p.mode.Begin? {
      assert "" + [c] == [c];
    }
  }

  /** A character of the part that is being read. */
  lemma GoodBody(p: Parser, c: char)
    requires Good(p) && p.escape == 0 && !p.crashed && c != '%' && Body(p.mode, c) && p.mode != Separator
    ensures Good(Feed(p, c))
  {
    PartArc(p.mode, c);
    if p.mode.Authority? || p.mode.HostStart? || p.mode.QueryStart? || p.mode.FragmentStart? {
      GoodFirst(p, c);
    } else if p.mode == Path {
      if p.mark.Some? {
        PathMore(p.mark.value, 0, c);
      }
      assert Feed(p, c) == Extend(p, [c]);
    } else {
      GoodMore(p, c);
    }
  }

  lemma PartArc(m: Mode, c: char)
    requires Body(m, c) && c != '%' && m != Separator
    ensures Next(m, c) == if m.Digits? && Digit(c) then Plain(m) else Inner(m)
  {
  }

  lemma GoodFirst(p: Parser, c: char)
    requires Good(p) && p.escape == 0 && !p.crashed && c != '%' && Body(p.mode, c) && Next(p.mode, c) == Inner(p.mode)
    requires p.mode.Authority? || p.mode.HostStart? || p.mode.QueryStart? || p.mode.FragmentStart?
    ensures Good(Feed(p, c))
  {
    FirstOf(Part(Inner(p.mode).mode), c);
    assert Feed(p, c) == p.(mode := Inner(p.mode).mode, mark := Some("" + [c]));
  }

  lemma GoodMore(p: Parser, c: char)
    requires Good(p) && p.escape == 0 && !p.crashed && c != '%' && Body(p.mode, c)
    requires p.mode.Name? || p.mode.Host? || p.mode.Digits? || p.mode.Info? || p.mode.Query? || p.mode.Fragment?
    requires Next(p.mode, c) == if p.mode.Digits? && Digit(c) then Plain(p.mode) else Inner(p.mode)
    ensures Good(Feed(p, c))
  {
    SoFarMore(Part(p.mode), p.mark.value, 0, c);
    assert Feed(p, c) == Extend(p, [c]).(mode := Next(p.mode, c).mode);
  }

  lemma GoodSeparator(p: Parser, c: char)
    requires Good(p) && p.escape == 0 && !p.crashed && c != '%' && Body(p.mode, c) && p.mode == Separator
    ensures Good(Feed(p, c))
  {
    FirstOf(Info, c);
    SoFarMore(Info, p.mark.value, 0, c);
  }

  /** The colon behind a host, or in what may yet be user information. */
  lemma GoodColon(p: Parser)
    requires Good(p) && p.escape == 0 && !p.crashed && (p.mode.Authority? || p.mode.Name? || p.mode.HostStart? || p.mode.Host?)
    ensures Good(Feed(p, ':'))
  {
    var s := if p.mark.Some? then p.mark.value else "";
    assert "" + [':'] == [':'] && [':'][1..] == "";
    if p.mode.Name? || p.mode.Host? {
      SoFarIsClean(Authority, s);
    }
    if p.mode.Name? {
      NamesAreInfo(s, 0);
      SoFarMore(Info, s, 0, ':');
    } else {
      assert SoFar(Info, "" + [':'], 0);
    }
  }

  /** The at sign behind user information. */
  lemma GoodAt(p: Parser)
    requires Good(p) && p.escape == 0 && !p.crashed
    requires p.mode.Authority? || p.mode.Name? || p.mode.Separator? || p.mode.Digits? || p.mode.Info?
    ensures Good(Feed(p, '@'))
  {
    if p.mark.Some? {
      if p.mode.Name? {
        NamesAreInfo(p.mark.value, 0);
      }
      SoFarIsClean(Info, p.mark.value);
    }
  }

  /** The actions that end the authority keep the parts in the grammar. */
  lemma LeavingKeeps(p: Parser)
    requires Good(p) && p.escape == 0 && !p.crashed && !p.mode.Error? && !p.mode.Outside? && Leaving(p.mode).Some?
    ensures var q := Act(Act(p, Leaving(p.mode).value.0), Leaving(p.mode).value.1);
            q.crashed || (PartsOk(q.uri) && (q.mark.Some? ==> q.mark.value == "") && q.mode == p.mode && q.escape == 0)
  {
    if p.mark.Some? {
      AtoiRange(p.mark.value);
      if p.mode.Name? || p.mode.Host? {
        SoFarIsClean(Authority, p.mark.value);
      }
    }
  }

  /** The sign that ends the authority. */
  lemma GoodEnding(p: Parser, c: char)
    requires Good(p) && p.escape == 0 && !p.crashed && !p.mode.Error? && !p.mode.Outside? && Leaving(p.mode).Some?
    requires c == '/' || c == '?' || c == '#'
    ensures Good(Extend(Follow(p, Ending(p.mode, c)), [c]))
  {
    LeavingKeeps(p);
    assert "" + ['/'] == "/" && "/"[1..] == "";
  }

  /** The sign that ends a path or a query. */
  lemma GoodSection(p: Parser, c: char)
    requires Good(p) && p.escape == 0 && !p.crashed && (p.mode.Path? || p.mode.QueryStart? || p.mode.Query?)
    requires c == '?' || c == '#'
    ensures Good(Feed(p, c))
  {
    if p.mode.Path? {
      GoodPathEnd(p, c);
    } else if c == '?' {
      GoodBody(p, c);
    } else {
      GoodQueryEnd(p);
    }
  }

  lemma GoodPathEnd(p: Parser, c: char)
    requires Good(p) && p.escape == 0 && !p.crashed && p.mode.Path? && (c == '?' || c == '#')
    ensures Good(Feed(p, c))
  {
    assert Next(p.mode, c) == Arc(if c == '?' then QueryStart else FragmentStart, SavePath, Nop, Nop);
  }

  lemma GoodQueryEnd(p: Parser)
    requires Good(p) && p.escape == 0 && !p.crashed && (p.mode.QueryStart? || p.mode.Query?)
    ensures Good(Feed(p, '#'))
  {
    if p.mode.Query? {
      SoFarIsClean(QueryStart, p.mark.value);
    }
    assert Next(p.mode, '#') == if p.mode.Query? then Arc(FragmentStart, SaveQuery, Nop, Nop) else Arc(FragmentStart, Mark, SaveQuery, Nop);
  }

  lemma GoodPort(p: Parser, c: char)
    requires Good(p) && p.escape == 0 && !p.crashed && (p.mode.PortStart? || p.mode.Port?) && Digit(c)
    ensures Good(Feed(p, c))
  {
  }

  /** Any other character is refused, or leads out of what is modelled. */
  predicate Known(m: Mode, c: char) {
    || m.Begin? || m.Scheme? || m.Colon? || m.Slash?
    || Body(m, c)
    || (c == ':' && (m.Authority? || m.Name? || m.HostStart? || m.Host?))
    || (c == '@' && (m.Authority? || m.Name? || m.Separator? || m.Digits? || m.Info?))
    || (Leaving(m).Some? && (c == '/' || c == '?' || c == '#'))
    || ((c == '?' || c == '#') && (m.Path? || m.QueryStart? || m.Query?))
    || ((m.PortStart? || m.Port?) && Digit(c))
  }

  lemma UnknownIsRefused(m: Mode, c: char)
    requires !Known(m, c)
    ensures Next(m, c).mode.Error? || Next(m, c).mode.Outside?
  {
  }

  lemma EndingArc(m: Mode, c: char)
    requires Leaving(m).Some? && (c == '/' || c == '?' || c == '#')
    ensures Next(m, c) == Ending(m, c) && c != '%'
  {
  }

  lemma GoodArc(p: Parser, c: char)
    requires Good(p) && p.escape == 0 && !p.crashed && !p.mode.Error? && !p.mode.Outside? && !(c == '%' && Escapes(p.mode))
    ensures Good(Feed(p, c))
  {
    if p.mode.Begin? || p.mode.Scheme? || p.mode.Colon? || p.mode.Slash? {
      GoodScheme(p, c);
    } else if !Known(p.mode, c) {
      UnknownIsRefused(p.mode, c);
    } else if Body(p.mode, c) && p.mode == Separator {
      GoodSeparator(p, c);
    } else if Body(p.mode, c) {
      GoodBody(p, c);
    } else {
      GoodSign(p, c);
    }
  }

  /** A character that is not of the part being read. */
  lemma GoodSign(p: Parser, c: char)
    requires Good(p) && p.escape == 0 && !p.crashed && !p.mode.Error? && !p.mode.Outside?
    requires Known(p.mode, c) && !Body(p.mode, c) && !(p.mode.Begin? || p.mode.Scheme? || p.mode.Colon? || p.mode.Slash?)
    ensures Good(Feed(p, c))
  {
    if c == ':' {
      GoodColon(p);
    } else if c == '@' {
      GoodAt(p);
    } else if Leaving(p.mode).Some? && (c == '/' || c == '?' || c == '#') {
      EndingArc(p.mode, c);
      GoodEnding(p, c);
    } else if c == '?' || c == '#' {
      GoodSection(p, c);
    } else {
      GoodPort(p, c);
    }
  }

  lemma GoodStep(p: Parser, c: char)
    requires Good(p)
    ensures Good(Feed(p, c))
  {
    if p.crashed || p.mode.Error? || p.mode.Outside? {
      LostStays(p, c);
    } else if p.escape > 0 {
      GoodEscape(p, c);
    } else if c == '%' && Escapes(p.mode) {
      GoodPercent(p);
    } else {
      GoodArc(p, c);
    }
  }

  lemma LostStays(p: Parser, c: char)
    requires p.crashed || p.mode.Error? || p.mode.Outside?
    ensures var q := Feed(p, c); q.crashed || q.mode.Error? || q.mode.Outside?
  {
  }

  lemma {:induction false} GoodRun(p: Parser, s: string)
    requires Good(p)
    ensures Good(Run(p, s))
    decreases |s|
  {
    if s != "" {
      GoodStep(p, s[0]);
      GoodRun(Feed(p, s[0]), s[1..]);
    }
  }

  // ---------------------------------------------------------------- whole texts

  lemma EndKeeps(p: Parser)
    requires Good(p) && Ended(p).Accepted?
    ensures PartsOk(Ended(p).uri)
  {
    if Leaving(p.mode).Some? {
      LeavingKeeps(p);
    } else if p.mark.Some? && !p.mode.Path? {
      SoFarIsClean(Part(p.mode), p.mark.value);
    }
  }

  lemma PathIsClean(u: Uri)
    requires PartsOk(u)
    ensures Printable(u)
  {
    if u.path != "" {
      SoFarIsClean(Path, u.path[1..]);
    }
  }

  /** Every part of an accepted URI is in the grammar: scheme, user information, host, path, query, fragment and port. */
  lemma AcceptedIsInGrammar(text: string)
    requires Parsed(text).Accepted?
    ensures Printable(Parsed(text).uri)
  {
    GoodRun(START, text);
    EndKeeps(Run(START, text));
    PathIsClean(Parsed(text).uri);
  }

  /**
   * For every text that is accepted: printing what was parsed and parsing it again gives the same
   * answers exactly when the port did not turn out negative and no port hides in the user information.
   */
  lemma ParsePrintParse(text: string)
    requires Parsed(text).Accepted?
    ensures var u := Parsed(text).uri; RoundTrips(u) <==> u.port >= 0 && !LooksLikePort(u.userinfo)
  {
    AcceptedIsInGrammar(text);
    RoundTripExactly(Parsed(text).uri);
  }
}
