/** Printing a URI and parsing the text again. */
module UriRoundTrip {
  import opened Basics
  import opened Codec
  import opened Uri

  // ---------------------------------------------------------------- reading a piece of text

  /** Reading `s` takes the parser from `p` to `q`. The quantifier keeps Run folded. */
  ghost predicate Goes(p: Parser, s: string, q: Parser) {
    forall k {:trigger Unfold(k)} :: Unfold(k) ==> Run(p, s) == q
  }

  lemma GoesIs(p: Parser, s: string, q: Parser)
    requires Goes(p, s, q)
    ensures Run(p, s) == q
  {
    assert Unfold(0);
  }

  lemma Join(p: Parser, a: string, q: Parser, b: string, r: Parser)
    requires Goes(p, a, q) && Goes(q, b, r)
    ensures Goes(p, a + b, r)
  {
    GoesIs(p, a, q);
    GoesIs(q, b, r);
    RunConcat(p, a, b);
  }

  lemma FeedGoes(p: Parser, c: char)
    ensures Goes(p, [c], Feed(p, c))
  {
    assert Run(p, [c]) == Run(Feed(p, c), [c][1..]);
  }

  lemma StopGoes(p: Parser)
    ensures Goes(p, "", p) && Extend(p, "") == p
  {
    if p.mark.Some? {
      assert p.mark.value + "" == p.mark.value;
    }
  }

  /** One ordinary character. */
  lemma ArcGoes(p: Parser, c: char, arc: Arc)
    requires p.escape == 0 && (c != '%' || !Escapes(p.mode)) && Next(p.mode, c) == arc
    ensures Goes(p, [c], Extend(Follow(p, arc), [c]))
  {
    FeedGoes(p, c);
  }

  /** A character that sets the mark. */
  lemma MarkGoes(p: Parser, c: char, m: Mode)
    requires p.escape == 0 && !p.crashed && c != '%' && Next(p.mode, c) == Arc(m, Mark, Nop, Nop)
    ensures Goes(p, [c], p.(mode := m, mark := Some([c])))
  {
    ArcGoes(p, c, Arc(m, Mark, Nop, Nop));
    assert "" + [c] == [c];
  }

  lemma FollowKeeps(p: Parser, arc: Arc)
    ensures Follow(p, arc).escape == p.escape
  {
  }

  lemma ExtendMore(p: Parser, a: string, b: string)
    ensures Extend(Extend(p, a), b) == Extend(p, a + b)
  {
    if p.mark.Some? {
      assert p.mark.value + a + b == p.mark.value + (a + b);
    }
  }

  /** The three characters of an escape bring the parser to where one character would. */
  lemma EscapeGoes(p: Parser, x: char, y: char)
    requires p.escape == 0 && Escapes(p.mode) && Hex(x) && Hex(y)
    ensures Goes(p, ['%', x, y], Extend(Follow(p, Inner(p.mode)), ['%', x, y]))
  {
    var q := Follow(p, Inner(p.mode));
    FollowKeeps(p, Inner(p.mode));
    var q1 := Extend(q, ['%']).(escape := 2);
    var q2 := Extend(q, ['%', x]).(escape := 1);
    FeedGoes(p, '%');
    FeedGoes(q1, x);
    FeedGoes(q2, y);
    ExtendMore(q, ['%'], [x]);
    ExtendMore(q, ['%', x], [y]);
    assert ['%'] + [x] == ['%', x] && ['%', x] + [y] == ['%', x, y];
    Join(p, ['%'], q1, [x], q2);
    Join(p, ['%', x], q2, [y], Extend(q, ['%', x, y]));
  }

  lemma BodyArc(m: Mode, c: char)
    requires Body(m, c) && !(Digit(c) && (m.Separator? || m.Digits?))
    ensures Next(m, c) == Inner(m) && c != '%'
  {
  }

  lemma DigitArc(m: Mode, c: char)
    requires Digit(c)
    ensures (m.Digits? || m.Port?) ==> Next(m, c) == Plain(m)
    ensures m == Separator ==> Next(m, c) == Arc(Digits, Mark, Nop, Nop)
    ensures m == PortStart ==> Next(m, c) == Arc(Port, Mark, Nop, Nop)
    ensures c != '%'
  {
  }

  /** The arcs for the separators of an authority. */
  lemma SeparatorArc(m: Mode)
    ensures Leaving(m).Some? ==> Next(m, '/') == Arc(Path, Leaving(m).value.0, Leaving(m).value.1, Nop)
    ensures m == Authority ==> Next(m, ':') == Arc(Separator, Mark, SaveHost, Nop)
    ensures m == Name ==> Next(m, ':') == Arc(Separator, SaveHost, Nop, Nop)
    ensures m == HostStart ==> Next(m, ':') == Arc(PortStart, Mark, SaveHost, Nop)
    ensures m == Host ==> Next(m, ':') == Arc(PortStart, SaveHost, Nop, Nop)
    ensures (m.Name? || m.Separator? || m.Digits? || m.Info?) ==> Next(m, '@') == Arc(HostStart, SaveUserinfo, Nop, Nop)
  {
  }

  // ---------------------------------------------------------------- the text of a part

  /** Text of mode `m`: its characters and complete percent escapes. */
  ghost predicate Clean(m: Mode, s: string) {
    if s == "" then true
    else if s[0] == '%' then |s| >= 3 && Hex(s[1]) && Hex(s[2]) && Clean(m, s[3..])
    else Body(m, s[0]) && Clean(m, s[1..])
  }

  /** The length of the first character or escape. */
  function First(s: string): nat
    requires s != ""
  {
    if s[0] == '%' && |s| >= 3 then 3 else 1
  }

  /** Reads one character or escape of the body. */
  lemma BodyGoes(p: Parser, s: string)
    requires s != "" && p.escape == 0 && Clean(p.mode, s) && Escapes(p.mode)
    requires !(Digit(s[0]) && (p.mode.Separator? || p.mode.Digits?))
    ensures Clean(p.mode, s[First(s)..])
    ensures Goes(p, s[..First(s)], Extend(Follow(p, Inner(p.mode)), s[..First(s)]))
  {
    if s[0] == '%' {
      assert s[..3] == ['%', s[1], s[2]];
      EscapeGoes(p, s[1], s[2]);
    } else {
      assert s[..1] == [s[0]];
      BodyArc(p.mode, s[0]);
      ArcGoes(p, s[0], Inner(p.mode));
    }
  }

  /** The modes that keep to themselves on their own text. */
  predicate Steady(m: Mode) {
    m.Name? || m.Host? || m.Path? || m.Query? || m.Fragment?
  }

  lemma {:induction false} Stay(p: Parser, s: string)
    requires Steady(p.mode) && p.escape == 0 && Clean(p.mode, s)
    ensures Goes(p, s, Extend(p, s))
    decreases |s|
  {
    if s == "" {
      StopGoes(p);
    } else {
      var a, b := s[..First(s)], s[First(s)..];
      BodyGoes(p, s);
      assert Follow(p, Inner(p.mode)) == p;
      Stay(Extend(p, a), b);
      ExtendMore(p, a, b);
      assert a + b == s;
      Join(p, a, Extend(p, a), b, Extend(p, s));
    }
  }

  /** The first character of a part sets the mark. */
  lemma Open(p: Parser, s: string)
    requires s != "" && p.escape == 0 && !p.crashed && Clean(p.mode, s)
    requires p.mode.Authority? || p.mode.HostStart? || p.mode.QueryStart? || p.mode.FragmentStart?
    ensures Goes(p, s, p.(mode := Inner(p.mode).mode, mark := Some(s)))
  {
    var a, b := s[..First(s)], s[First(s)..];
    var q := p.(mode := Inner(p.mode).mode, mark := Some(""));
    BodyGoes(p, s);
    assert Follow(p, Inner(p.mode)) == q;
    CleanSame(p.mode, q.mode, b);
    Stay(Extend(q, a), b);
    assert a + b == s && "" + a + b == s;
    Join(p, a, Extend(q, a), b, q.(mark := Some(s)));
  }

  lemma {:induction false} CleanSame(m: Mode, n: Mode, s: string)
    requires Clean(m, s) && n == Inner(m).mode && (m.Authority? || m.HostStart? || m.QueryStart? || m.FragmentStart?)
    ensures Clean(n, s)
    decreases |s|
  {
    if s != "" {
      CleanSame(m, n, if s[0] == '%' then s[3..] else s[1..]);
    }
  }

  // ---------------------------------------------------------------- numbers

  predicate AllDigits(s: string) {
    forall k :: 0 <= k < |s| ==> Digit(s[k])
  }

  lemma {:induction false} NumberMore(s: string, c: char, n: nat)
    requires AllDigits(s) && Digit(c)
    ensures Number(s + [c], n) == 10 * Number(s, n) + (c as int - '0' as int)
    decreases |s|
  {
    if s == "" {
      assert (s + [c])[1..] == "";
    } else {
      assert (s + [c])[1..] == s[1..] + [c];
      NumberMore(s[1..], c, 10 * n + (s[0] as int - '0' as int));
    }
  }

  lemma {:induction false} DecimalReads(n: nat)
    ensures Decimal(n) != "" && AllDigits(Decimal(n)) && Number(Decimal(n), 0) == n
  {
    var c := (n % 10 + '0' as int) as char;
    if n < 10 {
      NumberMore("", c, 0);
    } else {
      DecimalReads(n / 10);
      NumberMore(Decimal(n / 10), c, 0);
    }
  }

  lemma AtoiReads(n: nat)
    requires n < 0x8000_0000
    ensures Decimal(n) != "" && AllDigits(Decimal(n)) && Atoi(Decimal(n)) == n
  {
    DecimalReads(n);
    SmallMod(n, W32.Modulus());
  }

  lemma {:induction false} StayDigits(p: Parser, s: string)
    requires (p.mode.Digits? || p.mode.Port?) && p.escape == 0 && AllDigits(s)
    ensures Goes(p, s, Extend(p, s))
    decreases |s|
  {
    if s == "" {
      StopGoes(p);
    } else {
      DigitArc(p.mode, s[0]);
      ArcGoes(p, s[0], Plain(p.mode));
      assert Follow(p, Plain(p.mode)) == p;
      StayDigits(Extend(p, [s[0]]), s[1..]);
      ExtendMore(p, [s[0]], s[1..]);
      assert [s[0]] + s[1..] == s;
      Join(p, [s[0]], Extend(p, [s[0]]), s[1..], Extend(p, s));
    }
  }

  lemma {:induction false} StayScheme(p: Parser, s: string)
    requires p.mode == Scheme && p.escape == 0 && forall k :: 0 <= k < |s| ==> SchemeChar(s[k])
    ensures Goes(p, s, Extend(p, s))
    decreases |s|
  {
    if s == "" {
      StopGoes(p);
    } else {
      ArcGoes(p, s[0], Plain(Scheme));
      assert Follow(p, Plain(Scheme)) == p;
      StayScheme(Extend(p, [s[0]]), s[1..]);
      ExtendMore(p, [s[0]], s[1..]);
      assert [s[0]] + s[1..] == s;
      Join(p, [s[0]], Extend(p, [s[0]]), s[1..], Extend(p, s));
    }
  }

  // ---------------------------------------------------------------- scheme, host and port

  ghost predicate SchemeOk(s: string) {
    s != "" && Alpha(s[0]) && forall k :: 0 <= k < |s| ==> SchemeChar(s[k])
  }

  lemma SchemeGoes(scheme: string)
    requires SchemeOk(scheme)
    ensures Goes(START, scheme + "://", Parser(Authority, 0, None, NO_URI.(scheme := scheme), false))
  {
    var a, b := [scheme[0]], scheme[1..];
    var p := Parser(Scheme, 0, Some(a), NO_URI, false);
    var q := Parser(Colon, 0, None, NO_URI.(scheme := scheme), false);
    MarkGoes(START, scheme[0], Scheme);
    StayScheme(p, b);
    assert a + b == scheme;
    Join(START, a, p, b, p.(mark := Some(scheme)));
    ArcGoes(p.(mark := Some(scheme)), ':', Arc(Colon, SaveScheme, Nop, Nop));
    Join(START, scheme, p.(mark := Some(scheme)), ":", q);
    ArcGoes(q, '/', Plain(Slash));
    Join(START, scheme + ":", q, "/", q.(mode := Slash));
    ArcGoes(q.(mode := Slash), '/', Plain(Authority));
    Join(START, scheme + ":" + "/", q.(mode := Slash), "/", q.(mode := Authority));
    assert scheme + ":" + "/" + "/" == scheme + "://";
  }

  /** A parser about to read the host. */
  ghost predicate AtHost(p: Parser) {
    (p.mode.Authority? || p.mode.HostStart?) && p.escape == 0 && p.mark == None && !p.crashed
  }

  lemma HostGoes(p: Parser, host: string) returns (q: Parser)
    requires AtHost(p) && Clean(p.mode, host)
    ensures Goes(p, host, q)
    ensures q == if host == "" then p else p.(mode := if p.mode.Authority? then Name else Host, mark := Some(host))
  {
    q := p;
    if host == "" {
      StopGoes(p);
    } else {
      Open(p, host);
      q := p.(mode := Inner(p.mode).mode, mark := Some(host));
    }
  }

  lemma HostSlash(p: Parser, host: string)
    requires AtHost(p) && Clean(p.mode, host)
    ensures Goes(p, host + "/", Parser(Path, 0, Some("/"), p.uri.(host := host), false))
  {
    var q := HostGoes(p, host);
    SeparatorArc(q.mode);
    ArcGoes(q, '/', Next(q.mode, '/'));
    assert "" + "/" == "/";
    Join(p, host, q, "/", Parser(Path, 0, Some("/"), p.uri.(host := host), false));
  }

  lemma HostColon(p: Parser, host: string)
    requires AtHost(p) && Clean(p.mode, host)
    ensures Goes(p, host + ":", Parser(if p.mode.Authority? then Separator else PortStart, 0, Some(host + ":"), p.uri.(host := host), false))
  {
    var q := HostGoes(p, host);
    SeparatorArc(q.mode);
    ArcGoes(q, ':', Next(q.mode, ':'));
    Join(p, host, q, ":", Parser(if p.mode.Authority? then Separator else PortStart, 0, Some(host + ":"), p.uri.(host := host), false));
  }

  lemma PortGoes(p: Parser, s: string)
    requires (p.mode.Separator? || p.mode.PortStart?) && p.escape == 0 && !p.crashed && s != "" && AllDigits(s)
    ensures Goes(p, s, p.(mode := if p.mode == Separator then Digits else Port, mark := Some(s)))
  {
    var a, b := [s[0]], s[1..];
    var q := p.(mode := if p.mode == Separator then Digits else Port, mark := Some(a));
    DigitArc(p.mode, s[0]);
    MarkGoes(p, s[0], q.mode);
    StayDigits(q, b);
    assert a + b == s;
    Join(p, a, q, b, q.(mark := Some(s)));
  }

  lemma PortSlash(p: Parser, port: nat)
    requires (p.mode.Separator? || p.mode.PortStart?) && p.escape == 0 && !p.crashed && port < 0x8000_0000
    ensures Goes(p, Decimal(port) + "/", Parser(Path, 0, Some("/"), p.uri.(port := port), false))
  {
    var s := Decimal(port);
    AtoiReads(port);
    PortGoes(p, s);
    var q := p.(mode := if p.mode == Separator then Digits else Port, mark := Some(s));
    SeparatorArc(q.mode);
    ArcGoes(q, '/', Arc(Path, SavePort, Mark, Nop));
    assert "" + "/" == "/";
    Join(p, s, q, "/", Parser(Path, 0, Some("/"), p.uri.(port := port), false));
  }

  // ---------------------------------------------------------------- user information

  function FirstColon(s: string): nat {
    if s == "" || s[0] == ':' then 0 else 1 + FirstColon(s[1..])
  }

  /** The first colon is followed by a digit, so that it looks like a port. */
  predicate LooksLikePort(s: string) {
    FirstColon(s) + 1 < |s| && Digit(s[FirstColon(s) + 1])
  }

  /** What the parser keeps of user information. */
  function Kept(s: string): string {
    if LooksLikePort(s) then s[FirstColon(s) + 1..] else s
  }

  lemma {:induction false} CleanSplit(s: string)
    requires Clean(Info, s)
    ensures FirstColon(s) <= |s| && Clean(Authority, s[..FirstColon(s)])
    ensures FirstColon(s) < |s| ==> s[FirstColon(s)] == ':' && Clean(Info, s[FirstColon(s) + 1..])
    decreases |s|
  {
    if s != "" && s[0] != ':' {
      var k := FirstColon(s);
      if s[0] == '%' {
        CleanSplit(s[3..]);
        assert s[1..][1..][1..] == s[3..];
        assert FirstColon(s[1..]) == 1 + FirstColon(s[1..][1..]);
        assert FirstColon(s[1..][1..]) == 1 + FirstColon(s[3..]);
        assert s[..k][3..] == s[3..][..k - 3];
        assert k < |s| ==> s[3..][k - 3 + 1..] == s[k + 1..];
      } else {
        CleanSplit(s[1..]);
        assert s[..k][1..] == s[1..][..k - 1];
        assert k < |s| ==> s[1..][k - 1 + 1..] == s[k + 1..];
      }
    }
  }

  lemma {:induction false} CleanAfterColon(m: Mode, s: string)
    requires m.Separator? || m.Digits? || m.Info?
    ensures Clean(m, s) == Clean(Info, s)
    decreases |s|
  {
    if s != "" && (s[0] != '%' || |s| >= 3) {
      CleanAfterColon(m, if s[0] == '%' then s[3..] else s[1..]);
    }
  }

  predicate ColonMode(m: Mode) {
    m.Separator? || m.Digits? || m.Info?
  }

  /** After a colon: the parser wanders between its three modes and keeps the mark. */
  lemma {:induction false} Wander(p: Parser, s: string) returns (m: Mode)
    requires p.escape == 0 && Clean(Info, s) && ColonMode(p.mode)
    requires p.mode.Separator? ==> s == "" || !Digit(s[0])
    ensures Goes(p, s, Extend(p, s).(mode := m)) && ColonMode(m)
    ensures p.mode.Info? || (p.mode.Separator? && s != "") ==> m.Info?
    decreases |s|
  {
    m := p.mode;
    if s == "" {
      StopGoes(p);
    } else {
      var a, b := s[..First(s)], s[First(s)..];
      var q := Extend(p, a).(mode := if Digit(s[0]) && p.mode.Digits? then Digits else Info);
      CleanAfterColon(p.mode, s);
      if Digit(s[0]) && p.mode.Digits? {
        DigitArc(p.mode, s[0]);
        ArcGoes(p, s[0], Plain(Digits));
        assert a == [s[0]];
      } else {
        BodyGoes(p, s);
      }
      assert Goes(p, a, q);
      CleanAfterColon(p.mode, b);
      m := Wander(q, b);
      ExtendMore(p, a, b);
      assert a + b == s;
      Join(p, a, q, b, Extend(p, s).(mode := m));
    }
  }

  /** An at sign: the text since the mark is the user information. */
  lemma AtGoes(q: Parser, s: string)
    requires (q.mode.Name? || ColonMode(q.mode)) && q.escape == 0 && !q.crashed && q.mark == Some(s)
    ensures Goes(q, "@", Parser(HostStart, 0, None, q.uri.(userinfo := s), false))
  {
    SeparatorArc(q.mode);
    ArcGoes(q, '@', Arc(HostStart, SaveUserinfo, Nop, Nop));
  }

  /** User information behind its first colon. */
  lemma AfterColonGoes(p: Parser, a: string, b: string)
    requires p.mode == Separator && p.escape == 0 && !p.crashed && p.mark == Some(a) && Clean(Info, b)
    ensures Goes(p, b + "@", Parser(HostStart, 0, None, p.uri.(userinfo := if b != "" && Digit(b[0]) then b else a + b), false))
  {
    if b != "" && Digit(b[0]) {
      var q := p.(mode := Digits, mark := Some([b[0]]));
      DigitArc(p.mode, b[0]);
      MarkGoes(p, b[0], Digits);
      var m := Wander(q, b[1..]);
      assert [b[0]] + b[1..] == b;
      Join(p, [b[0]], q, b[1..], q.(mode := m, mark := Some(b)));
      AtGoes(q.(mode := m, mark := Some(b)), b);
      Join(p, b, q.(mode := m, mark := Some(b)), "@", Parser(HostStart, 0, None, p.uri.(userinfo := b), false));
    } else {
      var m := Wander(p, b);
      AtGoes(Extend(p, b).(mode := m), a + b);
      Join(p, b, Extend(p, b).(mode := m), "@", Parser(HostStart, 0, None, p.uri.(userinfo := a + b), false));
    }
  }

  /** User information and its at sign; its first colon has some host saved for the time being. */
  lemma InfoGoes(p: Parser, info: string) returns (q: Parser)
    requires p.mode == Authority && AtHost(p) && info != "" && Clean(Info, info)
    ensures Goes(p, info + "@", q) && AtHost(q) && q.mode == HostStart
    ensures q.uri == p.uri.(userinfo := Kept(info), host := q.uri.host)
  {
    var k := FirstColon(info);
    CleanSplit(info);
    if k == |info| {
      assert info[..k] == info;
      var r := HostGoes(p, info);
      AtGoes(r, info);
      q := Parser(HostStart, 0, None, p.uri.(userinfo := info), false);
      Join(p, info, r, "@", q);
    } else {
      q := InfoWithColon(p, info[..k], info[k + 1..]);
      assert info[..k] + ":" + info[k + 1..] == info;
    }
  }

  lemma InfoWithColon(p: Parser, a: string, b: string) returns (q: Parser)
    requires p.mode == Authority && AtHost(p) && Clean(Authority, a) && Clean(Info, b)
    ensures Goes(p, a + ":" + b + "@", q)
    ensures q == Parser(HostStart, 0, None, p.uri.(host := a, userinfo := if b != "" && Digit(b[0]) then b else a + ":" + b), false)
  {
    HostColon(p, a);
    var r := Parser(Separator, 0, Some(a + ":"), p.uri.(host := a), false);
    AfterColonGoes(r, a + ":", b);
    q := Parser(HostStart, 0, None, p.uri.(host := a, userinfo := if b != "" && Digit(b[0]) then b else a + ":" + b), false);
    Join(p, a + ":", r, b + "@", q);
    assert a + ":" + (b + "@") == a + ":" + b + "@";
  }

  // ---------------------------------------------------------------- path, query and fragment

  /** Reading `s` to the end of the text gives `u`. */
  ghost predicate Gives(p: Parser, s: string, u: Uri) {
    exists q :: Goes(p, s, q) && Ended(q) == Accepted(u)
  }

  lemma GivesAfter(p: Parser, a: string, q: Parser, b: string, u: Uri)
    requires Goes(p, a, q) && Gives(q, b, u)
    ensures Gives(p, a + b, u)
  {
    var r :| Goes(q, b, r) && Ended(r) == Accepted(u);
    Join(p, a, q, b, r);
  }

  /** The text ends behind the path, the query or the fragment. */
  lemma EndGives(q: Parser, s: string)
    requires (q.mode.Path? || q.mode.Query? || q.mode.Fragment?) && q.escape == 0 && !q.crashed && q.mark == Some(s)
    ensures Gives(q, "", Saved(q, s))
  {
    StopGoes(q);
  }

  /** The URI once the part that `q` is reading turns out to be `s`. */
  function Saved(q: Parser, s: string): Uri {
    if q.mode.Path? then q.uri.(path := s) else if q.mode.Query? then q.uri.(query := s) else q.uri.(fragment := s)
  }

  /** A '#' ends the path or the query. */
  lemma HashGoes(q: Parser, s: string)
    requires (q.mode.Path? || q.mode.Query?) && q.escape == 0 && !q.crashed && q.mark == Some(s)
    ensures Goes(q, "#", Parser(FragmentStart, 0, None, Saved(q, s), false))
  {
    ArcGoes(q, '#', Arc(FragmentStart, if q.mode.Path? then SavePath else SaveQuery, Nop, Nop));
  }

  lemma FragmentGives(p: Parser, s: string)
    requires p.mode == FragmentStart && p.escape == 0 && !p.crashed && s != "" && Clean(FragmentStart, s)
    ensures Gives(p, s, p.uri.(fragment := s))
  {
    Open(p, s);
    var q := p.(mode := Fragment, mark := Some(s));
    EndGives(q, s);
    GivesAfter(p, s, q, "", p.uri.(fragment := s));
    assert s + "" == s;
  }

  /** The path or the query is read; an optional fragment follows. */
  lemma FragmentNext(q: Parser, s: string, fragment: string)
    requires (q.mode.Path? || q.mode.Query?) && q.escape == 0 && !q.crashed && q.mark == Some(s)
    requires Clean(FragmentStart, fragment) && q.uri.fragment == ""
    ensures Gives(q, Optional('#', fragment), Saved(q, s).(fragment := fragment))
  {
    if fragment == "" {
      EndGives(q, s);
      assert Saved(q, s).(fragment := "") == Saved(q, s);
    } else {
      HashGoes(q, s);
      var r := Parser(FragmentStart, 0, None, Saved(q, s), false);
      FragmentGives(r, fragment);
      GivesAfter(q, "#", r, fragment, r.uri.(fragment := fragment));
    }
  }

  lemma QueryGives(p: Parser, query: string, fragment: string)
    requires p.mode == QueryStart && p.escape == 0 && !p.crashed && p.uri.fragment == ""
    requires query != "" && Clean(QueryStart, query) && Clean(FragmentStart, fragment)
    ensures Gives(p, query + Optional('#', fragment), p.uri.(query := query, fragment := fragment))
  {
    Open(p, query);
    var q := p.(mode := Query, mark := Some(query));
    FragmentNext(q, query, fragment);
    GivesAfter(p, query, q, Optional('#', fragment), p.uri.(query := query, fragment := fragment));
  }

  /** The path is read and a query follows. */
  lemma PathQueryGives(q: Parser, path: string, query: string, fragment: string)
    requires q.mode == Path && q.escape == 0 && !q.crashed && q.mark == Some(path) && q.uri.fragment == ""
    requires query != "" && Clean(QueryStart, query) && Clean(FragmentStart, fragment)
    ensures Gives(q, Optional('?', query) + Optional('#', fragment), q.uri.(path := path, query := query, fragment := fragment))
  {
    var r := Parser(QueryStart, 0, None, q.uri.(path := path), false);
    ArcGoes(q, '?', Arc(QueryStart, SavePath, Nop, Nop));
    QueryGives(r, query, fragment);
    GivesAfter(q, "?", r, query + Optional('#', fragment), r.uri.(query := query, fragment := fragment));
    Assoc("?", query, Optional('#', fragment));
  }

  /** The path is read; an optional query and fragment follow. */
  lemma PathEndGives(q: Parser, path: string, query: string, fragment: string)
    requires q.mode == Path && q.escape == 0 && !q.crashed && q.mark == Some(path)
    requires Clean(QueryStart, query) && Clean(FragmentStart, fragment) && q.uri.query == "" && q.uri.fragment == ""
    ensures Gives(q, Optional('?', query) + Optional('#', fragment), q.uri.(path := path, query := query, fragment := fragment))
  {
    if query != "" {
      PathQueryGives(q, path, query, fragment);
    } else {
      FragmentNext(q, path, fragment);
      assert q.uri.(path := path, query := query, fragment := fragment) == Saved(q, path).(fragment := fragment);
      assert Optional('?', query) + Optional('#', fragment) == Optional('#', fragment);
    }
  }

  // ---------------------------------------------------------------- the whole text

  /** Every part is in the grammar; the port is any 32-bit integer. */
  ghost predicate Printable(u: Uri) {
    && SchemeOk(u.scheme) && Clean(Info, u.userinfo) && Clean(Authority, u.host)
    && (u.path == "" || (u.path[0] == '/' && Clean(Path, u.path[1..])))
    && Clean(QueryStart, u.query) && Clean(FragmentStart, u.fragment)
    && -0x8000_0000 <= u.port < 0x8000_0000
  }

  /** What comes back: the default port and the empty path are normalised. */
  function Reparsed(u: Uri): Uri {
    u.(userinfo := Kept(u.userinfo), path := GetPath(u), port := if IsDefaultPort(u) then 0 else u.port)
  }

  lemma {:induction false} CleanHost(s: string)
    requires Clean(Authority, s)
    ensures Clean(HostStart, s)
    decreases |s|
  {
    if s != "" {
      CleanHost(if s[0] == '%' then s[3..] else s[1..]);
    }
  }

  /** The parser's URI once path, query and fragment of `u` are read. */
  function WithRest(v: Uri, u: Uri): Uri {
    v.(path := GetPath(u), query := u.query, fragment := u.fragment)
  }

  /** What follows the slash of the path. */
  function AfterSlash(u: Uri): string {
    GetPath(u)[1..] + (Optional('?', u.query) + Optional('#', u.fragment))
  }

  lemma PathSplit(u: Uri)
    requires Printable(u)
    ensures FromPath(u) == "/" + AfterSlash(u)
    ensures GetPath(u) == "/" + GetPath(u)[1..] && Clean(Path, GetPath(u)[1..])
  {
    assert GetPath(u) == "/" + GetPath(u)[1..];
  }

  lemma PathGives(p: Parser, u: Uri)
    requires p.mode == Path && p.escape == 0 && !p.crashed && p.mark == Some("/") && p.uri.query == "" && p.uri.fragment == ""
    requires Printable(u)
    ensures Gives(p, AfterSlash(u), WithRest(p.uri, u))
  {
    var body := GetPath(u)[1..];
    PathSplit(u);
    Stay(p, body);
    var q := p.(mark := Some(GetPath(u)));
    PathEndGives(q, GetPath(u), u.query, u.fragment);
    GivesAfter(p, body, q, Optional('?', u.query) + Optional('#', u.fragment), WithRest(p.uri, u));
  }

  lemma Assoc(a: string, b: string, c: string)
    ensures a + (b + c) == a + b + c
  {
  }

  lemma HostGives(p: Parser, u: Uri)
    requires AtHost(p) && p.uri.query == "" && p.uri.fragment == "" && p.uri.port == 0
    requires Printable(u) && u.port >= 0
    ensures Gives(p, u.host + (PortPart(u) + FromPath(u)),
              WithRest(p.uri.(host := u.host, port := if IsDefaultPort(u) then 0 else u.port), u))
  {
    CleanHost(u.host);
    PathSplit(u);
    var v := p.uri.(host := u.host);
    if IsDefaultPort(u) {
      HostSlash(p, u.host);
      PathGives(Parser(Path, 0, Some("/"), v, false), u);
      GivesAfter(p, u.host + "/", Parser(Path, 0, Some("/"), v, false), AfterSlash(u), WithRest(v, u));
      Assoc(u.host, "/", AfterSlash(u));
      assert PortPart(u) + FromPath(u) == FromPath(u);
    } else {
      HostColon(p, u.host);
      var q := Parser(if p.mode.Authority? then Separator else PortStart, 0, Some(u.host + ":"), v, false);
      PortGives(q, u);
      GivesAfter(p, u.host + ":", q, Decimal(u.port) + FromPath(u), WithRest(v.(port := u.port), u));
      Assoc(u.host, ":", Decimal(u.port) + FromPath(u));
      Assoc(":", Decimal(u.port), FromPath(u));
    }
  }

  lemma PortGives(p: Parser, u: Uri)
    requires (p.mode.Separator? || p.mode.PortStart?) && p.escape == 0 && !p.crashed && p.uri.query == "" && p.uri.fragment == ""
    requires Printable(u) && u.port >= 0
    ensures Gives(p, Decimal(u.port) + FromPath(u), WithRest(p.uri.(port := u.port), u))
  {
    PathSplit(u);
    PortSlash(p, u.port);
    var q := Parser(Path, 0, Some("/"), p.uri.(port := u.port), false);
    PathGives(q, u);
    GivesAfter(p, Decimal(u.port) + "/", q, AfterSlash(u), WithRest(q.uri, u));
    Assoc(Decimal(u.port), "/", AfterSlash(u));
  }

  lemma GivesParsed(text: string, u: Uri)
    requires Gives(START, text, u)
    ensures Parsed(text) == Accepted(u)
  {
    var q :| Goes(START, text, q) && Ended(q) == Accepted(u);
    GoesIs(START, text, q);
  }

  /** Printing and parsing gives back the URI in normal form. */
  lemma Reparse(u: Uri)
    requires Printable(u) && u.port >= 0
    ensures Parsed(ToString(u)) == Accepted(Reparsed(u))
  {
    var p := Parser(Authority, 0, None, NO_URI.(scheme := u.scheme), false);
    var rest := u.host + (PortPart(u) + FromPath(u));
    SchemeGoes(u.scheme);
    if u.userinfo == "" {
      HostGives(p, u);
      assert InfoPart(u) + rest == rest;
    } else {
      var q := InfoGoes(p, u.userinfo);
      HostGives(q, u);
      GivesAfter(p, InfoPart(u), q, rest, Reparsed(u));
    }
    GivesAfter(START, u.scheme + "://", p, InfoPart(u) + rest, Reparsed(u));
    GivesParsed(ToString(u), Reparsed(u));
  }

  /** Both answer every getter alike. */
  predicate SameGetters(u: Uri, v: Uri) {
    && u.scheme == v.scheme && u.userinfo == v.userinfo && u.host == v.host && GetPath(u) == GetPath(v)
    && u.query == v.query && u.fragment == v.fragment && GetPort(u) == GetPort(v)
  }

  predicate RoundTrips(u: Uri) {
    var r := Parsed(ToString(u));
    r.Accepted? && SameGetters(u, r.uri)
  }

  // ---------------------------------------------------------------- texts that do not come back

  ghost predicate Refuses(p: Parser, s: string) {
    exists q :: Goes(p, s, q) && Ended(q) == Refused
  }

  lemma RefusesAfter(p: Parser, a: string, q: Parser, b: string)
    requires Goes(p, a, q) && Refuses(q, b)
    ensures Refuses(p, a + b)
  {
    var r :| Goes(q, b, r) && Ended(r) == Refused;
    Join(p, a, q, b, r);
  }

  lemma {:induction false} ErrorRefuses(p: Parser, s: string)
    requires p.mode == Error && p.escape == 0 && !p.crashed
    ensures Refuses(p, s)
    decreases |s|
  {
    if s == "" {
      StopGoes(p);
      assert Ended(p) == Refused;
    } else {
      ArcGoes(p, s[0], Plain(Error));
      ErrorRefuses(Extend(p, [s[0]]), s[1..]);
      RefusesAfter(p, [s[0]], Extend(p, [s[0]]), s[1..]);
      assert [s[0]] + s[1..] == s;
    }
  }

  lemma {:induction false} DigitsClean(s: string)
    requires AllDigits(s)
    ensures Clean(Info, s)
    decreases |s|
  {
    if s != "" {
      DigitsClean(s[1..]);
    }
  }

  /** After a colon, a minus sign makes the port unreadable. */
  lemma MinusRefuses(p: Parser, digits: string, rest: string)
    requires (p.mode.Separator? || p.mode.PortStart?) && p.escape == 0 && !p.crashed && AllDigits(digits)
    ensures Refuses(p, "-" + digits + ("/" + rest))
  {
    if p.mode.PortStart? {
      ArcGoes(p, '-', Plain(Error));
      ErrorRefuses(Extend(p.(mode := Error), "-"), digits + ("/" + rest));
      RefusesAfter(p, "-", Extend(p.(mode := Error), "-"), digits + ("/" + rest));
      Assoc("-", digits, "/" + rest);
    } else {
      DigitsClean(digits);
      assert ("-" + digits)[1..] == digits;
      var m := Wander(p, "-" + digits);
      var q := Extend(p, "-" + digits).(mode := Info);
      ArcGoes(q, '/', Plain(Error));
      ErrorRefuses(Extend(q.(mode := Error), "/"), rest);
      RefusesAfter(q, "/", Extend(q.(mode := Error), "/"), rest);
      RefusesAfter(p, "-" + digits, q, "/" + rest);
    }
  }

  lemma NegativePortText(u: Uri)
    requires u.port < 0
    ensures u.host + (PortPart(u) + FromPath(u)) == u.host + ":" + ("-" + Decimal(-u.port) + FromPath(u))
  {
    Assoc(u.host, ":", "-" + Decimal(-u.port) + FromPath(u));
    Assoc(":", "-" + Decimal(-u.port), FromPath(u));
  }

  lemma HostMinusRefuses(p: Parser, host: string, digits: string, rest: string)
    requires AtHost(p) && Clean(Authority, host) && AllDigits(digits)
    ensures Refuses(p, host + ":" + ("-" + digits + ("/" + rest)))
  {
    CleanHost(host);
    HostColon(p, host);
    var q := Parser(if p.mode.Authority? then Separator else PortStart, 0, Some(host + ":"), p.uri.(host := host), false);
    MinusRefuses(q, digits, rest);
    RefusesAfter(p, host + ":", q, "-" + digits + ("/" + rest));
  }

  lemma HostRefuses(p: Parser, u: Uri)
    requires AtHost(p) && Printable(u) && u.port < 0
    ensures Refuses(p, u.host + (PortPart(u) + FromPath(u)))
  {
    PathSplit(u);
    DecimalReads(-u.port);
    NegativePortText(u);
    HostMinusRefuses(p, u.host, Decimal(-u.port), AfterSlash(u));
  }

  lemma NegativePortRefused(u: Uri)
    requires Printable(u) && u.port < 0
    ensures Parsed(ToString(u)) == Refused
  {
    var p := Parser(Authority, 0, None, NO_URI.(scheme := u.scheme), false);
    var rest := u.host + (PortPart(u) + FromPath(u));
    SchemeGoes(u.scheme);
    if u.userinfo == "" {
      HostRefuses(p, u);
      assert InfoPart(u) + rest == rest;
    } else {
      var q := InfoGoes(p, u.userinfo);
      HostRefuses(q, u);
      RefusesAfter(p, InfoPart(u), q, rest);
    }
    RefusesAfter(START, u.scheme + "://", p, InfoPart(u) + rest);
    var q :| Goes(START, ToString(u), q) && Ended(q) == Refused;
    GoesIs(START, ToString(u), q);
  }

  /**
   * A URI whose parts are in the grammar survives printing and parsing exactly when its port is
   * not negative and the first colon of its user information is not followed by a digit.
   */
  lemma RoundTripExactly(u: Uri)
    requires Printable(u)
    ensures RoundTrips(u) <==> u.port >= 0 && !LooksLikePort(u.userinfo)
  {
    if u.port < 0 {
      NegativePortRefused(u);
    } else {
      Reparse(u);
      assert LooksLikePort(u.userinfo) ==> |Kept(u.userinfo)| < |u.userinfo|;
    }
  }

  /** User information without a colon, as in the common case. */
  lemma {:induction false} NoColonNoPort(s: string)
    requires ':' !in s
    ensures !LooksLikePort(s)
  {
    FirstColonIs(s);
  }

  lemma {:induction false} FirstColonIs(s: string)
    ensures FirstColon(s) <= |s|
    ensures FirstColon(s) < |s| ==> s[FirstColon(s)] == ':'
    decreases |s|
  {
    if s != "" && s[0] != ':' {
      FirstColonIs(s[1..]);
    }
  }

  /** An empty port at the end of the text saves a path from a null mark. */
  lemma EmptyPortCrashes(scheme: string, host: string)
    requires SchemeOk(scheme) && Clean(Authority, host)
    ensures Parsed(scheme + "://" + (host + ":")) == Crashed
  {
    var p := Parser(Authority, 0, None, NO_URI.(scheme := scheme), false);
    SchemeGoes(scheme);
    HostColon(p, host);
    var q := Parser(Separator, 0, Some(host + ":"), p.uri.(host := host), false);
    Join(START, scheme + "://", p, host + ":", q);
    GoesIs(START, scheme + "://" + (host + ":"), q);
  }

  /** So does one before a path. */
  lemma EmptyPortBeforePathCrashes(scheme: string, host: string)
    requires SchemeOk(scheme) && Clean(Authority, host)
    ensures Parsed(scheme + "://" + (host + ":" + "/")) == Crashed
  {
    var p := Parser(Authority, 0, None, NO_URI.(scheme := scheme), false);
    SchemeGoes(scheme);
    HostColon(p, host);
    var q := Parser(Separator, 0, Some(host + ":"), p.uri.(host := host), false);
    var r := Parser(Path, 0, None, q.uri, false);
    SeparatorArc(Separator);
    ArcGoes(q, '/', Arc(Path, Mark, SavePort, Nop));
    Join(p, host + ":", q, "/", r);
    Join(START, scheme + "://", p, host + ":" + "/", r);
    GoesIs(START, scheme + "://" + (host + ":" + "/"), r);
  }

  /** h://a:1@b comes back with user information "1". */
  lemma ColonDigitLost()
    ensures var u := Uri("h", "a:1", "b", "", "", "", 0);
            Printable(u) && Parsed(ToString(u)) == Accepted(u.(userinfo := "1", path := "/")) && !RoundTrips(u)
  {
    var u := Uri("h", "a:1", "b", "", "", "", 0);
    assert "a:1"[1..] == ":1" && ":1"[1..] == "1" && "1"[1..] == "" && "b"[1..] == "";
    assert Clean(Info, "1") && Clean(Info, ":1") && Clean(Info, "a:1") && Clean(Authority, "b");
    assert FirstColon(":1") == 0 && FirstColon("a:1") == 1 && "a:1"[2..] == "1";
    Reparse(u);
  }
}
