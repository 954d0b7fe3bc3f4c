/**
 * The texts that CreateUri accepts, and what it makes of them: exactly those of the grammar of
 * src/HTTP/uri.rl with an authority, a registered name and a port that is not empty.
 */
module UriLanguage {
  import opened Basics
  import opened Codec
  import opened Uri
  import opened UriRoundTrip
  import opened UriGrammar

  /** The parts of a text; an absent part is not an empty one. */
  datatype Parts = Parts(
    scheme: string, info: Option<string>, host: string, port: Option<string>,
    path: string, query: Option<string>, fragment: Option<string>)

  function InfoText(info: Option<string>): string {
    if info.Some? then info.value + "@" else ""
  }

  function PortText(port: Option<string>): string {
    if port.Some? then ":" + port.value else ""
  }

  function Signed(sign: string, s: Option<string>): string {
    if s.Some? then sign + s.value else ""
  }

  function Or(s: Option<string>): string {
    if s.Some? then s.value else ""
  }

  function TextOf(g: Parts): string {
    g.scheme + "://" + InfoText(g.info) + g.host + PortText(g.port) + g.path + Signed("?", g.query) + Signed("#", g.fragment)
  }

  /** Every part is in the grammar; a port has at least one digit. */
  ghost predicate Grammar(g: Parts) {
    && SchemeOk(g.scheme) && Clean(Authority, g.host)
    && (g.info.Some? ==> Clean(Info, g.info.value))
    && (g.port.Some? ==> g.port.value != "" && AllDigits(g.port.value))
    && (g.path == "" || (g.path[0] == '/' && Clean(Path, g.path[1..])))
    && (g.query.Some? ==> Clean(QueryStart, g.query.value))
    && (g.fragment.Some? ==> Clean(FragmentStart, g.fragment.value))
  }

  /** What the parts mean; user information loses what stands before a port-like piece. */
  function MeaningOf(g: Parts): Uri {
    Uri(g.scheme, if g.info.Some? then Kept(g.info.value) else "", g.host, g.path, Or(g.query), Or(g.fragment),
        if g.port.Some? then Atoi(g.port.value) else 0)
  }

  // ---------------------------------------------------------------- texts of the grammar are accepted

  /** The parser once the actions that end the authority are done. */
  function Left(p: Parser): Parser
    requires Leaving(p.mode).Some?
  {
    Act(Act(p, Leaving(p.mode).value.0), Leaving(p.mode).value.1)
  }

  /** The authority is read; leaving it gives `v`. */
  ghost predicate AuthorityRead(q: Parser, v: Uri) {
    && q.escape == 0 && !q.crashed && Leaving(q.mode).Some?
    && Left(q) == q.(mark := Some(""), uri := v)
  }

  lemma HostRead(p: Parser, host: string) returns (q: Parser)
    requires AtHost(p) && Clean(p.mode, host)
    ensures Goes(p, host, q) && AuthorityRead(q, p.uri.(host := host))
  {
    q := HostGoes(p, host);
  }

  lemma PortRead(p: Parser, host: string, port: string) returns (q: Parser)
    requires AtHost(p) && Clean(p.mode, host) && port != "" && AllDigits(port)
    ensures Goes(p, host + ":" + port, q) && AuthorityRead(q, p.uri.(host := host, port := Atoi(port)))
  {
    HostColon(p, host);
    var r := Parser(if p.mode.Authority? then Separator else PortStart, 0, Some(host + ":"), p.uri.(host := host), false);
    PortGoes(r, port);
    q := r.(mode := if r.mode == Separator then Digits else Port, mark := Some(port));
    Join(p, host + ":", r, port, q);
  }

  lemma FragmentTail(p: Parser, s: string)
    requires p.mode == FragmentStart && p.escape == 0 && !p.crashed && Clean(FragmentStart, s) && p.uri.fragment == ""
    ensures Gives(p, s, p.uri.(fragment := s))
  {
    if s == "" {
      StopGoes(p);
      assert Ended(p) == Accepted(p.uri.(fragment := ""));
    } else {
      FragmentGives(p, s);
    }
  }

  /** An optional fragment behind a part whose end, or number sign, leads to `v`. */
  lemma FragmentOption(q: Parser, v: Uri, fragment: Option<string>)
    requires v.fragment == "" && (fragment.Some? ==> Clean(FragmentStart, fragment.value))
    requires Ended(q) == Accepted(v) && Goes(q, "#", Parser(FragmentStart, 0, None, v, false))
    ensures Gives(q, Signed("#", fragment), v.(fragment := Or(fragment)))
  {
    if fragment.Some? {
      var r := Parser(FragmentStart, 0, None, v, false);
      FragmentTail(r, fragment.value);
      GivesAfter(q, "#", r, fragment.value, v.(fragment := fragment.value));
    } else {
      StopGoes(q);
      assert v.(fragment := "") == v;
    }
  }

  lemma QueryTail(p: Parser, query: string, fragment: Option<string>)
    requires p.mode == QueryStart && p.escape == 0 && !p.crashed && p.uri.fragment == "" && Clean(QueryStart, query)
    requires fragment.Some? ==> Clean(FragmentStart, fragment.value)
    ensures Gives(p, query + Signed("#", fragment), p.uri.(query := query, fragment := Or(fragment)))
  {
    var v := p.uri.(query := query);
    if query == "" {
      EmptyQuery(p);
      FragmentOption(p, v, fragment);
      assert query + Signed("#", fragment) == Signed("#", fragment);
    } else {
      Open(p, query);
      var q := p.(mode := Query, mark := Some(query));
      HashGoes(q, query);
      FragmentOption(q, v, fragment);
      GivesAfter(p, query, q, Signed("#", fragment), v.(fragment := Or(fragment)));
    }
  }

  lemma EmptyQuery(p: Parser)
    requires p.mode == QueryStart && p.escape == 0 && !p.crashed
    ensures Ended(p) == Accepted(p.uri.(query := ""))
    ensures Goes(p, "#", Parser(FragmentStart, 0, None, p.uri.(query := ""), false))
  {
    ArcGoes(p, '#', Arc(FragmentStart, Mark, SaveQuery, Nop));
  }

  /** The path is read, or left out: its end, a number sign and a question mark lead on from `v`. */
  lemma QueryOption(q: Parser, v: Uri, query: Option<string>, fragment: Option<string>)
    requires v.query == "" && v.fragment == ""
    requires query.Some? ==> Clean(QueryStart, query.value)
    requires fragment.Some? ==> Clean(FragmentStart, fragment.value)
    requires Ended(q) == Accepted(v) && Goes(q, "#", Parser(FragmentStart, 0, None, v, false)) && Goes(q, "?", Parser(QueryStart, 0, None, v, false))
    ensures Gives(q, Signed("?", query) + Signed("#", fragment), v.(query := Or(query), fragment := Or(fragment)))
  {
    if query.Some? {
      var r := Parser(QueryStart, 0, None, v, false);
      QueryTail(r, query.value, fragment);
      GivesAfter(q, "?", r, query.value + Signed("#", fragment), v.(query := query.value, fragment := Or(fragment)));
      Assoc("?", query.value, Signed("#", fragment));
    } else {
      FragmentOption(q, v, fragment);
      assert v.(query := "") == v;
      assert "" + Signed("#", fragment) == Signed("#", fragment);
    }
  }

  lemma NoPathGoes(q: Parser, v: Uri)
    requires AuthorityRead(q, v) && v.path == ""
    ensures Ended(q) == Accepted(v)
    ensures Goes(q, "#", Parser(FragmentStart, 0, None, v, false)) && Goes(q, "?", Parser(QueryStart, 0, None, v, false))
  {
    EndingArc(q.mode, '#');
    EndingArc(q.mode, '?');
    ArcGoes(q, '#', Ending(q.mode, '#'));
    ArcGoes(q, '?', Ending(q.mode, '?'));
    assert v.(path := "") == v;
  }

  lemma PathGoes(q: Parser, v: Uri, path: string) returns (r: Parser)
    requires AuthorityRead(q, v) && path != "" && path[0] == '/' && Clean(Path, path[1..])
    ensures Goes(q, path, r) && r == Parser(Path, 0, Some(path), v, false)
  {
    EndingArc(q.mode, '/');
    ArcGoes(q, '/', Ending(q.mode, '/'));
    assert "" + "/" == "/" && "/" + path[1..] == path;
    var s := Parser(Path, 0, Some("/"), v, false);
    Stay(s, path[1..]);
    r := Parser(Path, 0, Some(path), v, false);
    Join(q, "/", s, path[1..], r);
  }

  lemma PathEnds(r: Parser, path: string)
    requires r.mode == Path && r.escape == 0 && !r.crashed && r.mark == Some(path)
    ensures Ended(r) == Accepted(r.uri.(path := path))
    ensures Goes(r, "#", Parser(FragmentStart, 0, None, r.uri.(path := path), false))
    ensures Goes(r, "?", Parser(QueryStart, 0, None, r.uri.(path := path), false))
  {
    HashGoes(r, path);
    ArcGoes(r, '?', Arc(QueryStart, SavePath, Nop, Nop));
  }

  /** What follows the authority. */
  function RestOf(g: Parts): string {
    g.path + (Signed("?", g.query) + Signed("#", g.fragment))
  }

  lemma RestGives(q: Parser, v: Uri, g: Parts)
    requires AuthorityRead(q, v) && v.path == "" && v.query == "" && v.fragment == "" && Grammar(g)
    ensures Gives(q, RestOf(g), v.(path := g.path, query := Or(g.query), fragment := Or(g.fragment)))
  {
    if g.path == "" {
      NoPathGoes(q, v);
      QueryOption(q, v, g.query, g.fragment);
      assert RestOf(g) == Signed("?", g.query) + Signed("#", g.fragment);
      assert v.(path := "") == v;
    } else {
      var r := PathGoes(q, v, g.path);
      PathEnds(r, g.path);
      QueryOption(r, v.(path := g.path), g.query, g.fragment);
      GivesAfter(q, g.path, r, Signed("?", g.query) + Signed("#", g.fragment), v.(path := g.path, query := Or(g.query), fragment := Or(g.fragment)));
    }
  }

  /** Host and port. */
  lemma AuthorityGives(p: Parser, g: Parts)
    requires AtHost(p) && p.uri.path == "" && p.uri.query == "" && p.uri.fragment == "" && p.uri.port == 0 && Grammar(g)
    ensures Gives(p, g.host + PortText(g.port) + RestOf(g),
              p.uri.(host := g.host, port := MeaningOf(g).port, path := g.path, query := Or(g.query), fragment := Or(g.fragment)))
  {
    CleanHost(g.host);
    var v := p.uri.(host := g.host, port := MeaningOf(g).port);
    var q;
    if g.port.Some? {
      q := PortRead(p, g.host, g.port.value);
      Assoc(g.host, ":", g.port.value);
    } else {
      q := HostRead(p, g.host);
      assert g.host + "" == g.host && v == p.uri.(host := g.host);
    }
    RestGives(q, v, g);
    GivesAfter(p, g.host + PortText(g.port), q, RestOf(g), v.(path := g.path, query := Or(g.query), fragment := Or(g.fragment)));
  }

  lemma NoInfoGoes(p: Parser) returns (q: Parser)
    requires p.mode == Authority && AtHost(p)
    ensures Goes(p, "@", q) && q == Parser(HostStart, 0, None, p.uri.(userinfo := ""), false)
  {
    ArcGoes(p, '@', Arc(HostStart, Mark, SaveUserinfo, Nop));
    q := Parser(HostStart, 0, None, p.uri.(userinfo := ""), false);
  }

  lemma Shape(g: Parts)
    ensures TextOf(g) == g.scheme + "://" + (InfoText(g.info) + (g.host + PortText(g.port) + RestOf(g)))
  {
    var a, b, c, d := g.scheme + "://", InfoText(g.info), g.host, PortText(g.port);
    var e, f, h := g.path, Signed("?", g.query), Signed("#", g.fragment);
    Assoc(a, b, c + d + (e + (f + h)));
    Assoc(a + b, c + d, e + (f + h));
    Assoc(a + b, c, d);
    Assoc(a + b + c + d, e, f + h);
    Assoc(a + b + c + d + e, f, h);
  }

  /** Every text of the grammar is accepted, with its parts in their places. */
  lemma GrammarIsAccepted(g: Parts)
    requires Grammar(g)
    ensures Parsed(TextOf(g)) == Accepted(MeaningOf(g))
  {
    var p := Parser(Authority, 0, None, NO_URI.(scheme := g.scheme), false);
    var rest := g.host + PortText(g.port) + RestOf(g);
    SchemeGoes(g.scheme);
    if g.info.Some? {
      var q;
      if g.info.value == "" {
        q := NoInfoGoes(p);
        assert "" + "@" == "@" && Kept("") == "";
      } else {
        q := InfoGoes(p, g.info.value);
      }
      AuthorityGives(q, g);
      GivesAfter(p, InfoText(g.info), q, rest, MeaningOf(g));
    } else {
      AuthorityGives(p, g);
      assert "" + rest == rest;
    }
    GivesAfter(START, g.scheme + "://", p, InfoText(g.info) + rest, MeaningOf(g));
    Shape(g);
    GivesParsed(TextOf(g), MeaningOf(g));
  }

  // ---------------------------------------------------------------- accepted texts are of the grammar

  /**
   * What the URI in the making does not tell of the text read so far: user information as it
   * was written, the digits of the port and whether there was a query. `seen` is what may yet
   * turn out to be user information.
   */
  datatype Story = Story(info: Option<string>, port: Option<string>, query: Option<string>, seen: string)

  const UNTOLD := Story(None, None, None, "")

  function BeforeInfo(u: Uri): string {
    u.scheme + "://"
  }

  function BeforeHost(u: Uri, k: Story): string {
    BeforeInfo(u) + InfoText(k.info)
  }

  function BeforePath(u: Uri, k: Story): string {
    BeforeHost(u, k) + u.host + PortText(k.port)
  }

  function BeforeFragment(u: Uri, k: Story): string {
    BeforePath(u, k) + u.path + Signed("?", k.query)
  }

  ghost predicate InfoTold(u: Uri, k: Story) {
    && (k.info.Some? ==> Clean(Info, k.info.value))
    && u.userinfo == if k.info.Some? then Kept(k.info.value) else ""
  }

  ghost predicate PortTold(u: Uri, k: Story) {
    && (k.port.Some? ==> k.port.value != "" && AllDigits(k.port.value))
    && u.port == if k.port.Some? then Atoi(k.port.value) else 0
  }

  /** Nothing behind the authority is known yet. */
  ghost predicate NoRest(u: Uri, k: Story) {
    u.path == "" && u.query == "" && u.fragment == "" && k.query == None
  }

  /** No user information and no port is known yet. */
  ghost predicate Fresh(u: Uri, k: Story) {
    u.userinfo == "" && u.port == 0 && k.info == None && k.port == None && NoRest(u, k)
  }

  ghost predicate AfterInfo(u: Uri, k: Story) {
    k.info.Some? && InfoTold(u, k) && u.port == 0 && k.port == None && NoRest(u, k)
  }

  ghost predicate DigitsRead(s: Option<string>) {
    s.Some? && s.value != "" && AllDigits(s.value)
  }

  /** The parser and the story tell the text `t` read so far. */
  ghost predicate Told(p: Parser, t: string, k: Story) {
    p.crashed || p.mode.Error? || p.mode.Outside? ||
    match p.mode
    case Begin => t == ""
    case Scheme => p.mark == Some(t)
    case Colon => p.uri == NO_URI.(scheme := p.uri.scheme) && t == p.uri.scheme + ":"
    case Slash => p.uri == NO_URI.(scheme := p.uri.scheme) && t == p.uri.scheme + ":/"
    case Authority => Fresh(p.uri, k) && t == BeforeInfo(p.uri)
    case Name => Fresh(p.uri, k) && p.mark.Some? && t == BeforeInfo(p.uri) + p.mark.value
    case Separator => Fresh(p.uri, k) && p.mark == Some(p.uri.host + ":") && t == BeforeInfo(p.uri) + (p.uri.host + ":")
    case Digits => Fresh(p.uri, k) && DigitsRead(p.mark) && t == BeforeInfo(p.uri) + (p.uri.host + ":" + p.mark.value)
    case Info =>
      && Fresh(p.uri, k) && SoFar(Info, k.seen, p.escape) && FirstColon(k.seen) + 1 < |k.seen|
      && p.mark == Some(Kept(k.seen)) && t == BeforeInfo(p.uri) + k.seen
    case HostStart => AfterInfo(p.uri, k) && t == BeforeHost(p.uri, k)
    case Host => AfterInfo(p.uri, k) && p.mark.Some? && t == BeforeHost(p.uri, k) + p.mark.value
    case PortStart => AfterInfo(p.uri, k) && t == BeforeHost(p.uri, k) + (p.uri.host + ":")
    case Port => AfterInfo(p.uri, k) && DigitsRead(p.mark) && t == BeforeHost(p.uri, k) + (p.uri.host + ":" + p.mark.value)
    case Path =>
      p.mark.Some? ==> InfoTold(p.uri, k) && PortTold(p.uri, k) && NoRest(p.uri, k) && t == BeforePath(p.uri, k) + p.mark.value
    case QueryStart => PathTold(p.uri, k) && t == BeforePath(p.uri, k) + p.uri.path + "?"
    case Query => PathTold(p.uri, k) && p.mark.Some? && t == BeforePath(p.uri, k) + p.uri.path + "?" + p.mark.value
    case FragmentStart => QueryTold(p.uri, k) && t == BeforeFragment(p.uri, k) + "#"
    case Fragment => QueryTold(p.uri, k) && p.mark.Some? && t == BeforeFragment(p.uri, k) + "#" + p.mark.value
    case _ => true
  }

  ghost predicate PathTold(u: Uri, k: Story) {
    InfoTold(u, k) && PortTold(u, k) && u.query == "" && u.fragment == "" && k.query == None
  }

  ghost predicate QueryTold(u: Uri, k: Story) {
    InfoTold(u, k) && PortTold(u, k) && u.query == Or(k.query) && u.fragment == ""
  }

  lemma Snoc(a: string, b: string, c: char)
    ensures a + b + [c] == a + (b + [c]) && b + [c] == b + [c] + ""
  {
  }

  // ---------------------------------------------------------------- colons in user information

  lemma {:induction false} FirstColonStays(s: string, c: char)
    ensures FirstColon(s) <= |s|
    ensures FirstColon(s) < |s| ==> FirstColon(s + [c]) == FirstColon(s)
    decreases |s|
  {
    if s != "" && s[0] != ':' {
      FirstColonStays(s[1..], c);
      assert (s + [c])[1..] == s[1..] + [c];
    }
  }

  /** Once something follows the first colon, what is kept grows with the text. */
  lemma KeptGrows(s: string, c: char)
    requires FirstColon(s) + 1 < |s|
    ensures FirstColon(s + [c]) + 1 < |s + [c]| && Kept(s + [c]) == Kept(s) + [c]
  {
    FirstColonStays(s, c);
    var k := FirstColon(s);
    KeptIs(s, k);
    KeptIs(s + [c], k);
    KeptSlice(s, c, k);
  }

  lemma KeptIs(s: string, k: nat)
    requires FirstColon(s) == k
    ensures Kept(s) == if k + 1 < |s| && Digit(s[k + 1]) then s[k + 1..] else s
  {
  }

  lemma KeptSlice(s: string, c: char, k: nat)
    requires k + 1 < |s|
    ensures (s + [c])[k + 1] == s[k + 1] && (s + [c])[k + 1..] == s[k + 1..] + [c]
  {
  }

  /** A name has no colon. */
  lemma {:induction false} NameHasNoColon(s: string, t: string)
    requires SoFar(Authority, s, 0)
    ensures FirstColon(s + t) == |s| + FirstColon(t)
    decreases |s|
  {
    if s == "" {
      assert s + t == t;
    } else if s[0] != '%' {
      NameHasNoColon(s[1..], t);
      assert (s + t)[1..] == s[1..] + t;
    } else {
      NameHasNoColon(s[3..], t);
      var r := s + t;
      assert r[3..] == s[3..] + t && r[1..][1..][1..] == r[3..];
      assert FirstColon(r) == 1 + FirstColon(r[1..]);
      assert FirstColon(r[1..]) == 1 + FirstColon(r[1..][1..]);
      assert FirstColon(r[1..][1..]) == 1 + FirstColon(r[3..]);
    }
  }

  lemma {:induction false} CleanIsSoFar(m: Mode, s: string)
    requires Clean(m, s) && m != Begin
    requires forall c :: Body(m, c) ==> c != '%'
    ensures SoFar(m, s, 0)
    decreases |s|
  {
    if s != "" {
      CleanIsSoFar(m, if s[0] == '%' then s[3..] else s[1..]);
    }
  }

  lemma {:induction false} SoFarJoin(m: Mode, a: string, b: string, e: nat)
    requires SoFar(m, a, 0) && SoFar(m, b, e)
    ensures SoFar(m, a + b, e)
    decreases |a|
  {
    if a == "" {
      assert a + b == b;
    } else if a[0] != '%' {
      SoFarJoin(m, a[1..], b, e);
      assert (a + b)[1..] == a[1..] + b;
    } else {
      SoFarJoin(m, a[3..], b, e);
      assert (a + b)[3..] == a[3..] + b;
    }
  }

  /** A host, a colon and more: clean user information, with the first colon behind the host. */
  lemma HostAndMore(host: string, more: string, e: nat)
    requires Clean(Authority, host) && SoFar(Info, more, e)
    ensures SoFar(Info, host + ":" + more, e) && FirstColon(host + ":" + more) == |host|
  {
    CleanIsSoFar(Authority, host);
    NamesAreInfo(host, 0);
    var t := ":" + more;
    assert t[1..] == more && host + ":" + more == host + t;
    SoFarJoin(Info, host, t, e);
    NameHasNoColon(host, t);
  }

  lemma {:induction false} DigitsAreInfo(s: string)
    requires AllDigits(s)
    ensures SoFar(Info, s, 0)
  {
    if s != "" {
      DigitsAreInfo(s[1..]);
    }
  }

  // ---------------------------------------------------------------- one character more

  /** A character that only extends the text since the mark. */
  lemma ToldExtends(p: Parser, q: Parser, t: string, k: Story, c: char) returns (k': Story)
    requires Told(p, t, k) && !p.crashed && !p.mode.Error? && !p.mode.Outside?
    requires p.mode.Name? || p.mode.Host? || p.mode.Query? || p.mode.Fragment? || (p.mode.Path? && p.mark.Some?)
    requires q == Extend(p, [c]).(escape := q.escape)
    ensures Told(q, t + [c], k')
  {
    k' := k;
    match p.mode
    case Name => Snoc(BeforeInfo(p.uri), p.mark.value, c);
    case Host => Snoc(BeforeHost(p.uri, k), p.mark.value, c);
    case Path => Snoc(BeforePath(p.uri, k), p.mark.value, c);
    case Query => Snoc(BeforePath(p.uri, k) + p.uri.path + "?", p.mark.value, c);
    case Fragment => Snoc(BeforeFragment(p.uri, k) + "#", p.mark.value, c);
  }

  /** More of what may be user information. */
  lemma ToldInfo(p: Parser, q: Parser, t: string, k: Story, c: char) returns (k': Story)
    requires Told(p, t, k) && !p.crashed && p.mode.Info?
    requires q == Extend(p, [c]).(escape := q.escape) && SoFar(Info, k.seen + [c], q.escape)
    ensures Told(q, t + [c], k')
  {
    k' := k.(seen := k.seen + [c]);
    KeptGrows(k.seen, c);
    Snoc(BeforeInfo(p.uri), k.seen, c);
  }

  /** A host, a colon, digits and what is no digit: what is kept of it stands behind the colon if there are digits. */
  lemma KeptBehind(host: string, digits: string, c: char, e: nat)
    requires Clean(Authority, host) && AllDigits(digits) && !Digit(c) && SoFar(Info, [c], e)
    ensures var seen := host + ":" + (digits + [c]);
            && SoFar(Info, seen, e) && FirstColon(seen) + 1 < |seen|
            && Kept(seen) == (if digits == "" then host + ":" else digits) + [c]
  {
    var more := digits + [c];
    DigitsAreInfo(digits);
    SoFarJoin(Info, digits, [c], e);
    HostAndMore(host, more, e);
    var seen := host + ":" + more;
    KeptIs(seen, |host|);
    assert seen[|host| + 1..] == more && seen[|host| + 1] == more[0];
    assert digits == "" ==> more == [c] && seen == host + ":" + [c];
  }

  /** Behind a host, a colon and perhaps digits comes what is no digit: it may be user information. */
  lemma ToldBecomesInfo(p: Parser, q: Parser, t: string, k: Story, c: char) returns (k': Story)
    requires Told(p, t, k) && !p.crashed && (p.mode.Separator? || p.mode.Digits?) && Clean(Authority, p.uri.host) && !Digit(c)
    requires q == Extend(p, [c]).(mode := Info, escape := q.escape) && SoFar(Info, [c], q.escape)
    ensures Told(q, t + [c], k')
  {
    var host := p.uri.host + ":";
    var digits := if p.mode.Digits? then p.mark.value else "";
    k' := k.(seen := host + (digits + [c]));
    KeptBehind(p.uri.host, digits, c, q.escape);
    assert host + "" == host;
    Snoc(host, digits, c);
    Snoc(BeforeInfo(p.uri), host + digits, c);
  }

  /** The first character of a part. */
  lemma ToldFirst(p: Parser, q: Parser, t: string, k: Story, c: char)
    requires Told(p, t, k) && !p.crashed
    requires p.mode.Authority? || p.mode.HostStart? || p.mode.QueryStart? || p.mode.FragmentStart?
    requires q == p.(mode := Inner(p.mode).mode, mark := Some([c]), escape := q.escape)
    ensures Told(q, t + [c], k)
  {
  }

  lemma ToldScheme(p: Parser, t: string, k: Story, c: char) returns (k': Story)
    requires Told(p, t, k) && Good(p) && p.escape == 0 && !p.crashed && (p.mode.Begin? || p.mode.Scheme? || p.mode.Colon? || p.mode.Slash?)
    ensures Told(Feed(p, c), t + [c], k')
  {
    k' := UNTOLD;
    assert "" + [c] == [c];
    var q := Feed(p, c);
    if p.mode.Slash? && c == '/' {
      SlashesJoin(p.uri.scheme);
    } else if p.mode.Colon? && c == '/' {
      SlashJoin(p.uri.scheme);
    }
  }

  lemma SlashJoin(s: string)
    ensures s + ":" + ['/'] == s + ":/"
  {
  }

  lemma SlashesJoin(s: string)
    ensures s + ":/" + ['/'] == s + "://"
  {
  }

  lemma ToldDigit(p: Parser, q: Parser, t: string, k: Story, c: char)
    requires Told(p, t, k) && !p.crashed && Digit(c)
    requires p.mode.Separator? || p.mode.PortStart? ==> q == p.(mode := if p.mode.Separator? then Digits else Port, mark := Some([c]))
    requires p.mode.Digits? || p.mode.Port? ==> q == Extend(p, [c])
    requires p.mode.Separator? || p.mode.PortStart? || p.mode.Digits? || p.mode.Port?
    ensures Told(q, t + [c], k)
  {
    var front := if p.mode.Separator? || p.mode.Digits? then BeforeInfo(p.uri) else BeforeHost(p.uri, k);
    var host := p.uri.host + ":";
    if p.mode.Digits? || p.mode.Port? {
      Snoc(host, p.mark.value, c);
      Snoc(front, host + p.mark.value, c);
    } else {
      Snoc(front, host, c);
    }
  }

  /** The colon behind a host. */
  lemma ToldColon(p: Parser, t: string, k: Story)
    requires Told(p, t, k) && p.escape == 0 && !p.crashed && (p.mode.Authority? || p.mode.Name? || p.mode.HostStart? || p.mode.Host?)
    requires (p.mode.Authority? || p.mode.HostStart?) ==> p.mark == None
    ensures Told(Feed(p, ':'), t + ":", k)
  {
    var host := if p.mode.Name? || p.mode.Host? then p.mark.value else "";
    var front := if p.mode.Authority? || p.mode.Name? then BeforeInfo(p.uri) else BeforeHost(p.uri, k);
    assert "" + ":" == ":" && front + "" == front;
    Snoc(front, host, ':');
    assert Feed(p, ':') == p.(mode := if p.mode.Authority? || p.mode.Name? then Separator else PortStart,
                              mark := Some(host + ":"), uri := p.uri.(host := host));
  }

  /** The at sign: what was read since the double slash is user information, and the mark what is kept of it. */
  lemma ToldAt(p: Parser, t: string, k: Story) returns (k': Story)
    requires Told(p, t, k) && Good(p) && p.escape == 0 && !p.crashed
    requires p.mode.Authority? || p.mode.Name? || ColonMode(p.mode)
    ensures Told(Feed(p, '@'), t + "@", k')
  {
    var info := WrittenInfo(p, k);
    WrittenIs(p, t, k);
    k' := Story(Some(info), None, None, "");
    Snoc(BeforeInfo(p.uri), info, '@');
    var q := p.(mode := HostStart, mark := None, uri := p.uri.(userinfo := Kept(info)));
    AtLeads(p, info);
    assert Feed(p, '@') == q;
  }

  function WrittenInfo(p: Parser, k: Story): string {
    match p.mode
    case Name => if p.mark.Some? then p.mark.value else ""
    case Separator => p.uri.host + ":"
    case Digits => p.uri.host + ":" + (if p.mark.Some? then p.mark.value else "")
    case Info => k.seen
    case _ => ""
  }

  lemma WrittenIs(p: Parser, t: string, k: Story)
    requires Told(p, t, k) && Good(p) && p.escape == 0 && !p.crashed
    requires p.mode.Authority? || p.mode.Name? || ColonMode(p.mode)
    ensures var info := WrittenInfo(p, k);
            && Clean(Info, info) && t == BeforeInfo(p.uri) + info
            && (p.mode.Authority? ==> p.mark == None && Kept(info) == "") && (!p.mode.Authority? ==> p.mark == Some(Kept(info)))
  {
    var info := WrittenInfo(p, k);
    match p.mode
    case Authority => assert Kept("") == "";
    case Name =>
      NamesAreInfo(info, 0);
      NameHasNoColon(info, "");
      assert info + "" == info;
      KeptIs(info, |info|);
      SoFarIsClean(Info, info);
    case Separator =>
      HostAndMore(p.uri.host, "", 0);
      assert p.uri.host + ":" + "" == info;
      KeptIs(info, |p.uri.host|);
      SoFarIsClean(Info, info);
    case Digits =>
      var digits := p.mark.value;
      DigitsAreInfo(digits);
      HostAndMore(p.uri.host, digits, 0);
      KeptIs(info, |p.uri.host|);
      assert info[|p.uri.host| + 1..] == digits && info[|p.uri.host| + 1] == digits[0];
      SoFarIsClean(Info, info);
    case Info => SoFarIsClean(Info, info);
  }

  lemma AtLeads(p: Parser, info: string)
    requires p.escape == 0 && !p.crashed && (p.mode.Authority? || p.mode.Name? || ColonMode(p.mode))
    requires (p.mode.Authority? ==> p.mark == None && Kept(info) == "") && (!p.mode.Authority? ==> p.mark == Some(Kept(info)))
    ensures Feed(p, '@') == p.(mode := HostStart, mark := None, uri := p.uri.(userinfo := Kept(info)))
  {
  }

  /** Leaving the authority: unless the port is empty, what has been read is told by `k'`. */
  lemma LeavingTells(p: Parser, t: string, k: Story) returns (k': Story)
    requires Told(p, t, k) && p.escape == 0 && !p.crashed && !p.mode.Error? && !p.mode.Outside? && Leaving(p.mode).Some?
    requires p.mode.Authority? || p.mode.HostStart? ==> p.mark == None
    ensures var q := Left(p);
            && !q.crashed && q.mode == p.mode && q.escape == 0
            && (p.mode.Separator? || p.mode.PortStart? ==> q.mark == None)
            && (!p.mode.Separator? && !p.mode.PortStart? ==>
                  && q.mark == Some("") && InfoTold(q.uri, k') && PortTold(q.uri, k') && NoRest(q.uri, k')
                  && t == BeforePath(q.uri, k'))
  {
    k' := k;
    if p.mode.Digits? || p.mode.Port? {
      k' := k.(port := p.mark);
      PortJoin(if p.mode.Digits? then BeforeInfo(p.uri) else BeforeHost(p.uri, k), p.uri.host, p.mark.value);
      assert BeforeInfo(p.uri) + "" == BeforeInfo(p.uri);
    } else if !p.mode.Separator? && !p.mode.PortStart? {
      var host := if p.mode.Name? || p.mode.Host? then p.mark.value else "";
      var front := BeforeHost(p.uri, k);
      assert BeforeInfo(p.uri) + "" == BeforeInfo(p.uri) && front + host + "" == front + host && front + "" == front;
    }
  }

  lemma PortJoin(front: string, host: string, port: string)
    ensures front + (host + ":" + port) == front + host + (":" + port)
  {
  }

  lemma EndingFollow(p: Parser, c: char)
    requires Leaving(p.mode).Some? && (c == '/' || c == '?' || c == '#')
    ensures Follow(p, Ending(p.mode, c)) ==
            if c == '/' then Left(p).(mode := Path) else Act(Left(p), SavePath).(mode := if c == '?' then QueryStart else FragmentStart)
  {
  }

  /** The sign that ends the authority. */
  lemma ToldEnding(p: Parser, t: string, k: Story, c: char) returns (k': Story)
    requires Told(p, t, k) && p.escape == 0 && !p.crashed && !p.mode.Error? && !p.mode.Outside? && Leaving(p.mode).Some?
    requires p.mode.Authority? || p.mode.HostStart? ==> p.mark == None
    requires c == '/' || c == '?' || c == '#'
    ensures Told(Extend(Follow(p, Ending(p.mode, c)), [c]), t + [c], k')
  {
    k' := LeavingTells(p, t, k);
    EndingFollow(p, c);
    if c == '/' {
      SlashTold(Left(p), t, k');
    } else {
      NoPathTold(Left(p), t, k', c);
    }
  }

  lemma SlashTold(q: Parser, t: string, k: Story)
    requires !q.crashed && (q.mark == None || (q.mark == Some("") && InfoTold(q.uri, k) && PortTold(q.uri, k) && NoRest(q.uri, k)))
    requires q.mark.Some? ==> t == BeforePath(q.uri, k)
    ensures Told(Extend(q.(mode := Path), "/"), t + "/", k)
  {
    assert "" + "/" == "/";
  }

  lemma NoPathTold(q: Parser, t: string, k: Story, c: char)
    requires !q.crashed && (q.mark == None || (q.mark == Some("") && InfoTold(q.uri, k) && PortTold(q.uri, k) && NoRest(q.uri, k)))
    requires q.mark.Some? ==> t == BeforePath(q.uri, k)
    requires c == '?' || c == '#'
    ensures Told(Extend(Act(q, SavePath).(mode := if c == '?' then QueryStart else FragmentStart), [c]), t + [c], k)
  {
    var front := BeforePath(q.uri, k);
    assert front + "" == front;
    assert q.mark.Some? ==> q.uri.(path := "") == q.uri;
  }

  /** The sign that ends a path or a query. */
  lemma ToldSection(p: Parser, t: string, k: Story, c: char) returns (k': Story)
    requires Told(p, t, k) && p.escape == 0 && !p.crashed
    requires (p.mode.Path? && (c == '?' || c == '#')) || ((p.mode.QueryStart? || p.mode.Query?) && c == '#')
    requires p.mode.QueryStart? ==> p.mark == None
    ensures Told(Feed(p, c), t + [c], k')
  {
    k' := k;
    if p.mode.Path? {
      PathSection(p, t, k, c);
    } else {
      k' := QuerySection(p, t, k);
    }
  }

  lemma PathSection(p: Parser, t: string, k: Story, c: char)
    requires Told(p, t, k) && p.escape == 0 && !p.crashed && p.mode.Path? && (c == '?' || c == '#')
    ensures Told(Feed(p, c), t + [c], k)
  {
    if p.mark.Some? {
      var front := BeforePath(p.uri, k);
      assert front + p.mark.value + "" == front + p.mark.value;
    }
  }

  lemma QuerySection(p: Parser, t: string, k: Story) returns (k': Story)
    requires Told(p, t, k) && p.escape == 0 && !p.crashed && (p.mode.QueryStart? || p.mode.Query?)
    requires p.mode.QueryStart? ==> p.mark == None
    ensures Told(Feed(p, '#'), t + "#", k')
  {
    var query := if p.mode.Query? then p.mark.value else "";
    k' := k.(query := Some(query));
    QueryJoin(BeforePath(p.uri, k) + p.uri.path, query);
    assert Feed(p, '#') == Parser(FragmentStart, 0, None, p.uri.(query := query), false);
  }

  lemma QueryJoin(front: string, query: string)
    ensures front + "?" + query == front + ("?" + query) && front + "?" + "" == front + "?"
  {
  }

  /** Inside a part: the text since the mark grows, by a character or a piece of an escape. */
  lemma ToldInside(p: Parser, q: Parser, t: string, k: Story, c: char) returns (k': Story)
    requires Told(p, t, k) && !p.crashed && (Steady(p.mode) || p.mode.Info?)
    requires q == Extend(p, [c]).(escape := q.escape)
    requires p.mode.Info? ==> SoFar(Info, k.seen + [c], q.escape)
    ensures Told(q, t + [c], k')
  {
    if p.mode.Info? {
      k' := ToldInfo(p, q, t, k, c);
    } else if p.mark.Some? {
      k' := ToldExtends(p, q, t, k, c);
    } else {
      k' := k;
    }
  }

  lemma ToldHex(p: Parser, t: string, k: Story, c: char) returns (k': Story)
    requires Told(p, t, k) && Good(p) && p.escape > 0 && !p.crashed && !p.mode.Error? && !p.mode.Outside?
    ensures Told(Feed(p, c), t + [c], k')
  {
    k' := k;
    if Hex(c) {
      var q := Extend(p, [c]).(escape := p.escape - 1);
      assert Feed(p, c) == q;
      if p.mode.Info? {
        SoFarMore(Info, k.seen, p.escape, c);
      }
      k' := ToldInside(p, q, t, k, c);
    }
  }

  /** The arc into a part, or on inside it, for a character or a percent sign. */
  lemma ToldInner(p: Parser, t: string, k: Story, c: char, e: nat) returns (k': Story)
    requires Told(p, t, k) && Good(p) && p.escape == 0 && !p.crashed && !p.mode.Error? && !p.mode.Outside?
    requires Escapes(p.mode) && (c == '%' <==> e == 2) && (c != '%' ==> e == 0 && Body(p.mode, c))
    requires p.mode.Separator? || p.mode.Digits? ==> !Digit(c)
    ensures Told(Extend(Follow(p, Inner(p.mode)), [c]).(escape := e), t + [c], k')
  {
    var q := Extend(Follow(p, Inner(p.mode)), [c]).(escape := e);
    k' := k;
    assert "" + [c] == [c];
    if p.mode.Authority? || p.mode.HostStart? || p.mode.QueryStart? || p.mode.FragmentStart? {
      ToldFirst(p, q, t, k, c);
    } else if p.mode.Separator? || p.mode.Digits? {
      InfoPiece(c);
      k' := ToldBecomesInfo(p, q, t, k, c);
    } else {
      if p.mode.Info? {
        SoFarMore(Info, k.seen, 0, c);
      }
      k' := ToldInside(p, q, t, k, c);
    }
  }

  lemma InfoPiece(c: char)
    requires Body(Info, c) || c == '%'
    ensures SoFar(Info, [c], if c == '%' then 2 else 0)
  {
    assert [c][1..] == "";
  }

  /** A digit behind a colon. */
  lemma ToldColonDigit(p: Parser, t: string, k: Story, c: char)
    requires Told(p, t, k) && p.escape == 0 && !p.crashed && Digit(c)
    requires p.mode.Separator? || p.mode.Digits? || p.mode.PortStart? || p.mode.Port?
    ensures Told(Feed(p, c), t + [c], k)
  {
    assert "" + [c] == [c];
    ToldDigit(p, Feed(p, c), t, k, c);
  }

  lemma ToldSign(p: Parser, t: string, k: Story, c: char) returns (k': Story)
    requires Told(p, t, k) && Good(p) && p.escape == 0 && !p.crashed && !p.mode.Error? && !p.mode.Outside?
    requires Known(p.mode, c) && !Body(p.mode, c) && !(p.mode.Begin? || p.mode.Scheme? || p.mode.Colon? || p.mode.Slash?)
    ensures Told(Feed(p, c), t + [c], k')
  {
    k' := k;
    if c == ':' {
      ToldColon(p, t, k);
    } else if c == '@' {
      k' := ToldAt(p, t, k);
    } else if Leaving(p.mode).Some? && (c == '/' || c == '?' || c == '#') {
      EndingArc(p.mode, c);
      k' := ToldEnding(p, t, k, c);
    } else if c == '?' || c == '#' {
      k' := ToldSection(p, t, k, c);
    } else {
      ToldColonDigit(p, t, k, c);
    }
  }

  lemma ToldStep(p: Parser, t: string, k: Story, c: char) returns (k': Story)
    requires Told(p, t, k) && Good(p)
    ensures Told(Feed(p, c), t + [c], k')
  {
    k' := k;
    if p.crashed || p.mode.Error? || p.mode.Outside? {
      LostStays(p, c);
    } else if p.escape > 0 {
      k' := ToldHex(p, t, k, c);
    } else if c == '%' && Escapes(p.mode) {
      k' := ToldInner(p, t, k, c, 2);
    } else if p.mode.Begin? || p.mode.Scheme? || p.mode.Colon? || p.mode.Slash? {
      k' := ToldScheme(p, t, k, c);
    } else if !Known(p.mode, c) {
      UnknownIsRefused(p.mode, c);
    } else {
      k' := ToldArc(p, t, k, c);
    }
  }

  lemma ToldArc(p: Parser, t: string, k: Story, c: char) returns (k': Story)
    requires Told(p, t, k) && Good(p) && p.escape == 0 && !p.crashed && !p.mode.Error? && !p.mode.Outside? && Known(p.mode, c)
    requires !(c == '%' && Escapes(p.mode)) && !(p.mode.Begin? || p.mode.Scheme? || p.mode.Colon? || p.mode.Slash?)
    ensures Told(Feed(p, c), t + [c], k')
  {
    k' := k;
    if !Body(p.mode, c) {
      k' := ToldSign(p, t, k, c);
    } else if Digit(c) && (p.mode.Separator? || p.mode.Digits?) {
      ToldColonDigit(p, t, k, c);
    } else {
      BodyArc(p.mode, c);
      FollowKeeps(p, Inner(p.mode));
      k' := ToldInner(p, t, k, c, 0);
    }
  }

  lemma {:induction false} ToldRun(p: Parser, t: string, k: Story, s: string) returns (k': Story)
    requires Told(p, t, k) && Good(p)
    ensures Told(Run(p, s), t + s, k') && Good(Run(p, s))
    decreases |s|
  {
    if s == "" {
      k' := k;
      assert t + s == t;
    } else {
      var k1 := ToldStep(p, t, k, s[0]);
      GoodStep(p, s[0]);
      k' := ToldRun(Feed(p, s[0]), t + [s[0]], k1, s[1..]);
      assert t + [s[0]] + s[1..] == t + s;
    }
  }

  // ---------------------------------------------------------------- the end of the text

  /** The parts that a story and a URI tell of. */
  function PartsOf(u: Uri, k: Story, query: Option<string>, fragment: Option<string>): Parts {
    Parts(u.scheme, k.info, u.host, k.port, u.path, query, fragment)
  }

  lemma PartsFit(u: Uri, k: Story, query: Option<string>, fragment: Option<string>)
    requires PartsOk(u) && InfoTold(u, k) && PortTold(u, k) && u.query == Or(query) && u.fragment == Or(fragment)
    ensures var g := PartsOf(u, k, query, fragment);
            && Grammar(g) && MeaningOf(g) == u
            && TextOf(g) == BeforePath(u, k) + u.path + Signed("?", query) + Signed("#", fragment)
  {
    PathIsClean(u);
  }

  lemma EndTold(p: Parser, t: string, k: Story) returns (g: Parts)
    requires Told(p, t, k) && Good(p) && Ended(p).Accepted?
    ensures Grammar(g) && TextOf(g) == t && MeaningOf(g) == Ended(p).uri
  {
    EndKeeps(p);
    if Leaving(p.mode).Some? {
      g := AuthorityEnds(p, t, k);
    } else if p.mode.Path? {
      g := PathTells(p, t, k);
    } else if p.mode.QueryStart? || p.mode.Query? {
      g := QueryTells(p, t, k);
    } else {
      g := FragmentTells(p, t, k);
    }
  }

  lemma AuthorityEnds(p: Parser, t: string, k: Story) returns (g: Parts)
    requires Told(p, t, k) && Good(p) && Ended(p).Accepted? && PartsOk(Ended(p).uri) && Leaving(p.mode).Some?
    ensures Grammar(g) && TextOf(g) == t && MeaningOf(g) == Ended(p).uri
  {
    var u := Ended(p).uri;
    var k' := LeavingTells(p, t, k);
    g := PartsOf(u, k', None, None);
    EndAtAuthority(p);
    PartsFit(u, k', None, None);
    var b := BeforePath(u, k');
    assert b + "" + "" + "" == b;
  }

  lemma PathTells(p: Parser, t: string, k: Story) returns (g: Parts)
    requires Told(p, t, k) && Good(p) && Ended(p).Accepted? && PartsOk(Ended(p).uri) && p.mode.Path?
    ensures Grammar(g) && TextOf(g) == t && MeaningOf(g) == Ended(p).uri
  {
    var u := Ended(p).uri;
    g := PartsOf(u, k, None, None);
    PartsFit(u, k, None, None);
    var b := BeforePath(u, k) + u.path;
    assert b + "" + "" == b;
  }

  lemma QueryTells(p: Parser, t: string, k: Story) returns (g: Parts)
    requires Told(p, t, k) && Good(p) && Ended(p).Accepted? && PartsOk(Ended(p).uri) && (p.mode.QueryStart? || p.mode.Query?)
    ensures Grammar(g) && TextOf(g) == t && MeaningOf(g) == Ended(p).uri
  {
    var u := Ended(p).uri;
    g := PartsOf(u, k, Some(u.query), None);
    PartsFit(u, k, Some(u.query), None);
    QueryJoin(BeforePath(u, k) + u.path, u.query);
    var b := BeforePath(u, k) + u.path + ("?" + u.query);
    assert b + "" == b;
  }

  lemma FragmentTells(p: Parser, t: string, k: Story) returns (g: Parts)
    requires Told(p, t, k) && Good(p) && Ended(p).Accepted? && PartsOk(Ended(p).uri) && (p.mode.FragmentStart? || p.mode.Fragment?)
    ensures Grammar(g) && TextOf(g) == t && MeaningOf(g) == Ended(p).uri
  {
    var u := Ended(p).uri;
    g := PartsOf(u, k, k.query, Some(u.fragment));
    PartsFit(u, k, k.query, Some(u.fragment));
    FragmentJoin(BeforeFragment(u, k), u.fragment);
  }

  lemma FragmentJoin(front: string, fragment: string)
    ensures front + "#" + fragment == front + ("#" + fragment) && front + "#" + "" == front + "#"
  {
  }

  lemma EndAtAuthority(p: Parser)
    requires Leaving(p.mode).Some? && Ended(p).Accepted?
    ensures var q := Left(p);
            q.mark.Some? && Ended(p).uri == q.uri.(path := q.mark.value)
  {
  }

  /**
   * CreateUri accepts exactly the texts of the grammar, and gives the URI with their parts:
   * nothing else is accepted and nothing is put elsewhere.
   */
  lemma AcceptedExactly(text: string, u: Uri)
    ensures Parsed(text) == Accepted(u) <==> exists g :: Grammar(g) && TextOf(g) == text && MeaningOf(g) == u
  {
    if Parsed(text) == Accepted(u) {
      var k := ToldRun(START, "", UNTOLD, text);
      assert "" + text == text;
      var g := EndTold(Run(START, text), text, k);
    } else if g :| Grammar(g) && TextOf(g) == text && MeaningOf(g) == u {
      GrammarIsAccepted(g);
    }
  }

  // ---------------------------------------------------------------- empty ports

  /** A crash is for good. */
  lemma {:induction false} CrashStays(p: Parser, s: string)
    requires p.crashed && (p.mode.Path? || p.mode.QueryStart? || p.mode.Query? || p.mode.FragmentStart? || p.mode.Fragment? || p.mode.Error?)
    ensures Ended(Run(p, s)) == Crashed
    decreases |s|
  {
    if s != "" {
      CrashStays(Feed(p, s[0]), s[1..]);
    }
  }

  /** From a path with a null mark the end and every sign lead to a crash. */
  lemma NullPathCrashes(p: Parser, query: Option<string>, fragment: Option<string>)
    requires p.mode == Path && p.escape == 0 && !p.crashed && p.mark == None
    ensures Ended(Run(p, Signed("?", query) + Signed("#", fragment))) == Crashed
  {
    var s := Signed("?", query) + Signed("#", fragment);
    if s != "" {
      assert s[0] == '?' || s[0] == '#';
      CrashStays(Feed(p, s[0]), s[1..]);
    }
  }

  /** So do they right behind the empty port. */
  lemma EmptyPortEnds(p: Parser, query: Option<string>, fragment: Option<string>)
    requires (p.mode.Separator? || p.mode.PortStart?) && p.escape == 0 && !p.crashed
    ensures Ended(Run(p, Signed("?", query) + Signed("#", fragment))) == Crashed
  {
    var s := Signed("?", query) + Signed("#", fragment);
    if s != "" {
      assert s[0] == '?' || s[0] == '#';
      EndingArc(p.mode, s[0]);
      CrashStays(Feed(p, s[0]), s[1..]);
    }
  }

  lemma EmptyPortRest(p: Parser, g: Parts)
    requires (p.mode.Separator? || p.mode.PortStart?) && p.escape == 0 && !p.crashed && Grammar(g)
    ensures Ended(Run(p, RestOf(g))) == Crashed
  {
    var tail := Signed("?", g.query) + Signed("#", g.fragment);
    if g.path == "" {
      EmptyPortEnds(p, g.query, g.fragment);
      assert RestOf(g) == tail;
    } else {
      var q := Parser(Path, 0, None, p.uri, false);
      EndingArc(p.mode, '/');
      ArcGoes(p, '/', Ending(p.mode, '/'));
      Stay(q, g.path[1..]);
      assert "/" + g.path[1..] == g.path;
      Join(p, "/", q, g.path[1..], q);
      GoesIs(p, g.path, q);
      NullPathCrashes(q, g.query, g.fragment);
      RunConcat(p, g.path, tail);
    }
  }

  /** The text with an empty port behind its host. */
  function WithEmptyPort(g: Parts): string {
    g.scheme + "://" + (InfoText(g.info) + (g.host + ":" + RestOf(g)))
  }

  /** Whatever the other parts are, an empty port makes the parser save the path from a null mark. */
  lemma EmptyPortAlwaysCrashes(g: Parts)
    requires Grammar(g)
    ensures Parsed(WithEmptyPort(g)) == Crashed
  {
    var p := Parser(Authority, 0, None, NO_URI.(scheme := g.scheme), false);
    SchemeGoes(g.scheme);
    var q := p;
    if g.info.None? {
      StopGoes(p);
    } else if g.info.value == "" {
      q := NoInfoGoes(p);
      assert "" + "@" == "@";
    } else {
      q := InfoGoes(p, g.info.value);
    }
    CleanHost(g.host);
    HostColon(q, g.host);
    var r := Parser(if q.mode.Authority? then Separator else PortStart, 0, Some(g.host + ":"), q.uri.(host := g.host), false);
    EmptyPortRest(r, g);
    Join(START, g.scheme + "://", p, InfoText(g.info), q);
    Join(START, g.scheme + "://" + InfoText(g.info), q, g.host + ":", r);
    var front := g.scheme + "://" + InfoText(g.info) + (g.host + ":");
    GoesIs(START, front, r);
    RunConcat(START, front, RestOf(g));
    Assoc(g.scheme + "://", InfoText(g.info), g.host + ":" + RestOf(g));
    Assoc(g.scheme + "://" + InfoText(g.info), g.host + ":", RestOf(g));
  }
}
