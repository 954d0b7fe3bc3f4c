/**
 * Parsing and printing of URIs with an authority (src/HTTP/uri.rl): the state machine with its
 * marks and save actions, character by character, and Uri::dump. Hosts are registered names.
 */
module Uri {
  import opened Basics
  import opened Codec

  datatype Uri = Uri(scheme: string, userinfo: string, host: string, path: string, query: string, fragment: string, port: int)

  const NO_URI := Uri("", "", "", "", "", "", 0)

  predicate Alpha(c: char) {
    'a' <= c <= 'z' || 'A' <= c <= 'Z'
  }

  predicate Digit(c: char) {
    '0' <= c <= '9'
  }

  predicate Hex(c: char) {
    Digit(c) || 'a' <= c <= 'f' || 'A' <= c <= 'F'
  }

  predicate SchemeChar(c: char) {
    Alpha(c) || Digit(c) || c == '+' || c == '-' || c == '.'
  }

  /** unreserved or sub_delims: what user information and registered names are made of. */
  predicate NameChar(c: char) {
    Alpha(c) || Digit(c) || c == '!' || c == '$' || '&' <= c <= '.' || c == ';' || c == '=' || c == '_' || c == '~'
  }

  /** pchar, but for the percent sign. */
  predicate PathChar(c: char) {
    NameChar(c) || c == ':' || c == '@' || c == '/' || 128 <= c as int < 256
  }

  predicate QueryChar(c: char) {
    PathChar(c) || c == '?'
  }

  /** uri->setPort(atoi(..)): leading digits, as a long that is cut to 32 bits. */
  function Number(s: string, n: nat): nat {
    if s == "" || !Digit(s[0]) then n else Number(s[1..], 10 * n + (s[0] as int - '0' as int))
  }

  function Atoi(s: string): int {
    var n := Number(s, 0);
    ToSigned(W32, if n < 0x8000_0000_0000_0000 then n else 0x7FFF_FFFF_FFFF_FFFF)
  }

  datatype Mode =
    | Begin | Scheme | Colon | Slash                    // up to the double slash
    | Authority | Name | Separator | Digits | Info      // user information or host, not known yet
    | HostStart | Host | PortStart | Port               // after the at sign
    | Path | QueryStart | Query | FragmentStart | Fragment
    | Error                                             // the input is refused
    | Outside                                           // not an authority-form URI with a registered name

  datatype Action = Nop | Mark | SaveScheme | SavePort | SaveUserinfo | SaveHost | SavePath | SaveQuery | SaveFragment

  /** A transition: the next mode and up to three actions. */
  datatype Arc = Arc(mode: Mode, a: Action, b: Action, c: Action)

  function Plain(m: Mode): Arc {
    Arc(m, Nop, Nop, Nop)
  }

  /** The characters that a mode's own text is made of; a percent sign starts an escape there. */
  predicate Body(m: Mode, c: char) {
    match m
    case Authority => NameChar(c)
    case Name => NameChar(c)
    case Separator => NameChar(c) || c == ':'
    case Digits => NameChar(c) || c == ':'
    case Info => NameChar(c) || c == ':'
    case HostStart => NameChar(c)
    case Host => NameChar(c)
    case Path => PathChar(c)
    case QueryStart => QueryChar(c)
    case Query => QueryChar(c)
    case FragmentStart => QueryChar(c)
    case Fragment => QueryChar(c)
    case _ => false
  }

  predicate Escapes(m: Mode) {
    !(m.Begin? || m.Scheme? || m.Colon? || m.Slash? || m.PortStart? || m.Port? || m.Error? || m.Outside?)
  }

  /** The arc of a mode for a character of its body, digits after a colon aside. */
  function Inner(m: Mode): Arc {
    match m
    case Authority => Arc(Name, Mark, Nop, Nop)
    case Separator => Plain(Info)
    case Digits => Plain(Info)
    case HostStart => Arc(Host, Mark, Nop, Nop)
    case QueryStart => Arc(Query, Mark, Nop, Nop)
    case FragmentStart => Arc(Fragment, Mark, Nop, Nop)
    case _ => Plain(m)
  }

  /** The actions that end the authority before '/', '?', '#' or the end of the text. */
  function Leaving(m: Mode): Option<(Action, Action)> {
    match m
    case Authority => Some((Mark, SaveHost))
    case Name => Some((SaveHost, Mark))
    case Separator => Some((Mark, SavePort))
    case Digits => Some((SavePort, Mark))
    case HostStart => Some((Mark, SaveHost))
    case Host => Some((SaveHost, Mark))
    case PortStart => Some((Mark, SavePort))
    case Port => Some((SavePort, Mark))
    case _ => None
  }

  /** The authority ends, or the character is refused. */
  function Ending(m: Mode, c: char): Arc {
    if Leaving(m).None? then Plain(Error)
    else
      var (a, b) := Leaving(m).value;
      if c == '/' then Arc(Path, a, b, Nop)
      else if c == '?' then Arc(QueryStart, a, b, SavePath)
      else if c == '#' then Arc(FragmentStart, a, b, SavePath)
      else Plain(Error)
  }

  /** In a host; IP literals and the raw byte 2 that dec_octet admits are not modelled. */
  function InHost(m: Mode, c: char): Arc {
    if NameChar(c) then Inner(m) else if c == '[' || c as int == 2 then Plain(Outside) else Ending(m, c)
  }

  /** After a colon that may end a host or belong to user information. */
  function AfterColon(m: Mode, c: char): Arc {
    if c == '@' then Arc(HostStart, SaveUserinfo, Nop, Nop)
    else if NameChar(c) || c == ':' then Plain(Info)
    else Ending(m, c)
  }

  /** The arcs of the machine. */
  function Next(m: Mode, c: char): Arc {
    match m
    case Begin => if Alpha(c) then Arc(Scheme, Mark, Nop, Nop) else Plain(Outside)
    case Scheme =>
      if SchemeChar(c) then Plain(Scheme) else if c == ':' then Arc(Colon, SaveScheme, Nop, Nop) else Plain(Outside)
    case Colon => if c == '/' then Plain(Slash) else Plain(Outside)
    case Slash => if c == '/' then Plain(Authority) else Plain(Outside)
    case Authority =>
      if c == '@' then Arc(HostStart, Mark, SaveUserinfo, Nop)
      else if c == ':' then Arc(Separator, Mark, SaveHost, Nop)
      else InHost(m, c)
    case Name =>
      if c == '@' then Arc(HostStart, SaveUserinfo, Nop, Nop)
      else if c == ':' then Arc(Separator, SaveHost, Nop, Nop)
      else InHost(m, c)
    case Separator => if Digit(c) then Arc(Digits, Mark, Nop, Nop) else AfterColon(m, c)
    case Digits => if Digit(c) then Plain(Digits) else AfterColon(m, c)
    case Info => AfterColon(m, c)
    case HostStart => if c == ':' then Arc(PortStart, Mark, SaveHost, Nop) else InHost(m, c)
    case Host => if c == ':' then Arc(PortStart, SaveHost, Nop, Nop) else InHost(m, c)
    case PortStart => if Digit(c) then Arc(Port, Mark, Nop, Nop) else Ending(m, c)
    case Port => if Digit(c) then Plain(Port) else Ending(m, c)
    case Path =>
      if PathChar(c) then Plain(Path)
      else if c == '?' then Arc(QueryStart, SavePath, Nop, Nop)
      else if c == '#' then Arc(FragmentStart, SavePath, Nop, Nop)
      else Plain(Error)
    case QueryStart =>
      if QueryChar(c) then Arc(Query, Mark, Nop, Nop)
      else if c == '#' then Arc(FragmentStart, Mark, SaveQuery, Nop)
      else Plain(Error)
    case Query =>
      if QueryChar(c) then Plain(Query) else if c == '#' then Arc(FragmentStart, SaveQuery, Nop, Nop) else Plain(Error)
    case FragmentStart => if QueryChar(c) then Arc(Fragment, Mark, Nop, Nop) else Plain(Error)
    case Fragment => if QueryChar(c) then Plain(Fragment) else Plain(Error)
    case Error => Plain(Error)
    case Outside => Plain(Outside)
  }

  /** The actions at the end of the text, if the text may end here. */
  function AtEnd(m: Mode): Option<Arc> {
    match m
    case Path => Some(Arc(m, SavePath, Nop, Nop))
    case QueryStart => Some(Arc(m, Mark, SaveQuery, Nop))
    case Query => Some(Arc(m, SaveQuery, Nop, Nop))
    case FragmentStart => Some(Arc(m, Mark, SaveFragment, Nop))
    case Fragment => Some(Arc(m, SaveFragment, Nop, Nop))
    case _ => if Leaving(m).Some? then Some(Arc(m, Leaving(m).value.0, Leaving(m).value.1, SavePath)) else None
  }

  /**
   * The state between two characters: `escape` is the number of hexadecimal digits still due
   * after a percent sign, `mark` the text from the marked position on, or None for a null mark.
   */
  datatype Parser = Parser(mode: Mode, escape: nat, mark: Option<string>, uri: Uri, crashed: bool)

  /** One action; a save from the null mark crashes unless the code tests for it. */
  function Act(p: Parser, a: Action): Parser {
    if p.crashed then p
    else
      match a
      case Nop => p
      case Mark => p.(mark := Some(""))
      case SavePort =>
        if p.mark.None? then p.(crashed := true)
        else if p.mark.value == "" then p.(mark := None)
        else p.(mark := None, uri := p.uri.(port := Atoi(p.mark.value)))
      case SaveUserinfo => if p.mark.None? then p else p.(mark := None, uri := p.uri.(userinfo := p.mark.value))
      case SaveHost => if p.mark.None? then p else p.(uri := p.uri.(host := p.mark.value))
      case SaveScheme =>
        if p.mark.None? then p.(crashed := true) else p.(mark := None, uri := p.uri.(scheme := p.mark.value))
      case SavePath =>
        if p.mark.None? then p.(crashed := true) else p.(mark := None, uri := p.uri.(path := p.mark.value))
      case SaveQuery =>
        if p.mark.None? then p.(crashed := true) else p.(mark := None, uri := p.uri.(query := p.mark.value))
      case SaveFragment =>
        if p.mark.None? then p.(crashed := true) else p.(mark := None, uri := p.uri.(fragment := p.mark.value))
  }

  function Follow(p: Parser, arc: Arc): Parser {
    Act(Act(Act(p, arc.a), arc.b), arc.c).(mode := arc.mode)
  }

  /** The text since the mark grows by `s`. */
  function Extend(p: Parser, s: string): Parser {
    p.(mark := if p.mark.Some? then Some(p.mark.value + s) else None)
  }

  /** One transition of the machine. */
  function Step(p: Parser, c: char): Parser {
    if p.escape > 0 then
      if Hex(c) then p.(escape := p.escape - 1) else p.(mode := Error, escape := 0)
    else if c == '%' && Escapes(p.mode) then
      Follow(p, Inner(p.mode)).(escape := 2)
    else
      Follow(p, Next(p.mode, c))
  }

  function Feed(p: Parser, c: char): Parser {
    Extend(Step(p, c), [c])
  }

  function Run(p: Parser, s: string): Parser
    decreases |s|
  {
    if s == "" then p else Run(Feed(p, s[0]), s[1..])
  }

  datatype Result = Accepted(uri: Uri) | Refused | Crashed | NotModelled

  const START := Parser(Begin, 0, None, NO_URI, false)

  function Ended(p: Parser): Result {
    if p.mode.Outside? || p.mode.Begin? || p.mode.Scheme? || p.mode.Colon? || p.mode.Slash? then NotModelled
    else if p.crashed then Crashed
    else if p.escape > 0 || AtEnd(p.mode).None? then Refused
    else
      var q := Follow(p, AtEnd(p.mode).value);
      if q.crashed then Crashed else Accepted(q.uri)
  }

  function Parsed(text: string): Result {
    Ended(Run(START, text))
  }

  lemma {:induction false} RunConcat(p: Parser, a: string, b: string)
    ensures Run(p, a + b) == Run(Run(p, a), b)
    decreases |a|
  {
    if a == "" {
      assert a + b == b;
    } else {
      assert (a + b)[1..] == a[1..] + b;
      RunConcat(Feed(p, a[0]), a[1..], b);
    }
  }

  /** The variables of CreateUri; the mark is a position in the text. */
  datatype Machine = Machine(mode: Mode, escape: nat, mark: Option<nat>, uri: Uri, crashed: bool)

  /** What the machine means with `i` characters read. */
  ghost function View(m: Machine, text: string, i: nat): Parser
    requires i <= |text| && (m.mark.Some? ==> m.mark.value <= i)
  {
    Parser(m.mode, m.escape, if m.mark.Some? then Some(text[m.mark.value..i]) else None, m.uri, m.crashed)
  }

  ghost predicate Sound(m: Machine, text: string, i: nat) {
    i <= |text| && (m.mark.Some? ==> m.mark.value <= i)
  }

  /** One action of the grammar at position `i`. */
  method Perform(text: string, i: nat, m: Machine, a: Action) returns (r: Machine)
    requires Sound(m, text, i)
    ensures Sound(r, text, i) && View(r, text, i) == Act(View(m, text, i), a)
  {
    r := m;
    if m.crashed || a == Nop {
      return;
    }
    if a == Mark {
      assert text[i..i] == "";
      r := m.(mark := Some(i));
      return;
    }
    if m.mark.None? {
      if a != SaveUserinfo && a != SaveHost {
        r := m.(crashed := true);
      }
      return;
    }
    var s := text[m.mark.value..i];
    match a
    case SaveHost => r := m.(uri := m.uri.(host := s));
    case SaveUserinfo => r := m.(mark := None, uri := m.uri.(userinfo := s));
    case SaveScheme => r := m.(mark := None, uri := m.uri.(scheme := s));
    case SavePath => r := m.(mark := None, uri := m.uri.(path := s));
    case SaveQuery => r := m.(mark := None, uri := m.uri.(query := s));
    case SaveFragment => r := m.(mark := None, uri := m.uri.(fragment := s));
    case SavePort =>
      if i != m.mark.value {
        r := m.(uri := m.uri.(port := Atoi(s)));
      }
      r := r.(mark := None);
  }

  method Take(text: string, i: nat, m: Machine, arc: Arc) returns (r: Machine)
    requires Sound(m, text, i)
    ensures Sound(r, text, i) && View(r, text, i) == Follow(View(m, text, i), arc)
  {
    r := Perform(text, i, m, arc.a);
    r := Perform(text, i, r, arc.b);
    r := Perform(text, i, r, arc.c);
    r := r.(mode := arc.mode);
  }

  /** One turn of the machine. */
  method Turn(text: string, i: nat, m: Machine) returns (r: Machine)
    requires i < |text| && Sound(m, text, i)
    ensures Sound(r, text, i) && View(r, text, i) == Step(View(m, text, i), text[i])
  {
    if m.escape > 0 {
      r := if Hex(text[i]) then m.(escape := m.escape - 1) else m.(mode := Error, escape := 0);
    } else if text[i] == '%' && Escapes(m.mode) {
      r := Take(text, i, m, Inner(m.mode));
      r := r.(escape := 2);
    } else {
      r := Take(text, i, m, Next(m.mode, text[i]));
    }
  }

  lemma ViewMoves(m: Machine, text: string, i: nat)
    requires i < |text| && Sound(m, text, i)
    ensures View(m, text, i + 1) == Extend(View(m, text, i), [text[i]])
  {
    if m.mark.Some? {
      assert text[m.mark.value..i + 1] == text[m.mark.value..i] + [text[i]];
    }
  }

  lemma RunMore(text: string, i: nat)
    requires i < |text|
    ensures Run(START, text[..i + 1]) == Feed(Run(START, text[..i]), text[i])
  {
    assert text[..i + 1] == text[..i] + [text[i]];
    RunConcat(START, text[..i], [text[i]]);
  }

  /** Uri::CreateUri. */
  method CreateUri(text: string) returns (r: Result)
    ensures r == Parsed(text)
  {
    var m := Machine(Begin, 0, None, NO_URI, false);
    var i := 0;
    while i < |text|
      invariant i <= |text| && Sound(m, text, i)
      invariant View(m, text, i) == Run(START, text[..i])
    {
      RunMore(text, i);
      m := Turn(text, i, m);
      ViewMoves(m, text, i);
      i := i + 1;
    }
    assert text[..i] == text;
    r := Finish(text, m);
  }

  /** The end of the text. */
  method Finish(text: string, m: Machine) returns (r: Result)
    requires Sound(m, text, |text|)
    ensures r == Ended(View(m, text, |text|))
  {
    if m.mode.Outside? || m.mode.Begin? || m.mode.Scheme? || m.mode.Colon? || m.mode.Slash? {
      return NotModelled;
    }
    if m.crashed {
      return Crashed;
    }
    if m.escape > 0 || AtEnd(m.mode).None? {
      return Refused;
    }
    var q := Take(text, |text|, m, AtEnd(m.mode).value);
    r := if q.crashed then Crashed else Accepted(q.uri);
  }

  predicate IsDefaultPort(u: Uri) {
    u.port == 0 || (u.scheme == "http" && u.port == 80) || (u.scheme == "https" && u.port == 443)
  }

  function GetPath(u: Uri): string {
    if u.path == "" then "/" else u.path
  }

  function GetPort(u: Uri): int {
    if u.port != 0 then u.port
    else if u.scheme == "http" then 80
    else if u.scheme == "https" then 443
    else u.port
  }

  function Decimal(n: nat): string {
    (if n < 10 then "" else Decimal(n / 10)) + [(n % 10 + '0' as int) as char]
  }

  function PortText(port: int): string {
    if port < 0 then "-" + Decimal(-port) else Decimal(port)
  }

  /** An optional part with its sign. */
  function Optional(sign: char, s: string): string {
    if s == "" then "" else [sign] + s
  }

  function InfoPart(u: Uri): string {
    if u.userinfo == "" then "" else u.userinfo + "@"
  }

  function PortPart(u: Uri): string {
    if IsDefaultPort(u) then "" else ":" + PortText(u.port)
  }

  function FromPath(u: Uri): string {
    GetPath(u) + (Optional('?', u.query) + Optional('#', u.fragment))
  }

  /** Uri::dump, in order. */
  function ToString(u: Uri): string {
    u.scheme + "://" + (InfoPart(u) + (u.host + (PortPart(u) + FromPath(u))))
  }
}
