/** When CreateUri saves a path from a null mark: exactly for authorities that end with a colon. */
module UriCrash {
  import opened Basics
  import opened Codec
  import opened Uri

  predicate EndsAuthority(c: char) {
    c == '/' || c == '?' || c == '#'
  }

  /** The position of the first double slash, or the length. */
  function DoubleSlash(s: string): (i: nat)
    ensures i <= |s|
  {
    if |s| < 2 then |s| else if s[0] == '/' && s[1] == '/' then 0 else 1 + DoubleSlash(s[1..])
  }

  /** The length of the text before the first '/', '?' or '#'. */
  function UpToEnd(s: string): (i: nat)
    ensures i <= |s|
  {
    if s == "" || EndsAuthority(s[0]) then 0 else 1 + UpToEnd(s[1..])
  }

  /** The authority: what stands between the double slash and the next '/', '?', '#' or the end. */
  function AuthorityOf(text: string): string {
    var i := DoubleSlash(text);
    if i + 2 <= |text| then text[i + 2..][..UpToEnd(text[i + 2..])] else ""
  }

  predicate EndsWithColon(s: string) {
    s != "" && s[|s| - 1] == ':'
  }

  // ---------------------------------------------------------------- following the text

  /** Before the double slash, in the authority, or behind it; `colon` is its last character. */
  datatype Where = Before(slash: bool) | Inside(colon: bool) | Behind(colon: bool)

  function Track(w: Where, c: char): Where {
    match w
    case Before(slash) => if slash && c == '/' then Inside(false) else Before(c == '/')
    case Inside(colon) => if EndsAuthority(c) then Behind(colon) else Inside(c == ':')
    case Behind(colon) => w
  }

  function TrackAll(w: Where, s: string): Where
    decreases |s|
  {
    if s == "" then w else TrackAll(Track(w, s[0]), s[1..])
  }

  lemma {:induction false} TrackBehind(b: bool, s: string)
    ensures TrackAll(Behind(b), s) == Behind(b)
    decreases |s|
  {
    if s != "" {
      TrackBehind(b, s[1..]);
    }
  }

  /** What is known of the colon once some of `s` is read. */
  function LastColon(b: bool, s: string): bool {
    if s == "" then b else s[|s| - 1] == ':'
  }

  lemma {:induction false} TrackInside(b: bool, s: string)
    ensures TrackAll(Inside(b), s) ==
              if UpToEnd(s) == |s| then Inside(LastColon(b, s)) else Behind(LastColon(b, s[..UpToEnd(s)]))
    decreases |s|
  {
    if s != "" {
      if EndsAuthority(s[0]) {
        TrackBehind(b, s[1..]);
      } else {
        TrackInside(s[0] == ':', s[1..]);
        var k := UpToEnd(s[1..]);
        assert s[..1 + k] == [s[0]] + s[1..][..k];
      }
    }
  }

  lemma Tail(s: string, a: nat, b: nat)
    requires a + b <= |s|
    ensures s[a..][b..] == s[a + b..]
  {
  }

  /** The property of TrackBefore. */
  ghost predicate Entered(s: string) {
    var i := DoubleSlash(s);
    if i + 2 <= |s| then TrackAll(Before(false), s) == TrackAll(Inside(false), s[i + 2..])
    else TrackAll(Before(false), s).Before?
  }

  lemma {:induction false} TrackBefore(s: string)
    ensures Entered(s)
    decreases |s|
  {
    if |s| >= 2 && s[0] == '/' && s[1] == '/' {
      Tail(s, 1, 1);
    } else if |s| >= 2 && s[0] == '/' {
      TrackBefore(s[2..]);
      EnteredAfterSlash(s);
    } else if s != "" && s[0] != '/' {
      TrackBefore(s[1..]);
      EnteredAfterOther(s);
    }
  }

  lemma EnteredAfterOther(s: string)
    requires s != "" && s[0] != '/' && Entered(s[1..])
    ensures Entered(s)
  {
    var i := DoubleSlash(s[1..]);
    if i + 2 <= |s[1..]| {
      Tail(s, 1, i + 2);
    }
  }

  lemma EnteredAfterSlash(s: string)
    requires |s| >= 2 && s[0] == '/' && s[1] != '/' && Entered(s[2..])
    ensures Entered(s)
  {
    Tail(s, 1, 1);
    var i := DoubleSlash(s[2..]);
    assert DoubleSlash(s[1..]) == (if |s| == 2 then 1 else 1 + i);
    if i + 2 <= |s[2..]| {
      Tail(s, 2, i + 2);
    }
  }

  /** The tracker knows the last character of the authority. */
  lemma TrackText(text: string)
    ensures var w := TrackAll(Before(false), text); !w.Before? ==> (w.colon <==> EndsWithColon(AuthorityOf(text)))
  {
    var i := DoubleSlash(text);
    TrackBefore(text);
    if i + 2 <= |text| {
      var r := text[i + 2..];
      TrackInside(false, r);
      assert UpToEnd(r) == |r| ==> r[..UpToEnd(r)] == r;
    }
  }

  // ---------------------------------------------------------------- the parser keeps in step

  predicate InAuthority(m: Mode) {
    m.Authority? || m.Name? || m.Separator? || m.Digits? || m.Info? || m.HostStart? || m.Host? || m.PortStart? || m.Port?
  }

  predicate AfterPath(m: Mode) {
    m.QueryStart? || m.Query? || m.FragmentStart? || m.Fragment?
  }

  /** A mark that is needed later is set. */
  predicate MarkKept(p: Parser) {
    && (p.mode.Digits? || p.mode.Port? ==> p.mark.Some? && p.mark.value != "")
    && (p.mode.Query? || p.mode.Fragment? ==> p.mark.Some?)
  }

  /** What the parser has made of text that `w` describes. */
  predicate InStep(p: Parser, w: Where) {
    match p.mode
    case Outside => p.escape == 0
    case Begin => w == Before(false) && !p.crashed && p.escape == 0
    case Scheme => w == Before(false) && !p.crashed && p.escape == 0 && p.mark.Some?
    case Colon => w == Before(false) && !p.crashed && p.escape == 0
    case Slash => w == Before(true) && !p.crashed && p.escape == 0
    case Path => w.Behind? && !p.crashed && (w.colon <==> p.mark.None?)
    case Error => p.escape == 0 && (p.crashed ==> w.Behind? && w.colon)
    case _ =>
      if InAuthority(p.mode) then
        && w.Inside? && !p.crashed && MarkKept(p)
        && (p.mode.Separator? || p.mode.PortStart? ==> w.colon)
        && (w.colon ==> p.mode.Separator? || p.mode.PortStart? || p.mode.Info?)
        && (p.escape > 0 ==> p.mode.Name? || p.mode.Info? || p.mode.Host?)
      else
        && w.Behind? && (p.crashed <==> w.colon) && (!p.crashed ==> MarkKept(p))
        && (p.escape > 0 ==> p.mode.Query? || p.mode.Fragment?)
  }

  lemma StepEscape(p: Parser, w: Where, c: char)
    requires InStep(p, w) && p.escape > 0
    ensures InStep(Feed(p, c), Track(w, c))
  {
  }

  lemma StepPercent(p: Parser, w: Where)
    requires InStep(p, w) && p.escape == 0 && Escapes(p.mode)
    ensures InStep(Feed(p, '%'), Track(w, '%'))
  {
  }

  lemma StepBefore(p: Parser, w: Where, c: char)
    requires InStep(p, w) && p.escape == 0 && (p.mode.Begin? || p.mode.Scheme? || p.mode.Colon? || p.mode.Slash? || p.mode.Error? || p.mode.Outside?)
    ensures InStep(Feed(p, c), Track(w, c))
  {
  }

  lemma StepAuthority(p: Parser, w: Where, c: char)
    requires InStep(p, w) && p.escape == 0 && c != '%' && p.mode == Authority
    ensures InStep(Feed(p, c), Track(w, c))
  {
  }

  lemma StepName(p: Parser, w: Where, c: char)
    requires InStep(p, w) && p.escape == 0 && c != '%' && p.mode == Name
    ensures InStep(Feed(p, c), Track(w, c))
  {
  }

  lemma StepSeparator(p: Parser, w: Where, c: char)
    requires InStep(p, w) && p.escape == 0 && c != '%' && p.mode == Separator
    ensures InStep(Feed(p, c), Track(w, c))
  {
  }

  lemma StepDigits(p: Parser, w: Where, c: char)
    requires InStep(p, w) && p.escape == 0 && c != '%' && p.mode == Digits
    ensures InStep(Feed(p, c), Track(w, c))
  {
  }

  lemma StepInfo(p: Parser, w: Where, c: char)
    requires InStep(p, w) && p.escape == 0 && c != '%' && p.mode == Info
    ensures InStep(Feed(p, c), Track(w, c))
  {
  }

  lemma StepHostStart(p: Parser, w: Where, c: char)
    requires InStep(p, w) && p.escape == 0 && c != '%' && p.mode == HostStart
    ensures InStep(Feed(p, c), Track(w, c))
  {
  }

  lemma StepHost(p: Parser, w: Where, c: char)
    requires InStep(p, w) && p.escape == 0 && c != '%' && p.mode == Host
    ensures InStep(Feed(p, c), Track(w, c))
  {
  }

  lemma StepPortStart(p: Parser, w: Where, c: char)
    requires InStep(p, w) && p.escape == 0 && p.mode == PortStart
    ensures InStep(Feed(p, c), Track(w, c))
  {
  }

  lemma StepPort(p: Parser, w: Where, c: char)
    requires InStep(p, w) && p.escape == 0 && p.mode == Port
    ensures InStep(Feed(p, c), Track(w, c))
  {
  }

  lemma StepPath(p: Parser, w: Where, c: char)
    requires InStep(p, w) && p.escape == 0 && c != '%' && p.mode == Path
    ensures InStep(Feed(p, c), Track(w, c))
  {
  }

  lemma StepAfterPath(p: Parser, w: Where, c: char)
    requires InStep(p, w) && p.escape == 0 && c != '%' && AfterPath(p.mode)
    ensures InStep(Feed(p, c), Track(w, c))
  {
  }

  lemma StepInStep(p: Parser, w: Where, c: char)
    requires InStep(p, w)
    ensures InStep(Feed(p, c), Track(w, c))
  {
    if p.escape > 0 {
      StepEscape(p, w, c);
    } else if c == '%' && Escapes(p.mode) {
      StepPercent(p, w);
    } else {
      match p.mode
      case Authority => StepAuthority(p, w, c);
      case Name => StepName(p, w, c);
      case Separator => StepSeparator(p, w, c);
      case Digits => StepDigits(p, w, c);
      case Info => StepInfo(p, w, c);
      case HostStart => StepHostStart(p, w, c);
      case Host => StepHost(p, w, c);
      case PortStart => StepPortStart(p, w, c);
      case Port => StepPort(p, w, c);
      case Path => StepPath(p, w, c);
      case QueryStart => StepAfterPath(p, w, c);
      case Query => StepAfterPath(p, w, c);
      case FragmentStart => StepAfterPath(p, w, c);
      case Fragment => StepAfterPath(p, w, c);
      case _ => StepBefore(p, w, c);
    }
  }

  lemma {:induction false} RunInStep(p: Parser, w: Where, s: string)
    requires InStep(p, w)
    ensures InStep(Run(p, s), TrackAll(w, s))
    decreases |s|
  {
    if s != "" {
      StepInStep(p, w, s[0]);
      RunInStep(Feed(p, s[0]), Track(w, s[0]), s[1..]);
    }
  }

  /** At the end of the text the parser crashes iff the authority ended with a colon. */
  lemma EndedInStep(p: Parser, w: Where)
    requires InStep(p, w) && (Ended(p).Accepted? || Ended(p) == Crashed)
    ensures !w.Before? && (Ended(p) == Crashed <==> w.colon)
  {
  }

  /**
   * Of the texts that CreateUri does not refuse, it crashes on exactly those whose authority
   * ends with a colon, whatever stands before and behind it.
   */
  lemma CrashesExactly(text: string)
    requires Parsed(text).Accepted? || Parsed(text) == Crashed
    ensures Parsed(text) == Crashed <==> EndsWithColon(AuthorityOf(text))
  {
    RunInStep(START, Before(false), text);
    TrackText(text);
    EndedInStep(Run(START, text), TrackAll(Before(false), text));
  }
}
