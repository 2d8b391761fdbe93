/**
 Request lines: every method, every form of target and every version that the parser takes, with the
 white space and line breaks it allows.
 */
module HttpRequestLine {
  import opened HttpTypes
  import opened Numbers
  import opened Machine
  import opened HttpStep
  import opened HttpMatchers
  import opened HttpHeaders

  // ----- targets

  /** A target: a path or `*`, an absolute one, or, of `CONNECT` only, one that begins with the server. */
  datatype Target =
    | Origin(path: string)
    | Absolute(scheme: string, server: string, tail: string)
    | Authority(server: string, tail: string)

  function RenderTarget(t: Target): string {
    match t
    case Origin(path) => path
    case Absolute(scheme, server, tail) => scheme + "://" + (server + tail)
    case Authority(server, tail) => server + tail
  }

  predicate IsPathChar(c: char) { IsUrlChar(c) || c == '?' || c == '#' }

  predicate IsPath(t: string) { t != "" && (t[0] == '/' || t[0] == '*') && forall c :: c in t ==> IsPathChar(c) }

  predicate IsScheme(s: string) { s != "" && forall c :: c in s ==> IsAlpha(c) }

  predicate IsServerChar(c: char) { IsUserinfoChar(c) || c == '[' || c == ']' || c == '@' }

  predicate IsServer(s: string) {
    && (forall c :: c in s ==> IsServerChar(c))
    && forall i, j :: 0 <= i < |s| && j == i + 1 && j < |s| ==> !(s[i] == '@' && s[j] == '@')
  }

  predicate IsTail(t: string) { (t != "" ==> t[0] == '/' || t[0] == '?') && forall c :: c in t ==> IsPathChar(c) }

  predicate ValidTarget(m: Method, t: Target) {
    match t
    case Origin(path) => m != CONNECT && IsPath(path)
    case Absolute(scheme, server, tail) =>
      m != CONNECT && IsScheme(scheme) && IsServer(server) && IsTail(tail) && server + tail != ""
    case Authority(server, tail) => m == CONNECT && IsServer(server) && IsTail(tail) && server + tail != ""
  }

  /** The URL machine over several characters. */
  function UrlEnd(s: State, t: string): State {
    if t == "" then s else UrlNext(UrlEnd(s, t[..|t| - 1]), t[|t| - 1])
  }

  lemma {:induction false} UrlEndConcat(s: State, a: string, b: string)
    ensures UrlEnd(s, a + b) == UrlEnd(UrlEnd(s, a), b)
  {
    hide UrlNext;
    if b == "" {
      assert a + b == a;
    } else {
      var n := |b| - 1;
      assert (a + b)[..|a| + n] == a + b[..n];
      UrlEndConcat(s, a, b[..n]);
    }
  }

  predicate PathState(s: State) {
    s.Path? || s.QueryStringStart? || s.QueryString? || s.FragmentStart? || s.Fragment?
  }

  /** The states in which a target may end. */
  predicate TargetState(s: State) { PathState(s) || s.Server? || s.ServerWithAt? }

  lemma PathNext(s: State, c: char)
    requires PathState(s) && IsPathChar(c)
    ensures PathState(UrlNext(s, c))
  {}

  lemma {:induction false} PathEnd(s: State, t: string)
    requires PathState(s) && forall c :: c in t ==> IsPathChar(c)
    ensures PathState(UrlEnd(s, t))
  {
    hide UrlNext, IsPathChar, PathState;
    if t != "" {
      assert t[|t| - 1] in t && forall c :: c in t[..|t| - 1] ==> c in t;
      PathEnd(s, t[..|t| - 1]);
      PathNext(UrlEnd(s, t[..|t| - 1]), t[|t| - 1]);
    }
  }

  lemma UrlEndOne(s: State, c: char)
    ensures UrlEnd(s, [c]) == UrlNext(s, c)
  {
    assert [c][..0] == "" && UrlEnd(s, "") == s;
  }

  /** A first character and then path characters. */
  lemma FirstThenPath(s: State, t: string)
    requires t != "" && PathState(UrlNext(s, t[0])) && forall c :: c in t ==> IsPathChar(c)
    ensures PathState(UrlEnd(s, t))
  {
    hide UrlNext, IsPathChar, PathState;
    assert t == [t[0]] + t[1..] && forall c :: c in t[1..] ==> c in t;
    UrlEndConcat(s, [t[0]], t[1..]);
    UrlEndOne(s, t[0]);
    PathEnd(UrlNext(s, t[0]), t[1..]);
  }

  lemma {:induction false} SchemeEnd(s: string)
    requires IsScheme(s)
    ensures UrlEnd(SpacesBeforeUrl, s) == Schema
  {
    var n := |s| - 1;
    assert s[n] in s && forall c :: c in s[..n] ==> c in s;
    if n > 0 {
      SchemeEnd(s[..n]);
    } else {
      assert s[..0] == "";
    }
  }

  lemma SchemeSlashes()
    ensures UrlEnd(Schema, "://") == ServerStart
  {
    assert "://"[..2] == ":/" && ":/"[..1] == ":" && ":"[..0] == "";
    assert UrlEnd(Schema, ":") == SchemaSlash;
    assert UrlEnd(Schema, ":/") == SchemaSlashSlash;
  }

  /** Where the server's characters lead; two `@` in a row are refused. */
  function ServerState(s: string): State {
    if s == "" then ServerStart else if s[|s| - 1] == '@' then ServerWithAt else Server
  }

  lemma ServerCharNext(s: State, c: char)
    requires (s.ServerStart? || s.Server? || s.ServerWithAt?) && IsServerChar(c) && !(s.ServerWithAt? && c == '@')
    ensures UrlNext(s, c) == if c == '@' then ServerWithAt else Server
  {}

  lemma {:induction false} ServerEnd(s: string)
    requires IsServer(s)
    ensures UrlEnd(ServerStart, s) == ServerState(s)
  {
    hide UrlNext, IsServerChar;
    if s != "" {
      var n := |s| - 1;
      assert s[n] in s && forall c :: c in s[..n] ==> c in s;
      ServerEnd(s[..n]);
      assert n > 0 ==> s[..n][n - 1] == s[n - 1];
      ServerCharNext(ServerState(s[..n]), s[n]);
    }
  }

  lemma TailFirst(s: State, c: char)
    requires (s.ServerStart? || s.Server? || s.ServerWithAt?) && (c == '/' || c == '?')
    ensures PathState(UrlNext(s, c))
  {}

  lemma AuthorityEnd(server: string, tail: string)
    requires IsServer(server) && IsTail(tail) && server + tail != ""
    ensures TargetState(UrlEnd(ServerStart, server + tail))
  {
    hide UrlNext, IsPathChar;
    UrlEndConcat(ServerStart, server, tail);
    ServerEnd(server);
    if tail == "" {
      assert server + tail == server;
    } else {
      TailFirst(ServerState(server), tail[0]);
      FirstThenPath(ServerState(server), tail);
    }
  }

  /** Where the URL machine begins, and the targets it accepts from there. */
  function UrlBegin(m: Method): State { if m == CONNECT then ServerStart else SpacesBeforeUrl }

  lemma TargetEnd(m: Method, t: Target)
    requires ValidTarget(m, t)
    ensures RenderTarget(t) != "" && TargetState(UrlEnd(UrlBegin(m), RenderTarget(t)))
  {
    match t
    case Origin(path) =>
      FirstThenPath(SpacesBeforeUrl, path);
    case Absolute(scheme, server, tail) =>
      hide UrlNext;
      UrlEndConcat(SpacesBeforeUrl, scheme + "://", server + tail);
      UrlEndConcat(SpacesBeforeUrl, scheme, "://");
      SchemeEnd(scheme);
      SchemeSlashes();
      AuthorityEnd(server, tail);
    case Authority(server, tail) =>
      AuthorityEnd(server, tail);
  }

  /** The text behind which the URL machine is in state `s`, for the target `t` so far. */
  function UrlText(s: State, t: Target): string {
    if !t.Absolute? then RenderTarget(t)
    else if s.Schema? then t.scheme
    else if s.SchemaSlash? then t.scheme + ":"
    else if s.SchemaSlashSlash? then t.scheme + ":/"
    else RenderTarget(t)
  }

  /** The shape of a target so far, by the state of the URL machine. */
  predicate UrlShape(m: Method, s: State, t: Target) {
    match t
    case Origin(path) => m != CONNECT && PathState(s) && IsPath(path)
    case Absolute(scheme, server, tail) => m != CONNECT && IsScheme(scheme) && ServerShape(s, server, tail)
    case Authority(server, tail) =>
      m == CONNECT && !s.Schema? && !s.SchemaSlash? && !s.SchemaSlashSlash? && ServerShape(s, server, tail)
  }

  predicate ServerShape(s: State, server: string, tail: string) {
    && IsServer(server) && IsTail(tail)
    && if s.Schema? || s.SchemaSlash? || s.SchemaSlashSlash? then server == "" && tail == ""
       else if PathState(s) then tail != ""
       else tail == "" && s == ServerState(server)
  }

  lemma ServerCharTaken(s: State, c: char)
    requires (s.ServerStart? || s.Server? || s.ServerWithAt?) && !UrlNext(s, c).Dead?
    ensures c == '/' || c == '?' || (IsServerChar(c) && !(s.ServerWithAt? && c == '@'))
  {}

  lemma PathCharTaken(s: State, c: char)
    requires PathState(s) && !UrlNext(s, c).Dead?
    ensures IsPathChar(c)
  {}

  lemma ServerMore(server: string, c: char)
    requires IsServer(server) && IsServerChar(c) && !(ServerState(server).ServerWithAt? && c == '@')
    ensures IsServer(server + [c]) && ServerState(server + [c]) == if c == '@' then ServerWithAt else Server
  {
    hide IsServerChar;
    var t := server + [c];
    assert t[|server|] == c && forall i :: 0 <= i < |server| ==> t[i] == server[i];
  }

  /** One more character behind the scheme and its slashes. */
  lemma ServerShapeNext(s: State, server: string, tail: string, c: char) returns (server': string, tail': string)
    requires (s.ServerStart? || s.Server? || s.ServerWithAt? || PathState(s)) && ServerShape(s, server, tail)
    requires !UrlNext(s, c).Dead?
    ensures ServerShape(UrlNext(s, c), server', tail') && server' + tail' == server + tail + [c]
  {
    hide IsServerChar, IsPathChar;
    if PathState(s) {
      PathCharTaken(s, c);
      PathNext(s, c);
      server', tail' := server, tail + [c];
    } else {
      ServerCharTaken(s, c);
      if c == '/' || c == '?' {
        TailFirst(s, c);
        assert IsPathChar(c) by { SlashIsPathChar(c); }
        server', tail' := server, [c];
      } else {
        ServerCharNext(s, c);
        ServerMore(server, c);
        server', tail' := server + [c], "";
      }
    }
    hide UrlNext, IsServer;
  }

  lemma SlashIsPathChar(c: char)
    requires c == '/' || c == '?'
    ensures IsPathChar(c)
  {}

  lemma {:induction false} UrlShaped(m: Method, t: string) returns (target: Target)
    requires t != "" && !UrlEnd(UrlBegin(m), t).Dead?
    ensures var s := UrlEnd(UrlBegin(m), t); UrlShape(m, s, target) && UrlText(s, target) == t
  {
    hide UrlNext, IsServer, IsTail, IsPath, IsScheme;
    var n := |t| - 1;
    var c := t[n];
    assert t == t[..n] + [c];
    if n == 0 {
      target := ShapeFirst(m, c);
    } else {
      NeverBackToLife(UrlBegin(m), t);
      var before := UrlShaped(m, t[..n]);
      target := ShapeNext(m, UrlEnd(UrlBegin(m), t[..n]), before, c);
    }
  }

  lemma ShapeFirst(m: Method, c: char) returns (target: Target)
    requires !UrlNext(UrlBegin(m), c).Dead?
    ensures var s := UrlEnd(UrlBegin(m), [c]); UrlShape(m, s, target) && UrlText(s, target) == [c]
  {
    UrlEndOne(UrlBegin(m), c);
    if m == CONNECT {
      var server, tail := ServerShapeNext(ServerStart, "", "", c);
      target := Authority(server, tail);
      assert "" + "" + [c] == [c];
    } else if c == '/' || c == '*' {
      target := Origin([c]);
    } else {
      target := Absolute([c], "", "");
    }
  }

  lemma ShapeNext(m: Method, s: State, before: Target, c: char) returns (target: Target)
    requires UrlShape(m, s, before) && !UrlNext(s, c).Dead?
    ensures UrlShape(m, UrlNext(s, c), target) && UrlText(UrlNext(s, c), target) == UrlText(s, before) + [c]
  {
    hide IsServer, IsTail, IsServerChar, IsPathChar, IsScheme;
    match before
    case Origin(path) =>
      PathCharTaken(s, c);
      PathNext(s, c);
      hide UrlNext;
      target := Origin(path + [c]);
    case Authority(server, tail) =>
      var server', tail' := ServerShapeNext(s, server, tail, c);
      ServerStates(s, c);
      hide UrlNext;
      target := Authority(server', tail');
    case Absolute(scheme, server, tail) =>
      if s.Schema? || s.SchemaSlash? || s.SchemaSlashSlash? {
        target := SchemeShapeNext(m, s, before, c);
      } else {
        var server', tail' := ServerShapeNext(s, server, tail, c);
        ServerStates(s, c);
        hide UrlNext;
        target := Absolute(scheme, server', tail');
      }
  }

  lemma ServerStates(s: State, c: char)
    requires !UrlNext(s, c).Dead? && !s.SpacesBeforeUrl? && !s.Schema? && !s.SchemaSlash? && !s.SchemaSlashSlash?
    ensures var n := UrlNext(s, c); !n.Schema? && !n.SchemaSlash? && !n.SchemaSlashSlash?
    ensures UrlNext(s, c).ServerStart? ==> false
  {}

  lemma SchemeShapeNext(m: Method, s: State, before: Target, c: char) returns (target: Target)
    requires before.Absolute? && UrlShape(m, s, before) && !UrlNext(s, c).Dead?
    requires s.Schema? || s.SchemaSlash? || s.SchemaSlashSlash?
    ensures UrlShape(m, UrlNext(s, c), target) && UrlText(UrlNext(s, c), target) == UrlText(s, before) + [c]
  {
    hide IsServer, IsTail, IsServerChar, IsPathChar;
    target := if s.Schema? && c != ':' then before.(scheme := before.scheme + [c]) else before;
  }

  /** Conversely, a text behind which a target may end is the rendering of a target. */
  lemma TargetFound(m: Method, t: string) returns (target: Target)
    requires TargetState(UrlEnd(UrlBegin(m), t))
    ensures ValidTarget(m, target) && RenderTarget(target) == t
  {
    hide UrlNext, IsServer, IsTail, IsPath, IsScheme;
    target := UrlShaped(m, t);
  }

  /** The URL machine accepts exactly the targets. */
  lemma TargetExactly(m: Method, t: string)
    ensures TargetState(UrlEnd(UrlBegin(m), t)) <==>
      exists target :: ValidTarget(m, target) && RenderTarget(target) == t
  {
    hide UrlEnd, ValidTarget, RenderTarget, TargetState;
    if TargetState(UrlEnd(UrlBegin(m), t)) {
      var target := TargetFound(m, t);
    }
    forall target | ValidTarget(m, target) && RenderTarget(target) == t
      ensures TargetState(UrlEnd(UrlBegin(m), t))
    {
      TargetEnd(m, target);
    }
  }

  /** Only a character that the URL machine takes goes into the target, and it is handed over. */
  lemma UrlByteTaken(f: Fields, ch: char)
    requires f.errno == Ok && (f.state.SpacesBeforeUrl? || UrlState(f.state))
    requires var s := if f.state.SpacesBeforeUrl? then UrlBegin(f.verb) else f.state; !UrlNext(s, ch).Dead?
    ensures var s := if f.state.SpacesBeforeUrl? then UrlBegin(f.verb) else f.state;
      LineByte(f, ch) == f.(state := UrlNext(s, ch)) && UrlState(UrlNext(s, ch))
  {
    UrlNextState(f.state, ch);
    UrlNextState(UrlBegin(f.verb), ch);
    assert ch != ' ' && ch != CR && ch != LF;
    hide UrlNext;
  }

  lemma NeverBackToLife(s: State, t: string)
    requires !UrlEnd(s, t).Dead? && t != ""
    ensures !UrlEnd(s, t[..|t| - 1]).Dead?
  {}

  lemma {:induction false} TargetRun(f: Fields, t: string)
    requires f.errno == Ok && f.state.SpacesBeforeUrl? && t != "" && !UrlEnd(UrlBegin(f.verb), t).Dead?
    requires f.nread + |t| <= MAX_HEADER_SIZE
    ensures UrlState(UrlEnd(UrlBegin(f.verb), t))
    ensures Runs(Step, f, t, f.(state := UrlEnd(UrlBegin(f.verb), t), nread := f.nread + |t|), Bytes(Url, t))
  {
    hide Runs, Step, UrlNext, LineByte;
    var n := |t| - 1;
    assert t == t[..n] + [t[n]];
    NeverBackToLife(UrlBegin(f.verb), t);
    var g := if n == 0 then f else f.(state := UrlEnd(UrlBegin(f.verb), t[..n]), nread := f.nread + n);
    if n == 0 {
      RunsNothing(Step, f);
    } else {
      TargetRun(f, t[..n]);
    }
    UrlByteTaken(g.(nread := g.nread + 1), t[n]);
    RunsLine(f, t[..n], g, Bytes(Url, t[..n]), t[n]);
    assert Bytes(Url, t) == Bytes(Url, t[..n]) + [Data(Url, t[n])];
  }

  // ----- versions

  /** Without a version the request counts as one of HTTP/0.9. */
  datatype Version = NoVersion | Version(gap: string, major: string, minor: string)

  predicate IsSpaces(s: string) { forall c :: c in s ==> c == ' ' }

  predicate IsNumber(s: string) { s != "" && (forall c :: c in s ==> IsNum(c)) && IsDigits(s) && Decimal(s) <= 999 }

  predicate ValidVersion(v: Version) {
    v.Version? ==> IsSpaces(v.gap) && IsNumber(v.major) && v.major[0] != '0' && IsNumber(v.minor)
  }

  function MajorOf(v: Version): nat
    requires ValidVersion(v)
  {
    if v.Version? then Decimal(v.major) else 0
  }

  function MinorOf(v: Version): nat
    requires ValidVersion(v)
  {
    if v.Version? then Decimal(v.minor) else 9
  }

  function RenderVersion(v: Version): string {
    if v.Version? then " " + v.gap + "HTTP/" + v.major + "." + v.minor else ""
  }

  lemma NumberInit(s: string, c: char)
    requires IsNumber(s + [c])
    ensures IsNum(c) && (s != "" ==> IsNumber(s) && Decimal(s + [c]) == 10 * Decimal(s) + Digit(c))
    ensures s == "" ==> Decimal(s + [c]) == Digit(c)
  {
    var t := s + [c];
    assert t[..|s|] == s && t[|s|] == c && c in t && forall d :: d in s ==> d in t;
  }

  /** Spaces before the target or before the version. */
  lemma {:induction false} SpacesRun(f: Fields, s: string)
    requires f.errno == Ok && (f.state.SpacesBeforeUrl? || f.state.HttpStart?) && IsSpaces(s)
    requires f.nread + |s| <= MAX_HEADER_SIZE
    ensures Runs(Step, f, s, f.(nread := f.nread + |s|), [])
  {
    hide Runs, Step;
    if s == "" {
      RunsNothing(Step, f);
    } else {
      var n := |s| - 1;
      assert s == s[..n] + [s[n]] && s[n] in s && forall c :: c in s[..n] ==> c in s;
      SpacesRun(f, s[..n]);
      RunsQuiet(f, s[..n], f.(nread := f.nread + n), [], s[n], f.(nread := f.nread + |s|));
    }
  }

  /** A byte of the request line that is neither handed over nor announced. */
  lemma Quietly(f: Fields, t: string, i: nat, g: Fields, h: Fields)
    requires i < |t| && Runs(Step, f, t[..i], g, [])
    requires g.errno == Ok && LineState(g.state) && g.nread < MAX_HEADER_SIZE
    requires h == LineByte(g.(nread := g.nread + 1), t[i]) && h.errno == Ok && DataOf(h.state, t[i]) == []
    ensures Runs(Step, f, t[..i + 1], h, [])
  {
    hide Runs, Step, LineByte, DataOf;
    RunsQuiet(f, t[..i], g, [], t[i], h);
    assert t[..i + 1] == t[..i] + [t[i]];
  }

  const HTTP := "HTTP/"

  lemma HttRun(f: Fields)
    requires f.errno == Ok && f.state.HttpStart? && f.nread + 3 <= MAX_HEADER_SIZE
    ensures Runs(Step, f, HTTP[..3], f.(state := HttpHTT, nread := f.nread + 3), [])
  {
    hide Runs, Step, UrlByte;
    RunsNothing(Step, f);
    assert HTTP[..0] == [];
    Quietly(f, HTTP, 0, f, f.(state := HttpH, nread := f.nread + 1));
    Quietly(f, HTTP, 1, f.(state := HttpH, nread := f.nread + 1), f.(state := HttpHT, nread := f.nread + 2));
    Quietly(f, HTTP, 2, f.(state := HttpHT, nread := f.nread + 2), f.(state := HttpHTT, nread := f.nread + 3));
  }

  lemma HttpRun(f: Fields)
    requires f.errno == Ok && f.state.HttpStart? && f.nread + 5 <= MAX_HEADER_SIZE
    ensures Runs(Step, f, HTTP, f.(state := FirstMajor, nread := f.nread + 5), [])
  {
    hide Runs, Step, UrlByte;
    HttRun(f);
    Quietly(f, HTTP, 3, f.(state := HttpHTT, nread := f.nread + 3), f.(state := HttpHTTP, nread := f.nread + 4));
    Quietly(f, HTTP, 4, f.(state := HttpHTTP, nread := f.nread + 4), f.(state := FirstMajor, nread := f.nread + 5));
    assert HTTP[..5] == HTTP;
  }

  lemma MajorByte(f: Fields, s: string, c: char)
    requires f.errno == Ok && IsNumber(s + [c]) && (s == "" ==> c != '0')
    requires if s == "" then f.state.FirstMajor? else f.state.Major? && IsNumber(s) && f.major == Decimal(s)
    ensures LineByte(f, c) == f.(state := State.Major, major := Decimal(s + [c]))
  {
    NumberInit(s, c);
    hide Decimal, UrlByte;
  }

  lemma {:induction false} MajorRun(f: Fields, s: string)
    requires f.errno == Ok && f.state.FirstMajor? && IsNumber(s) && s[0] != '0' && f.nread + |s| <= MAX_HEADER_SIZE
    ensures Runs(Step, f, s, f.(state := State.Major, major := Decimal(s), nread := f.nread + |s|), [])
  {
    hide Runs, Step, Decimal, IsNumber, LineByte;
    NumberNonEmpty(s);
    var n := |s| - 1;
    assert s == s[..n] + [s[n]];
    NumberInit(s[..n], s[n]);
    var g := if n == 0 then f else f.(state := State.Major, major := Decimal(s[..n]), nread := f.nread + n);
    if n == 0 {
      RunsNothing(Step, f);
    } else {
      MajorRun(f, s[..n]);
    }
    MajorByte(g.(nread := g.nread + 1), s[..n], s[n]);
    RunsQuiet(f, s[..n], g, [], s[n], f.(state := State.Major, major := Decimal(s), nread := f.nread + |s|));
  }

  lemma NumberNonEmpty(s: string)
    requires IsNumber(s)
    ensures s != ""
  {}

  lemma MinorByte(f: Fields, s: string, c: char)
    requires f.errno == Ok && IsNumber(s + [c])
    requires if s == "" then f.state.FirstMinor? else f.state.Minor? && IsNumber(s) && f.minor == Decimal(s)
    ensures LineByte(f, c) == f.(state := State.Minor, minor := Decimal(s + [c]))
  {
    NumberInit(s, c);
    hide Decimal, UrlByte;
  }

  lemma {:induction false} MinorRun(f: Fields, s: string)
    requires f.errno == Ok && f.state.FirstMinor? && IsNumber(s) && f.nread + |s| <= MAX_HEADER_SIZE
    ensures Runs(Step, f, s, f.(state := State.Minor, minor := Decimal(s), nread := f.nread + |s|), [])
  {
    hide Runs, Step, Decimal, IsNumber, LineByte;
    NumberNonEmpty(s);
    var n := |s| - 1;
    assert s == s[..n] + [s[n]];
    NumberInit(s[..n], s[n]);
    var g := if n == 0 then f else f.(state := State.Minor, minor := Decimal(s[..n]), nread := f.nread + n);
    if n == 0 {
      RunsNothing(Step, f);
    } else {
      MinorRun(f, s[..n]);
    }
    MinorByte(g.(nread := g.nread + 1), s[..n], s[n]);
    RunsQuiet(f, s[..n], g, [], s[n], f.(state := State.Minor, minor := Decimal(s), nread := f.nread + |s|));
  }

  // ----- request lines

  /** A request up to its headers; empty lines may come first, and more than one space in its gaps. */
  datatype RequestLine = RequestLine(
    lead: string, verb: Method, gap: string, target: Target, version: Version, end: string)

  predicate IsLead(s: string) { forall c :: c in s ==> c == CR || c == LF }

  predicate ValidRequestLine(l: RequestLine) {
    IsLead(l.lead) && IsSpaces(l.gap) && ValidTarget(l.verb, l.target) && ValidVersion(l.version) && IsBreak(l.end)
  }

  function RenderRequestLine(l: RequestLine): string {
    l.lead + (MethodName(l.verb) + " ") + l.gap + RenderTarget(l.target) + RenderVersion(l.version) + l.end
  }

  lemma StepLead(f: Fields, c: char)
    requires f.errno == Ok && f.state.StartReq? && (c == CR || c == LF) && f.nread < MAX_HEADER_SIZE
    ensures Step(f, c) == Stepped(f.(nread := f.nread + 1), [], Continue)
  {
    var none: seq<Event> := [];
    assert none + none == none;
  }

  lemma {:induction false} LeadRun(f: Fields, s: string)
    requires f.errno == Ok && f.state.StartReq? && IsLead(s) && f.nread + |s| <= MAX_HEADER_SIZE
    ensures Runs(Step, f, s, f.(nread := f.nread + |s|), [])
  {
    hide Runs, Step;
    if s == "" {
      RunsNothing(Step, f);
    } else {
      var n := |s| - 1;
      assert s == s[..n] + [s[n]] && s[n] in s && forall c :: c in s[..n] ==> c in s;
      LeadRun(f, s[..n]);
      var g := f.(nread := f.nread + n);
      StepLead(g, s[n]);
      RunsOne(Step, g, s[n], f.(nread := f.nread + |s|), []);
      RunsThen(Step, f, s[..n], g, [], [s[n]], f.(nread := f.nread + |s|), []);
      var none: seq<Event> := [];
      assert none + none == none;
    }
  }

  lemma AfterTarget(f: Fields)
    requires f.errno == Ok && TargetState(f.state)
    ensures LineByte(f, ' ') == f.(state := HttpStart)
    ensures LineByte(f, CR) == f.(major := 0, minor := 9, state := ReqLineAlmostDone)
    ensures LineByte(f, LF) == f.(major := 0, minor := 9, state := HeaderFieldStart)
  {}

  lemma NumberEnds(f: Fields)
    requires f.errno == Ok
    ensures f.state.Major? ==> LineByte(f, '.') == f.(state := FirstMinor)
    ensures f.state.Minor? ==> LineByte(f, CR) == f.(state := ReqLineAlmostDone)
    ensures f.state.Minor? ==> LineByte(f, LF) == f.(state := HeaderFieldStart)
    ensures f.state.ReqLineAlmostDone? ==> LineByte(f, LF) == f.(state := HeaderFieldStart)
  {
    hide UrlByte;
  }

  lemma NumbersRun(f: Fields, major: string, minor: string)
    requires f.errno == Ok && f.state.FirstMajor? && IsNumber(major) && major[0] != '0' && IsNumber(minor)
    requires f.nread + |major| + 1 + |minor| <= MAX_HEADER_SIZE
    ensures Runs(Step, f, major + "." + minor,
      f.(state := State.Minor, major := Decimal(major), minor := Decimal(minor),
         nread := f.nread + |major| + 1 + |minor|), [])
  {
    hide Runs, Step, Decimal, LineByte;
    MajorRun(f, major);
    var g := f.(state := State.Major, major := Decimal(major), nread := f.nread + |major|);
    var h := g.(state := FirstMinor, nread := g.nread + 1);
    NumberEnds(g.(nread := g.nread + 1));
    RunsQuiet(f, major, g, [], '.', h);
    MinorRun(h, minor);
    RunsThen(Step, f, major + ".", h, [], minor,
      h.(state := State.Minor, minor := Decimal(minor), nread := h.nread + |minor|), []);
    var none: seq<Event> := [];
    assert none + none == none;
  }

  lemma GapHttpRun(f: Fields, gap: string)
    requires f.errno == Ok && TargetState(f.state) && IsSpaces(gap) && f.nread + 1 + |gap| + 5 <= MAX_HEADER_SIZE
    ensures Runs(Step, f, " " + gap + HTTP, f.(state := FirstMajor, nread := f.nread + 1 + |gap| + 5), [])
  {
    hide Runs, Step, LineByte;
    var g := f.(state := HttpStart, nread := f.nread + 1);
    AfterTarget(f.(nread := f.nread + 1));
    RunsNothing(Step, f);
    RunsQuiet(f, [], f, [], ' ', g);
    assert [] + [' '] == " ";
    SpacesRun(g, gap);
    HttpRun(g.(nread := g.nread + |gap|));
    RunsThen(Step, f, " ", g, [], gap, g.(nread := g.nread + |gap|), []);
    RunsThen(Step, f, " " + gap, g.(nread := g.nread + |gap|), [], HTTP,
      f.(state := FirstMajor, nread := f.nread + 1 + |gap| + 5), []);
    var none: seq<Event> := [];
    assert none + none == none;
  }

  /** The line break at the end of the request line. */
  lemma BreakRun(f: Fields, s: string, g: Fields, es: seq<Event>, end: string, h: Fields)
    requires Runs(Step, f, s, g, es) && g.errno == Ok && IsBreak(end) && g.nread + |end| <= MAX_HEADER_SIZE
    requires g.state.Minor? || TargetState(g.state)
    requires h == if g.state.Minor? then g.(state := HeaderFieldStart, nread := g.nread + |end|)
                  else g.(state := HeaderFieldStart, major := 0, minor := 9, nread := g.nread + |end|)
    ensures Runs(Step, f, s + end, h, es)
  {
    hide Runs, Step, LineByte;
    var n := g.(nread := g.nread + 1);
    NumberEnds(n);
    if TargetState(g.state) {
      AfterTarget(n);
    }
    if end == CRLF {
      var d := h.(state := ReqLineAlmostDone, nread := g.nread + 1);
      RunsQuiet(f, s, g, es, CR, d);
      NumberEnds(d.(nread := d.nread + 1));
      RunsQuiet(f, s + [CR], d, es, LF, h);
      assert s + [CR] + [LF] == s + CRLF;
    } else {
      RunsQuiet(f, s, g, es, LF, h);
    }
  }

  lemma TargetAlive(s: State)
    requires TargetState(s)
    ensures !s.Dead? && !s.Minor?
  {}

  lemma NumberedRun(f: Fields, v: Version)
    requires f.errno == Ok && TargetState(f.state) && v.Version? && ValidVersion(v)
    requires f.nread + |RenderVersion(v)| <= MAX_HEADER_SIZE
    ensures Runs(Step, f, RenderVersion(v),
      f.(state := State.Minor, major := MajorOf(v), minor := MinorOf(v), nread := f.nread + |RenderVersion(v)|), [])
  {
    hide Runs, Step, Decimal, TargetState, IsNumber, IsSpaces;
    assert " " + v.gap + HTTP + (v.major + "." + v.minor) == RenderVersion(v);
    GapHttpRun(f, v.gap);
    var g := f.(state := FirstMajor, nread := f.nread + 1 + |v.gap| + 5);
    NumbersRun(g, v.major, v.minor);
    RunsThen(Step, f, " " + v.gap + HTTP, g, [], v.major + "." + v.minor,
      f.(state := State.Minor, major := MajorOf(v), minor := MinorOf(v), nread := f.nread + |RenderVersion(v)|), []);
    var none: seq<Event> := [];
    assert none + none == none;
  }

  /** The end of the request line, behind its target. */
  lemma VersionRun(f: Fields, v: Version, end: string)
    requires f.errno == Ok && TargetState(f.state) && ValidVersion(v) && IsBreak(end)
    requires f.nread + |RenderVersion(v)| + |end| <= MAX_HEADER_SIZE
    ensures Runs(Step, f, RenderVersion(v) + end,
      f.(state := HeaderFieldStart, major := MajorOf(v), minor := MinorOf(v),
         nread := f.nread + |RenderVersion(v)| + |end|), [])
  {
    hide Runs, Step, Decimal, TargetState;
    if v.NoVersion? {
      TargetAlive(f.state);
      RunsNothing(Step, f);
      BreakRun(f, "", f, [], end, f.(state := HeaderFieldStart, major := 0, minor := 9, nread := f.nread + |end|));
    } else {
      hide RenderVersion, ValidVersion, MajorOf, MinorOf;
      NumberedRun(f, v);
      var h := f.(state := State.Minor, major := MajorOf(v), minor := MinorOf(v),
                  nread := f.nread + |RenderVersion(v)|);
      BreakRun(f, RenderVersion(v), h, [], end, h.(state := HeaderFieldStart, nread := h.nread + |end|));
    }
  }

  lemma BeginRun(f: Fields, l: RequestLine)
    requires f.errno == Ok && f.state.StartReq? && IsLead(l.lead) && IsSpaces(l.gap)
    requires f.nread + |l.lead| + |MethodName(l.verb)| + 1 + |l.gap| <= MAX_HEADER_SIZE
    ensures Runs(Step, f, l.lead + (MethodName(l.verb) + " ") + l.gap,
      f.(flags := NO_FLAGS, contentLength := ULLONG_MAX, verb := l.verb, index := |MethodName(l.verb)| + 1,
         state := SpacesBeforeUrl, nread := f.nread + |l.lead| + |MethodName(l.verb)| + 1 + |l.gap|), [Begin])
  {
    hide Runs, Step, MethodName;
    LeadRun(f, l.lead);
    var g := f.(nread := f.nread + |l.lead|);
    MethodRun(g, l.verb);
    var h := g.(flags := NO_FLAGS, contentLength := ULLONG_MAX, verb := l.verb, index := |MethodName(l.verb)| + 1,
                state := SpacesBeforeUrl, nread := g.nread + |MethodName(l.verb)| + 1);
    RunsThen(Step, f, l.lead, g, [], MethodName(l.verb) + " ", h, [Begin]);
    assert [] + [Begin] == [Begin] && [Begin] + [] == [Begin];
    SpacesRun(h, l.gap);
    RunsThen(Step, f, l.lead + (MethodName(l.verb) + " "), h, [Begin], l.gap, h.(nread := h.nread + |l.gap|), []);
  }

  /** A request line is read with its method, its target, byte by byte, and its version. */
  lemma RequestLineRun(f: Fields, l: RequestLine) returns (g: Fields)
    requires f.errno == Ok && f.state.StartReq? && ValidRequestLine(l)
    requires f.nread + |RenderRequestLine(l)| <= MAX_HEADER_SIZE
    ensures g == f.(state := HeaderFieldStart, flags := NO_FLAGS, contentLength := ULLONG_MAX, verb := l.verb,
                    index := g.index, major := MajorOf(l.version), minor := MinorOf(l.version),
                    nread := f.nread + |RenderRequestLine(l)|)
    ensures Runs(Step, f, RenderRequestLine(l), g, [Begin] + Bytes(Url, RenderTarget(l.target)))
  {
    hide Runs, Step, MethodName, ValidTarget, RenderTarget, RenderVersion, Decimal, ValidVersion, MajorOf, MinorOf;
    var begin := l.lead + (MethodName(l.verb) + " ") + l.gap;
    BeginRun(f, l);
    var a := f.(flags := NO_FLAGS, contentLength := ULLONG_MAX, verb := l.verb, index := |MethodName(l.verb)| + 1,
                state := SpacesBeforeUrl, nread := f.nread + |begin|);
    TargetEnd(l.verb, l.target);
    var t := RenderTarget(l.target);
    TargetAlive(UrlEnd(UrlBegin(l.verb), t));
    TargetRun(a, t);
    var b := a.(state := UrlEnd(UrlBegin(l.verb), t), nread := a.nread + |t|);
    RunsThen(Step, f, begin, a, [Begin], t, b, Bytes(Url, t));
    g := TargetThenVersion(f, l, begin + t, b, [Begin] + Bytes(Url, t));
  }

  lemma TargetThenVersion(f: Fields, l: RequestLine, s: string, b: Fields, es: seq<Event>) returns (g: Fields)
    requires Runs(Step, f, s, b, es) && b.errno == Ok && TargetState(b.state)
    requires ValidVersion(l.version) && IsBreak(l.end)
    requires b.nread + |RenderVersion(l.version)| + |l.end| <= MAX_HEADER_SIZE
    ensures g == b.(state := HeaderFieldStart, major := MajorOf(l.version), minor := MinorOf(l.version),
                    nread := b.nread + |RenderVersion(l.version)| + |l.end|)
    ensures Runs(Step, f, s + RenderVersion(l.version) + l.end, g, es)
  {
    hide Runs, Step, RenderVersion, Decimal, ValidVersion, MajorOf, MinorOf, TargetState;
    VersionRun(b, l.version, l.end);
    g := b.(state := HeaderFieldStart, major := MajorOf(l.version), minor := MinorOf(l.version),
            nread := b.nread + |RenderVersion(l.version)| + |l.end|);
    RunsThen(Step, f, s, b, es, RenderVersion(l.version) + l.end, g, []);
    assert es + [] == es;
    assert s + (RenderVersion(l.version) + l.end) == s + RenderVersion(l.version) + l.end;
  }
}
