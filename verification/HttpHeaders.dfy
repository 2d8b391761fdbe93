/**
 What a header line does to the parser: the nested name and value matchers amount to comparing the
 whole name and the whole value, in lower case, with the eight words they know.
 */
module HttpHeaders {
  import opened HttpTypes
  import opened Numbers
  import opened Machine
  import opened HttpStep
  import opened HttpInvariant
  import opened HttpMatchers

  // ----- words

  function TokenLowered(s: string): (r: string)
    ensures |r| == |s|
    ensures forall i :: 0 <= i < |s| ==> r[i] == TokenLower(s[i])
  {
    seq(|s|, i requires 0 <= i < |s| => TokenLower(s[i]))
  }

  function Lowered(s: string): (r: string)
    ensures |r| == |s|
    ensures forall i :: 0 <= i < |s| ==> r[i] == Lower(s[i])
  {
    seq(|s|, i requires 0 <= i < |s| => Lower(s[i]))
  }

  lemma PrefixNext(s: string, c: char, word: string)
    ensures s + [c] <= word <==> s <= word && |s| < |word| && word[|s|] == c
  {
    if s <= word && |s| < |word| && word[|s|] == c {
      assert word == s + [c] + word[|s| + 1..];
    }
    if s + [c] <= word {
      assert (s + [c])[|s|] == word[|s|];
      assert s == (s + [c])[..|s|] == word[..|s|];
    }
  }

  // ----- header names

  /** The matcher's verdict on a whole name, in lower case. */
  function FieldMatch(lo: string): HeaderState {
    if lo == CONNECTION || lo == PROXY_CONNECTION then Connection
    else if lo == CONTENT_LENGTH then ContentLength
    else if lo == TRANSFER_ENCODING then TransferEncoding
    else if lo == UPGRADE then Upgrade
    else if lo <= CONNECTION then
      if |lo| == 1 then C else if |lo| == 2 then CO else if |lo| == 3 then CON else MatchingConnection
    else if lo <= CONTENT_LENGTH then MatchingContentLength
    else if lo <= PROXY_CONNECTION then MatchingProxyConnection
    else if lo <= TRANSFER_ENCODING then MatchingTransferEncoding
    else if lo <= UPGRADE then MatchingUpgrade
    else General
  }

  /** The five words start differently, except that two of them share "con". */
  lemma WordsApart(lo: string)
    requires lo != ""
    ensures lo <= CONNECTION ==> !(lo <= PROXY_CONNECTION) && !(lo <= TRANSFER_ENCODING) && !(lo <= UPGRADE)
    ensures lo <= CONTENT_LENGTH ==> !(lo <= PROXY_CONNECTION) && !(lo <= TRANSFER_ENCODING) && !(lo <= UPGRADE)
    ensures lo <= PROXY_CONNECTION ==> !(lo <= TRANSFER_ENCODING) && !(lo <= UPGRADE)
    ensures lo <= TRANSFER_ENCODING ==> !(lo <= UPGRADE)
    ensures lo <= CONNECTION && lo <= CONTENT_LENGTH <==> lo <= "con"
    ensures lo <= CONNECTION && |lo| <= 3 ==> lo <= "con"
    ensures lo <= CONTENT_LENGTH && |lo| <= 3 ==> lo <= "con"
  {
    assert lo <= CONNECTION ==> lo[0] == CONNECTION[0] == 'c';
    assert lo <= CONTENT_LENGTH ==> lo[0] == CONTENT_LENGTH[0] == 'c';
    assert lo <= PROXY_CONNECTION ==> lo[0] == PROXY_CONNECTION[0] == 'p';
    assert lo <= TRANSFER_ENCODING ==> lo[0] == TRANSFER_ENCODING[0] == 't';
    assert lo <= UPGRADE ==> lo[0] == UPGRADE[0] == 'u';
    assert |lo| > 3 && lo <= CONNECTION ==> lo[3] == 'n';
    assert |lo| > 3 && lo <= CONTENT_LENGTH ==> lo[3] == 't';
    if lo <= "con" {
      assert "con" <= CONNECTION && "con" <= CONTENT_LENGTH;
    }
  }

  lemma MatchWordNext(f: Fields, lo: string, c: char, word: string, matched: HeaderState)
    requires 0 < |lo| < |word| < 100 && lo <= word && f.index == |lo| - 1
    ensures MatchWord(f, c, word, matched) ==
      f.(index := |lo|,
         headerState :=
           if !(lo + [c] <= word) then General
           else if |lo| + 1 == |word| then matched
           else f.headerState)
    ensures lo + [c] <= word && |lo| + 1 == |word| ==> lo + [c] == word
  {
    PrefixNext(lo, c, word);
  }

  lemma FieldMatchNext(lo: string, c: char)
    requires lo != ""
    ensures var next := FieldMatch(lo + [c]);
      match FieldMatch(lo)
      case C => next == if c == 'o' then CO else General
      case CO => next == if c == 'n' then CON else General
      case CON => next == if c == 'n' then MatchingConnection else if c == 't' then MatchingContentLength else General
      case General => next == General
      case Connection => next == General
      case ContentLength => next == General
      case TransferEncoding => next == General
      case Upgrade => next == General
      case h =>
        var (word, matched) := Matching(h);
        && 0 < |lo| < |word| < 100 && lo <= word
        && next == (if !(lo + [c] <= word) then General else if |lo| + 1 == |word| then matched else h)
  {
    WordsApart(lo);
    WordsApart(lo + [c]);
    PrefixNext(lo, c, CONNECTION);
    PrefixNext(lo, c, PROXY_CONNECTION);
    PrefixNext(lo, c, CONTENT_LENGTH);
    PrefixNext(lo, c, TRANSFER_ENCODING);
    PrefixNext(lo, c, UPGRADE);
  }

  lemma MatchFieldNext(f: Fields, lo: string, c: char)
    requires lo != "" && f.headerState == FieldMatch(lo)
    requires f.headerState != General ==> f.index == |lo| - 1
    ensures var g := MatchField(f, c);
      && g == f.(headerState := FieldMatch(lo + [c]), index := g.index)
      && (g.headerState != General ==> g.index == |lo|)
  {
    FieldMatchNext(lo, c);
    hide MatchWord, FieldMatch;
    var (word, matched) := Matching(f.headerState);
    if word != "" {
      MatchWordNext(f, lo, c, word, matched);
    }
  }

  lemma MatchFieldFirst(ch: char)
    ensures FieldMatch([TokenLower(ch)]) == FieldStartByte(INIT, ch).headerState
  {
    var lo := [TokenLower(ch)];
    PrefixNext([], lo[0], CONNECTION);
    PrefixNext([], lo[0], PROXY_CONNECTION);
    PrefixNext([], lo[0], CONTENT_LENGTH);
    PrefixNext([], lo[0], TRANSFER_ENCODING);
    PrefixNext([], lo[0], UPGRADE);
    assert [] + [lo[0]] == lo;
  }

  /** The states in which a header line may begin. */
  predicate AtFieldStart(s: State) { s.HeaderFieldStart? || s.HeaderValueLws? }

  predicate IsName(name: string) { name != "" && forall c :: c in name ==> IsToken(c) }

  /** The parser after a header name: what the name is, in lower case, decides the matcher's state. */
  ghost predicate AfterName(f: Fields, name: string, g: Fields) {
    && g == f.(state := HeaderField, nread := f.nread + |name|,
               headerState := FieldMatch(TokenLowered(name)), index := g.index)
    && (g.headerState != General ==> g.index == |name| - 1)
  }

  lemma StepFieldStart(f: Fields, ch: char)
    requires f.errno == Ok && AtFieldStart(f.state) && f.nread < MAX_HEADER_SIZE && IsToken(ch)
    ensures Step(f, ch) == Stepped(FieldStartByte(f.(nread := f.nread + 1), ch), [Data(Field, ch)], Continue)
  {
    assert ch != CR && ch != LF && ch != ' ' && ch != '\t';
    hide IsToken, TokenLower;
    assert [Data(Field, ch)] + [] == [Data(Field, ch)];
  }

  lemma {:induction false} NameRun(f: Fields, name: string) returns (g: Fields)
    requires f.errno == Ok && AtFieldStart(f.state) && IsName(name) && f.nread + |name| <= MAX_HEADER_SIZE
    ensures AfterName(f, name, g) && Runs(Step, f, name, g, Bytes(Field, name))
  {
    hide Runs, Step, IsToken, FieldMatch, TokenLower;
    var n := |name| - 1;
    var ch := name[n];
    assert name == name[..n] + [ch];
    if n == 0 {
      g := FieldStartByte(f.(nread := f.nread + 1), ch);
      MatchFieldFirst(ch);
      StepFieldStart(f, ch);
      RunsOne(Step, f, ch, g, [Data(Field, ch)]);
      assert TokenLowered(name) == [TokenLower(ch)];
      assert Bytes(Field, name) == [Data(Field, ch)];
    } else {
      var h := NameRun(f, name[..n]);
      MatchFieldNext(h.(nread := h.nread + 1), TokenLowered(name[..n]), TokenLower(ch));
      assert TokenLowered(name) == TokenLowered(name[..n]) + [TokenLower(ch)];
      g := MatchField(h.(nread := h.nread + 1), TokenLower(ch));
      assert LineByte(h.(nread := h.nread + 1), ch) == g;
      RunsLine(f, name[..n], h, Bytes(Field, name[..n]), ch);
      assert Bytes(Field, name) == Bytes(Field, name[..n]) + [Data(Field, ch)];
    }
  }

  // ----- header values

  /** `v` is the word `w` in any case, followed by nothing but spaces. */
  predicate IsWord(v: string, w: string) {
    && |w| <= |v| && Lowered(v[..|w|]) == w
    && forall i :: |w| <= i < |v| ==> v[i] == ' '
  }

  /** A value matcher's state after the bytes `v`. */
  function WordState(v: string, w: string, matching: HeaderState, matched: HeaderState): HeaderState {
    if IsWord(v, w) then matched else if Lowered(v) <= w then matching else General
  }

  lemma LoweredNext(v: string, c: char)
    ensures Lowered(v + [c]) == Lowered(v) + [Lower(c)]
  {}

  lemma WordStateNext(v: string, c: char, w: string, matching: HeaderState, matched: HeaderState)
    requires v != "" && matching != matched && matching != General && matched != General
    ensures var next := WordState(v + [c], w, matching, matched);
      var s := WordState(v, w, matching, matched);
      && (s == matching || s == matched || s == General)
      && (s == General ==> next == General)
      && (s == matched ==> next == if c == ' ' then matched else General)
      && (s == matching ==>
          && |v| < |w| && Lowered(v) <= w
          && next == (if Lower(c) != w[|v|] then General else if |v| + 1 == |w| then matched else matching))
  {
    LoweredNext(v, c);
    PrefixNext(Lowered(v), Lower(c), w);
    var u := v + [c];
    if |w| <= |v| {
      assert u[..|w|] == v[..|w|];
      assert IsWord(u, w) <==> IsWord(v, w) && c == ' ' by {
        assert u[|v|] == c;
        assert forall i :: |w| <= i < |v| ==> u[i] == v[i];
      }
      if Lowered(v) <= w {
        assert v[..|w|] == v;
      }
    } else if |w| == |u| {
      assert u[..|w|] == u;
    }
  }

  predicate IsDigits(v: string) { forall c :: c in v ==> IsNum(c) || c == ' ' }

  /** The number a Content-Length value stands for; spaces are ignored. */
  function Decimal(v: string): nat
    requires IsDigits(v)
  {
    if v == "" then 0
    else
      var n := |v| - 1;
      assert forall c :: c in v[..n] ==> c in v;
      if v[n] == ' ' then Decimal(v[..n]) else 10 * Decimal(v[..n]) + Digit(v[n])
  }

  /** The lengths the parser accepts: the overflow test looks at the number without its last digit. */
  predicate IsLength(v: string) {
    v != "" && IsNum(v[0]) && IsDigits(v) && Decimal(v) / 10 <= (ULLONG_MAX - 10) / 10
  }

  lemma LengthInit(v: string, c: char)
    requires IsLength(v + [c]) && v != ""
    ensures IsLength(v) && (c == ' ' || IsNum(c))
    ensures Decimal(v + [c]) == if c == ' ' then Decimal(v) else 10 * Decimal(v) + Digit(c)
    ensures c != ' ' ==> Decimal(v) <= (ULLONG_MAX - 10) / 10
  {
    var u := v + [c];
    assert u[..|v|] == v && u[|v|] == c;
    assert forall d :: d in v ==> d in u;
    assert c in u;
  }

  /** A value as the parser delimits it: no line break, no leading white space. */
  predicate IsValue(v: string) {
    && (v != "" ==> v[0] != ' ' && v[0] != '\t')
    && (forall c :: c in v ==> c != CR && c != LF)
  }

  /** The matcher's state after the bytes `v` of the value of a header whose name matched as `name`. */
  function ValueState(name: HeaderState, v: string): HeaderState
    requires v != ""
  {
    match name
    case TransferEncoding => WordState(v, CHUNKED, MatchingChunked, ChunkedValue)
    case Connection =>
      if Lower(v[0]) == 'k' then WordState(v, KEEP_ALIVE, MatchingKeepAlive, KeepAliveValue)
      else if Lower(v[0]) == 'c' then WordState(v, CLOSE, MatchingClose, CloseValue)
      else General
    case ContentLength => ContentLength
    case _ => General
  }

  ghost predicate AfterValue(f: Fields, v: string, g: Fields)
    requires v != ""
  {
    && g == f.(state := HeaderValue, nread := f.nread + |v|, index := g.index,
               headerState := ValueState(f.headerState, v),
               flags := if f.headerState.Upgrade? then f.flags.(upgrade := true) else f.flags,
               contentLength := g.contentLength)
    && (g.headerState.MatchingChunked? || g.headerState.MatchingKeepAlive? || g.headerState.MatchingClose? ==>
        g.index == |v| - 1)
    && (if f.headerState.ContentLength? then IsDigits(v) && g.contentLength == Decimal(v)
        else g.contentLength == f.contentLength)
  }

  lemma WordStateFirst(ch: char, w: string, matching: HeaderState, matched: HeaderState)
    requires |w| > 1
    ensures WordState([ch], w, matching, matched) == if Lower(ch) == w[0] then matching else General
  {
    PrefixNext([], Lower(ch), w);
    assert Lowered([ch]) == [] + [Lower(ch)];
  }

  lemma ValueFirst(f: Fields, ch: char)
    requires f.errno == Ok && f.state.HeaderValueStart? && IsValue([ch])
    requires f.headerState.ContentLength? ==> IsNum(ch)
    ensures AfterValue(f.(nread := f.nread - 1), [ch], ValueStartByte(f, ch))
    requires f.nread > 0
    ensures ValueStartByte(f, ch).errno == Ok
  {
    assert [ch][0] == ch && ch in [ch];
    hide IsWord;
    WordStateFirst(ch, CHUNKED, MatchingChunked, ChunkedValue);
    WordStateFirst(ch, KEEP_ALIVE, MatchingKeepAlive, KeepAliveValue);
    WordStateFirst(ch, CLOSE, MatchingClose, CloseValue);
    if f.headerState.ContentLength? {
      assert [ch][..0] == "";
      assert Decimal("") == 0;
    }
    hide WordState, Lower;
  }

  lemma MatchWordAt(f: Fields, c: char, i: nat, word: string, matched: HeaderState)
    requires 0 < i < |word| < 100 && f.index == i - 1
    ensures MatchWord(f, c, word, matched) ==
      f.(index := i,
         headerState := if c != word[i] then General else if i + 1 == |word| then matched else f.headerState)
  {}

  /** A word matcher on one more byte of the value. */
  lemma MatchValueWord(f: Fields, v: string, c: char, w: string, matching: HeaderState, matched: HeaderState)
    requires v != "" && 1 < |w| < 100
    requires Matching(matching) == (w, matched)
    requires matching.MatchingChunked? || matching.MatchingKeepAlive? || matching.MatchingClose?
    requires f.headerState == WordState(v, w, matching, matched)
    requires f.headerState == matching ==> f.index == |v| - 1
    ensures var g := MatchValue(f, c);
      && g == f.(headerState := WordState(v + [c], w, matching, matched), index := g.index)
      && (g.headerState == matching ==> g.index == |v|)
      && (g.headerState == matching || g.headerState == matched || g.headerState == General)
  {
    hide WordState, Lower, MatchWord;
    WordStateNext(v, c, w, matching, matched);
    if f.headerState == matching {
      MatchWordAt(f, Lower(c), |v|, w, matched);
    }
  }

  lemma ValueNext(f: Fields, v: string, g: Fields, c: char)
    requires v != "" && AfterValue(f, v, g) && f.errno == Ok && IsValue(v + [c])
    requires f.headerState.ContentLength? ==> IsLength(v + [c])
    ensures var h := MatchValue(g.(nread := g.nread + 1), c);
      h.errno == Ok && AfterValue(f, v + [c], h)
  {
    hide WordState, Lower, IsWord;
    assert (v + [c])[0] == v[0];
    var g' := g.(nread := g.nread + 1);
    if f.headerState.TransferEncoding? {
      MatchValueWord(g', v, c, CHUNKED, MatchingChunked, ChunkedValue);
    } else if f.headerState.Connection? && Lower(v[0]) == 'k' {
      MatchValueWord(g', v, c, KEEP_ALIVE, MatchingKeepAlive, KeepAliveValue);
    } else if f.headerState.Connection? && Lower(v[0]) == 'c' {
      MatchValueWord(g', v, c, CLOSE, MatchingClose, CloseValue);
    } else if f.headerState.ContentLength? {
      LengthInit(v, c);
      hide Decimal;
    }
  }

  lemma StepValueStart(f: Fields, ch: char)
    requires f.errno == Ok && f.state.HeaderValueStart? && f.nread < MAX_HEADER_SIZE
    requires ch != ' ' && ch != '\t' && ch != CR && ch != LF
    requires ValueStartByte(f.(nread := f.nread + 1), ch).errno == Ok
    ensures Step(f, ch) == Stepped(ValueStartByte(f.(nread := f.nread + 1), ch), [Data(Value, ch)], Continue)
  {
    StepLine(f, ch);
    hide Step, Lower, IsNum;
  }

  lemma FirstRun(f: Fields, ch: char) returns (g: Fields)
    requires f.errno == Ok && f.state.HeaderValueStart? && f.nread + 1 <= MAX_HEADER_SIZE
    requires IsValue([ch]) && (f.headerState.ContentLength? ==> IsNum(ch))
    ensures AfterValue(f, [ch], g) && Runs(Step, f, [ch], g, Bytes(Value, [ch]))
  {
    hide Runs, Step, ValueState, Decimal, Lower, IsNum, ValueStartByte;
    assert [ch][0] == ch && ch in [ch];
    ValueFirst(f.(nread := f.nread + 1), ch);
    g := ValueStartByte(f.(nread := f.nread + 1), ch);
    StepValueStart(f, ch);
    RunsOne(Step, f, ch, g, [Data(Value, ch)]);
    assert Bytes(Value, [ch]) == [Data(Value, ch)];
    assert f.(nread := f.nread + 1).(nread := f.nread) == f;
  }

  lemma {:induction false} ValueRun(f: Fields, v: string) returns (g: Fields)
    requires f.errno == Ok && f.state.HeaderValueStart? && f.nread + |v| <= MAX_HEADER_SIZE
    requires v != "" && IsValue(v) && (f.headerState.ContentLength? ==> IsLength(v))
    ensures AfterValue(f, v, g) && Runs(Step, f, v, g, Bytes(Value, v))
  {
    hide Runs, Step, ValueState, IsLength, Decimal, Lower, IsNum, AfterValue, MatchValue;
    var n := |v| - 1;
    var ch := v[n];
    assert v == v[..n] + [ch] && ch in v && forall c :: c in v[..n] ==> c in v;
    if n == 0 {
      if f.headerState.ContentLength? {
        LengthFirst(v);
      }
      assert v == [ch];
      g := FirstRun(f, ch);
    } else {
      if f.headerState.ContentLength? {
        LengthInit(v[..n], ch);
      }
      assert v[..n][0] == v[0];
      var h := ValueRun(f, v[..n]);
      AfterValueIs(f, v[..n], h);
      ValueNext(f, v[..n], h, ch);
      g := MatchValue(h.(nread := h.nread + 1), ch);
      RunsValue(f, v[..n], h, Bytes(Value, v[..n]), ch);
      assert Bytes(Value, v) == Bytes(Value, v[..n]) + [Data(Value, ch)];
    }
  }

  lemma LengthFirst(v: string)
    requires IsLength(v)
    ensures IsNum(v[0])
  {}

  lemma RunsValue(f: Fields, s: string, g: Fields, es: seq<Event>, ch: char)
    requires Runs(Step, f, s, g, es)
    requires g.errno == Ok && g.state.HeaderValue? && g.nread < MAX_HEADER_SIZE && ch != CR && ch != LF
    requires MatchValue(g.(nread := g.nread + 1), ch).errno == Ok
    ensures Runs(Step, f, s + [ch], MatchValue(g.(nread := g.nread + 1), ch), es + [Data(Value, ch)])
  {
    hide Runs, Step, MatchValue;
    MatchValueState(g.(nread := g.nread + 1), ch);
    RunsLine(f, s, g, es, ch);
  }

  // ----- header lines

  const CRLF := "\r\n"

  /** A line of a value, with the white space before it and the line break behind it. */
  datatype Line = Line(gap: string, text: string, end: string)

  /**
   A value of several lines is folded; each but the first begins with white space. Behind the name is a
   colon, or a line break, which the parser takes as well: only folded lines can follow then.
   */
  datatype Header = Header(name: string, sep: string, lines: seq<Line>)

  predicate IsGap(s: string) { forall c :: c in s ==> c == ' ' || c == '\t' }

  predicate IsBreak(s: string) { s == CRLF || s == [LF] }

  predicate ValidLine(l: Line) { IsGap(l.gap) && IsValue(l.text) && IsBreak(l.end) }

  /** A value ends with an empty line that has a bare line feed. */
  predicate Follows(l: Line, next: Line) { next.gap != "" && (l.text != "" || l.end == CRLF) }

  predicate ValidLines(lines: seq<Line>) {
    && lines != [] && ValidLine(lines[0])
    && (|lines| > 1 ==> Follows(lines[0], lines[1]) && ValidLines(lines[1..]))
  }

  /** The lines before the first empty one: the parser forgets the header's name there. */
  function Filled(lines: seq<Line>): seq<Line> {
    if lines == [] || lines[0].text == "" then [] else [lines[0]] + Filled(lines[1..])
  }

  predicate ValidSep(sep: string, lines: seq<Line>) {
    if sep == ":" then ValidLines(lines)
    else if sep == CRLF then lines == [] || (ValidLines(lines) && lines[0].gap != "")
    else sep == [LF] && lines == []
  }

  predicate ValidHeader(h: Header) {
    && IsName(h.name) && ValidSep(h.sep, h.lines)
    && (TokenLowered(h.name) == CONTENT_LENGTH ==> forall l :: l in Filled(h.lines) ==> IsLength(l.text))
  }

  /** What the headers read so far say about the message. */
  datatype Meaning = Meaning(flags: Flags, contentLength: nat)

  /** The effect of a value's first line, by plain comparison of the header's name and the line. */
  function WordsMeaning(m: Meaning, name: string, v: string): Meaning {
    if name == UPGRADE then m.(flags := m.flags.(upgrade := true))
    else if name == TRANSFER_ENCODING && IsWord(v, CHUNKED) then m.(flags := m.flags.(chunked := true))
    else if (name == CONNECTION || name == PROXY_CONNECTION) && IsWord(v, KEEP_ALIVE) then
      m.(flags := m.flags.(keepAlive := true))
    else if (name == CONNECTION || name == PROXY_CONNECTION) && IsWord(v, CLOSE) then
      m.(flags := m.flags.(close := true))
    else m
  }

  /** The effect of a header: of a folded value only the first line counts, but of lengths the last one. */
  function HeaderMeaning(m: Meaning, h: Header): Meaning
    requires ValidHeader(h)
  {
    var name, ls := TokenLowered(h.name), Filled(h.lines);
    if ls == [] then m
    else if name == CONTENT_LENGTH then assert ls[|ls| - 1] in ls; m.(contentLength := Decimal(ls[|ls| - 1].text))
    else WordsMeaning(m, name, ls[0].text)
  }

  function RenderLine(l: Line): string { l.gap + l.text + l.end }

  function RenderLines(lines: seq<Line>): string {
    if lines == [] then "" else RenderLine(lines[0]) + RenderLines(lines[1..])
  }

  function TextOf(lines: seq<Line>): string { if lines == [] then "" else lines[0].text + TextOf(lines[1..]) }

  function RenderHeader(h: Header): string { h.name + h.sep + RenderLines(h.lines) }

  function HeaderEvents(h: Header): seq<Event> { Bytes(Field, h.name) + Bytes(Value, TextOf(h.lines)) }

  function MeaningOf(f: Fields): Meaning { Meaning(f.flags, f.contentLength) }

  /** `g` is `f` further on in the header block, with the meaning `m`. */
  ghost predicate InHeaders(f: Fields, g: Fields, n: nat, m: Meaning) {
    g == f.(state := g.state, headerState := g.headerState, index := g.index,
            nread := f.nread + n, flags := m.flags, contentLength := m.contentLength)
  }

  lemma WordFirst(v: string, w: string)
    requires IsWord(v, w) && w != ""
    ensures Lower(v[0]) == w[0]
  {
    assert Lowered(v[..|w|])[0] == Lower(v[..|w|][0]);
  }

  lemma FieldMatchFull(lo: string)
    ensures FieldMatch(lo) == Upgrade <==> lo == UPGRADE
    ensures FieldMatch(lo) == ContentLength <==> lo == CONTENT_LENGTH
    ensures FieldMatch(lo) == TransferEncoding <==> lo == TRANSFER_ENCODING
    ensures FieldMatch(lo) == Connection <==> lo == CONNECTION || lo == PROXY_CONNECTION
  {
    assert |UPGRADE| == 7 && |CONTENT_LENGTH| == 14 && |TRANSFER_ENCODING| == 17;
    assert |CONNECTION| == 10 && |PROXY_CONNECTION| == 16;
  }

  // ----- what one line does

  /** The matcher's state behind a line, on which a folded line goes on. */
  function NextMatcher(name: HeaderState, v: string): HeaderState {
    if v == "" then General else ValueState(name, v)
  }

  /** The effect of one line on the message's meaning, in terms of the matcher. */
  function LineMeaning(name: HeaderState, m: Meaning, v: string): Meaning
    requires v != "" && name.ContentLength? ==> IsLength(v)
  {
    if v == "" then m
    else if name.Upgrade? then m.(flags := m.flags.(upgrade := true))
    else if name.ContentLength? then m.(contentLength := Decimal(v))
    else match ValueState(name, v)
      case ChunkedValue => m.(flags := m.flags.(chunked := true))
      case KeepAliveValue => m.(flags := m.flags.(keepAlive := true))
      case CloseValue => m.(flags := m.flags.(close := true))
      case _ => m
  }

  predicate LinesFit(name: HeaderState, lines: seq<Line>)
    decreases |lines|
  {
    lines == [] ||
      ((lines[0].text != "" && name.ContentLength? ==> IsLength(lines[0].text)) &&
       LinesFit(NextMatcher(name, lines[0].text), lines[1..]))
  }

  function LinesMeaning(name: HeaderState, m: Meaning, lines: seq<Line>): Meaning
    requires LinesFit(name, lines)
    decreases |lines|
  {
    if lines == [] then m
    else LinesMeaning(NextMatcher(name, lines[0].text), LineMeaning(name, m, lines[0].text), lines[1..])
  }

  /** A line break byte after a header name or value. */
  lemma RunsQuiet(f: Fields, s: string, g: Fields, es: seq<Event>, ch: char, h: Fields)
    requires Runs(Step, f, s, g, es) && g.errno == Ok && LineState(g.state) && g.nread < MAX_HEADER_SIZE
    requires h == LineByte(g.(nread := g.nread + 1), ch) && h.errno == Ok && DataOf(h.state, ch) == []
    ensures Runs(Step, f, s + [ch], h, es)
  {
    hide Runs, Step, LineByte, DataOf;
    RunsLine(f, s, g, es, ch);
    assert es + [] == es;
  }

  lemma StepFold(f: Fields, c: char)
    requires f.errno == Ok && f.state.HeaderValueLws? && (c == ' ' || c == '\t') && f.nread < MAX_HEADER_SIZE
    ensures Step(f, c) == Stepped(f.(state := HeaderValueStart, nread := f.nread + 1), [], Continue)
  {
    hide LineByte, ChunkByte, StartByte, HeaderFieldStartByte, HeadersAlmostDoneByte, HeadersDoneByte;
    var none: seq<Event> := [];
    assert none + none == none;
  }

  /** Where the white space before a line of a value may stand; a folded line has some. */
  predicate AtGap(s: State, gap: string) { s.HeaderValueStart? || (s.HeaderValueLws? && gap != "") }

  lemma {:induction false} GapRun(f: Fields, gap: string)
    requires f.errno == Ok && AtGap(f.state, gap) && IsGap(gap) && f.nread + |gap| <= MAX_HEADER_SIZE
    ensures Runs(Step, f, gap, f.(state := HeaderValueStart, nread := f.nread + |gap|), [])
  {
    hide Runs, Step;
    if gap == "" {
      RunsNothing(Step, f);
    } else {
      var n := |gap| - 1;
      assert gap == gap[..n] + [gap[n]] && gap[n] in gap && forall c :: c in gap[..n] ==> c in gap;
      if n == 0 && f.state.HeaderValueLws? {
        StepFold(f, gap[0]);
        RunsOne(Step, f, gap[0], f.(state := HeaderValueStart, nread := f.nread + 1), []);
        assert gap == [gap[0]];
      } else {
        GapRun(f, gap[..n]);
        RunsQuiet(f, gap[..n], f.(state := HeaderValueStart, nread := f.nread + n), [], gap[n],
          f.(state := HeaderValueStart, nread := f.nread + |gap|));
      }
    }
  }

  lemma ValueBreak(f: Fields)
    requires f.errno == Ok && f.state.HeaderValue?
    ensures LineByte(f, CR) == f.(state := HeaderAlmostDone)
    ensures var d := f.(state := HeaderAlmostDone);
      var h := AlmostDoneByte(d, LF);
      h.errno == Ok && h.state.HeaderValueLws? && LineByte(f, LF) == h && LineByte(d, LF) == h
  {}

  /** The line break after a non-empty value, which is where the flags are set. */
  lemma ValueEndRun(f: Fields, s: string, g: Fields, es: seq<Event>, end: string) returns (h: Fields)
    requires Runs(Step, f, s, g, es) && g.errno == Ok && g.state.HeaderValue?
    requires IsBreak(end) && g.nread + |end| <= MAX_HEADER_SIZE
    ensures h == AlmostDoneByte(g.(state := HeaderAlmostDone, nread := g.nread + |end|), LF)
    ensures Runs(Step, f, s + end, h, es)
  {
    hide Runs, Step, LineByte, AlmostDoneByte;
    h := AlmostDoneByte(g.(state := HeaderAlmostDone, nread := g.nread + |end|), LF);
    ValueBreak(g.(nread := g.nread + 1));
    if end == CRLF {
      ValueBreak(g.(nread := g.nread + 2));
      var d := g.(state := HeaderAlmostDone, nread := g.nread + 1);
      RunsQuiet(f, s, g, es, CR, d);
      RunsQuiet(f, s + [CR], d, es, LF, h);
      assert s + [CR] + [LF] == s + CRLF;
    } else {
      RunsQuiet(f, s, g, es, LF, h);
    }
  }

  lemma EmptyEndRun(f: Fields, s: string, g: Fields, es: seq<Event>, end: string) returns (h: Fields)
    requires Runs(Step, f, s, g, es) && g.errno == Ok && g.state.HeaderValueStart?
    requires IsBreak(end) && g.nread + |end| <= MAX_HEADER_SIZE
    ensures h == g.(state := if end == CRLF then HeaderValueLws else HeaderFieldStart,
                    headerState := if end == CRLF then General else g.headerState, index := 0, nread := g.nread + |end|)
    ensures Runs(Step, f, s + end, h, es)
  {
    hide Runs, Step;
    if end == CRLF {
      var d := g.(state := HeaderAlmostDone, headerState := General, index := 0, nread := g.nread + 1);
      RunsQuiet(f, s, g, es, CR, d);
      h := d.(state := HeaderValueLws, nread := d.nread + 1);
      RunsQuiet(f, s + [CR], d, es, LF, h);
      assert s + [CR] + [LF] == s + CRLF;
    } else {
      h := g.(state := HeaderFieldStart, index := 0, nread := g.nread + 1);
      RunsQuiet(f, s, g, es, LF, h);
    }
  }

  /** The parser behind a line. */
  ghost predicate AfterLine(f: Fields, l: Line, g: Fields)
    requires l.text != "" && f.headerState.ContentLength? ==> IsLength(l.text)
  {
    && AtFieldStart(g.state) && (l.text != "" || l.end == CRLF ==> g.state.HeaderValueLws?)
    && InHeaders(f, g, |RenderLine(l)|, LineMeaning(f.headerState, MeaningOf(f), l.text))
    && (g.state.HeaderValueLws? ==> g.headerState == NextMatcher(f.headerState, l.text))
  }

  lemma LineEffect(f: Fields, v: string, g: Fields, n: nat)
    requires v != "" && (f.headerState.ContentLength? ==> IsLength(v))
    requires AfterValue(f, v, g)
    ensures var h := AlmostDoneByte(g.(state := HeaderAlmostDone, nread := g.nread + n), LF);
      && h.state.HeaderValueLws? && h.headerState == NextMatcher(f.headerState, v)
      && InHeaders(f, h, |v| + n, LineMeaning(f.headerState, MeaningOf(f), v))
  {
    hide WordState, Lower, IsWord, Decimal;
  }

  lemma BlankLineRun(f: Fields, l: Line) returns (g: Fields)
    requires f.errno == Ok && AtGap(f.state, l.gap) && f.nread + |RenderLine(l)| <= MAX_HEADER_SIZE
    requires ValidLine(l) && l.text == ""
    ensures AfterLine(f, l, g) && Runs(Step, f, RenderLine(l), g, Bytes(Value, l.text))
  {
    hide Runs, Step, IsValue, IsGap;
    GapRun(f, l.gap);
    g := EmptyEndRun(f, l.gap, f.(state := HeaderValueStart, nread := f.nread + |l.gap|), [], l.end);
    assert l.gap + l.end == RenderLine(l) && Bytes(Value, l.text) == [];
  }

  /** One line of a value is handed over without its white space, and has the effect its matcher gives it. */
  lemma LineRun(f: Fields, l: Line) returns (g: Fields)
    requires f.errno == Ok && AtGap(f.state, l.gap) && f.nread + |RenderLine(l)| <= MAX_HEADER_SIZE
    requires ValidLine(l)
    requires l.text != "" && f.headerState.ContentLength? ==> IsLength(l.text)
    ensures AfterLine(f, l, g) && Runs(Step, f, RenderLine(l), g, Bytes(Value, l.text))
  {
    hide Runs, Step, ValueState, IsValue, IsLength, IsGap, IsBreak, AfterValue, AlmostDoneByte;
    if l.text == "" {
      g := BlankLineRun(f, l);
    } else {
      GapRun(f, l.gap);
      var c := f.(state := HeaderValueStart, nread := f.nread + |l.gap|);
      var v := ValueRun(c, l.text);
      RunsThen(Step, f, l.gap, c, [], l.text, v, Bytes(Value, l.text));
      assert [] + Bytes(Value, l.text) == Bytes(Value, l.text);
      LineEffect(c, l.text, v, |l.end|);
      AfterValueIs(c, l.text, v);
      g := ValueEndRun(f, l.gap + l.text, v, Bytes(Value, l.text), l.end);
    }
  }

  lemma AfterValueIs(f: Fields, v: string, g: Fields)
    requires v != "" && AfterValue(f, v, g)
    ensures g.errno == f.errno && g.state.HeaderValue? && g.nread == f.nread + |v|
  {}

  lemma {:induction false} LinesRun(f: Fields, lines: seq<Line>) returns (g: Fields)
    requires ValidLines(lines) && LinesFit(f.headerState, lines)
    requires f.errno == Ok && AtGap(f.state, lines[0].gap) && f.nread + |RenderLines(lines)| <= MAX_HEADER_SIZE
    ensures AtFieldStart(g.state)
    ensures InHeaders(f, g, |RenderLines(lines)|, LinesMeaning(f.headerState, MeaningOf(f), lines))
    ensures Runs(Step, f, RenderLines(lines), g, Bytes(Value, TextOf(lines)))
    decreases |lines|
  {
    hide Runs, Step, ValidLine, NextMatcher, LineMeaning, RenderLine, IsLength;
    var rest := lines[1..];
    var h := LineRun(f, lines[0]);
    if rest == [] {
      g := h;
      assert RenderLines(lines) == RenderLine(lines[0]) + "" == RenderLine(lines[0]);
      assert TextOf(lines) == lines[0].text + "" == lines[0].text;
    } else {
      assert rest[0] == lines[1];
      g := LinesRun(h, rest);
      RunsThen(Step, f, RenderLine(lines[0]), h, Bytes(Value, lines[0].text), RenderLines(rest), g,
        Bytes(Value, TextOf(rest)));
      assert Bytes(Value, TextOf(lines)) == Bytes(Value, lines[0].text) + Bytes(Value, TextOf(rest));
    }
  }

  // ----- what all lines do, by plain comparison

  /** Behind its first line, a value can only change a length. */
  lemma {:induction false} LaterLines(name: HeaderState, m: Meaning, lines: seq<Line>)
    requires LinesFit(name, lines) && !name.Upgrade? && !name.TransferEncoding? && !name.Connection?
    ensures var ls := Filled(lines);
      && (name.ContentLength? ==> forall l :: l in ls ==> IsLength(l.text))
      && LinesMeaning(name, m, lines) ==
         if ls == [] || !name.ContentLength? then m
         else assert ls[|ls| - 1] in ls; m.(contentLength := Decimal(ls[|ls| - 1].text))
    decreases |lines|
  {
    hide IsLength, Decimal;
    if lines != [] {
      var v := lines[0].text;
      LaterLines(NextMatcher(name, v), LineMeaning(name, m, v), lines[1..]);
    }
  }

  /** The matcher's final state gives the first line's meaning. */
  lemma FirstLine(m: Meaning, lo: string, v: string)
    requires v != "" && lo != CONTENT_LENGTH
    ensures FieldMatch(lo) != ContentLength && LineMeaning(FieldMatch(lo), m, v) == WordsMeaning(m, lo, v)
  {
    FieldMatchFull(lo);
    if IsWord(v, KEEP_ALIVE) {
      WordFirst(v, KEEP_ALIVE);
    }
    if IsWord(v, CLOSE) {
      WordFirst(v, CLOSE);
    }
    assert UPGRADE != TRANSFER_ENCODING;
    hide IsWord, Decimal, Lower, FieldMatch;
  }

  lemma {:induction false} FilledFit(name: HeaderState, lines: seq<Line>)
    requires name.ContentLength? ==> forall l :: l in Filled(lines) ==> IsLength(l.text)
    ensures LinesFit(name, lines)
    decreases |lines|
  {
    hide IsLength;
    if lines != [] {
      if lines[0].text != "" {
        assert Filled(lines) == [lines[0]] + Filled(lines[1..]);
        assert lines[0] in Filled(lines) && forall l :: l in Filled(lines[1..]) ==> l in Filled(lines);
      }
      FilledFit(NextMatcher(name, lines[0].text), lines[1..]);
    }
  }

  /** The nested matchers amount to plain comparison. */
  lemma LinesMeaningIs(m: Meaning, h: Header)
    requires ValidHeader(h)
    ensures var name := FieldMatch(TokenLowered(h.name));
      LinesFit(name, h.lines) && LinesMeaning(name, m, h.lines) == HeaderMeaning(m, h)
  {
    var lo := TokenLowered(h.name);
    var name := FieldMatch(lo);
    FieldMatchFull(lo);
    FilledFit(name, h.lines);
    hide FieldMatch, WordsMeaning, Decimal, IsLength, TokenLowered, IsName, ValidLine;
    if h.lines != [] {
      var v := h.lines[0].text;
      LaterLines(NextMatcher(name, v), LineMeaning(name, m, v), h.lines[1..]);
      if v != "" && lo != CONTENT_LENGTH {
        FirstLine(m, lo, v);
      }
    }
  }

  lemma NameEnds(f: Fields)
    requires f.errno == Ok && f.state.HeaderField?
    ensures LineByte(f, ':') == f.(state := HeaderValueStart)
    ensures LineByte(f, CR) == f.(state := HeaderAlmostDone)
    ensures LineByte(f, LF) == f.(state := HeaderFieldStart)
  {}

  lemma NameBroken(f: Fields)
    requires f.errno == Ok && f.state.HeaderAlmostDone? && FieldState(f.headerState)
    ensures LineByte(f, LF) == f.(state := HeaderValueLws)
  {}

  /** What the name matcher leaves is no matched value. */
  predicate FieldState(h: HeaderState) { !h.ChunkedValue? && !h.KeepAliveValue? && !h.CloseValue? }

  lemma FieldMatchState(lo: string)
    ensures FieldState(FieldMatch(lo))
  {}

  /** Where the separator behind a name leads. */
  function SepState(sep: string): State {
    if sep == ":" then HeaderValueStart else if sep == CRLF then HeaderValueLws else HeaderFieldStart
  }

  /** From the start of a line to what follows the separator. */
  lemma NameSepRun(f: Fields, h: Header) returns (g: Fields)
    requires f.errno == Ok && AtFieldStart(f.state) && IsName(h.name) && f.nread + |h.name| + |h.sep| <= MAX_HEADER_SIZE
    requires h.sep == ":" || IsBreak(h.sep)
    ensures g == f.(state := SepState(h.sep), headerState := FieldMatch(TokenLowered(h.name)), index := g.index,
                    nread := f.nread + |h.name| + |h.sep|)
    ensures Runs(Step, f, h.name + h.sep, g, Bytes(Field, h.name))
  {
    hide Runs, Step, FieldMatch, IsName, TokenLowered, LineByte, FieldState;
    var a := NameRun(f, h.name);
    g := a.(state := SepState(h.sep), nread := a.nread + |h.sep|);
    NameEnds(a.(nread := a.nread + 1));
    if h.sep == CRLF {
      var d := a.(state := HeaderAlmostDone, nread := a.nread + 1);
      RunsQuiet(f, h.name, a, Bytes(Field, h.name), CR, d);
      FieldMatchState(TokenLowered(h.name));
      NameBroken(d.(nread := d.nread + 1));
      RunsQuiet(f, h.name + [CR], d, Bytes(Field, h.name), LF, g);
      assert h.name + [CR] + [LF] == h.name + CRLF;
    } else {
      RunsQuiet(f, h.name, a, Bytes(Field, h.name), h.sep[0], g);
      assert h.sep == [h.sep[0]];
    }
  }

  /** A header is handed over as its name and the text of its value, and has exactly its meaning. */
  lemma HeaderRun(f: Fields, h: Header) returns (g: Fields)
    requires f.errno == Ok && AtFieldStart(f.state) && ValidHeader(h)
    requires f.nread + |RenderHeader(h)| <= MAX_HEADER_SIZE
    ensures AtFieldStart(g.state) && InHeaders(f, g, |RenderHeader(h)|, HeaderMeaning(MeaningOf(f), h))
    ensures Runs(Step, f, RenderHeader(h), g, HeaderEvents(h))
  {
    hide Runs, Step, FieldMatch, HeaderMeaning, IsName, ValidLine, TokenLowered;
    hide LinesMeaning, LinesFit;
    LinesMeaningIs(MeaningOf(f), h);
    var c := NameSepRun(f, h);
    if h.lines == [] {
      g := c;
      NoLines(f, h);
    } else {
      g := LinesRun(c, h.lines);
      RunsThen(Step, f, h.name + h.sep, c, Bytes(Field, h.name), RenderLines(h.lines), g,
        Bytes(Value, TextOf(h.lines)));
    }
  }

  lemma NoLines(f: Fields, h: Header)
    requires ValidHeader(h) && h.lines == []
    ensures RenderHeader(h) == h.name + h.sep && HeaderEvents(h) == Bytes(Field, h.name)
    ensures HeaderMeaning(MeaningOf(f), h) == MeaningOf(f)
  {
    assert h.name + h.sep + "" == h.name + h.sep;
    assert Bytes(Value, "") == [];
  }
}
