/**
 What the parser's nested matchers recognise: method names, header names and header values. Each
 matcher is compared with the plain string comparison it stands for.
 */
module HttpMatchers {
  import opened HttpTypes
  import opened Numbers
  import opened Machine
  import opened HttpStep
  import opened HttpInvariant

  // ----- method names

  /** The method the parser has in mind after `i` characters of the name of `m`. */
  function Candidate(m: Method, i: nat): Method {
    match m
    case COPY => if i <= 2 then CONNECT else COPY
    case CHECKOUT => if i <= 1 then CONNECT else CHECKOUT
    case MOVE => if i <= 1 then MKCOL else MOVE
    case MERGE => if i <= 1 then MKCOL else MERGE
    case MSEARCH => if i <= 1 then MKCOL else MSEARCH
    case MKACTIVITY => if i <= 2 then MKCOL else MKACTIVITY
    case SEARCH => if i <= 1 then SUBSCRIBE else SEARCH
    case PROPFIND => if i <= 1 then POST else PROPFIND
    case PROPPATCH => if i <= 1 then POST else if i <= 4 then PROPFIND else PROPPATCH
    case PUT => if i <= 1 then POST else PUT
    case PURGE => if i <= 1 then POST else if i <= 2 then PUT else PURGE
    case PATCH => if i <= 1 then POST else PATCH
    case UNSUBSCRIBE => if i <= 2 then UNLOCK else UNSUBSCRIBE
    case _ => m
  }

  /** The next character of a name leads from one candidate to the next. */
  lemma CandidateNext(m: Method, i: nat)
    requires 1 <= i < |MethodName(m)|
    ensures var ch := MethodName(m)[i];
      var c := Candidate(m, i);
      && ch != '\0' && ch != ' '
      && (if ch == MethodChar(c, i) then Candidate(m, i + 1) == c
          else Candidate(m, i + 1) != c && Alternative(c, i, ch) == Candidate(m, i + 1))
  {}

  lemma CandidateEnds(m: Method)
    ensures Candidate(m, |MethodName(m)|) == m
    ensures 3 <= |MethodName(m)| <= 11
  {}

  lemma CandidateFirst(f: Fields, m: Method)
    ensures |MethodName(m)| > 0 && StartByte(f, MethodName(m)[0]) ==
      Out(f.(flags := NO_FLAGS, contentLength := ULLONG_MAX, verb := Candidate(m, 1), index := 1, state := ReqMethod),
          [Begin], false)
  {}

  // ----- runs of line bytes

  lemma StepLine(f: Fields, ch: char)
    requires f.errno == Ok && LineState(f.state) && f.nread < MAX_HEADER_SIZE
    requires LineByte(f.(nread := f.nread + 1), ch).errno == Ok
    ensures var g := LineByte(f.(nread := f.nread + 1), ch);
      Step(f, ch) == Stepped(g, DataOf(g.state, ch), Continue)
  {
    hide LineByte, DataOf;
    assert DataOf(LineByte(f.(nread := f.nread + 1), ch).state, ch) + [] ==
           DataOf(LineByte(f.(nread := f.nread + 1), ch).state, ch);
  }

  /** One more line byte at the end of a run. */
  lemma RunsLine(f: Fields, s: string, g: Fields, es: seq<Event>, ch: char)
    requires Runs(Step, f, s, g, es)
    requires g.errno == Ok && LineState(g.state) && g.nread < MAX_HEADER_SIZE
    requires LineByte(g.(nread := g.nread + 1), ch).errno == Ok
    ensures var h := LineByte(g.(nread := g.nread + 1), ch);
      Runs(Step, f, s + [ch], h, es + DataOf(h.state, ch))
  {
    hide LineByte, DataOf, Runs, Step;
    StepLine(g, ch);
    var h := LineByte(g.(nread := g.nread + 1), ch);
    RunsOne(Step, g, ch, h, DataOf(h.state, ch));
    RunsThen(Step, f, s, g, es, [ch], h, DataOf(h.state, ch));
  }

  lemma StepStart(f: Fields, ch: char, g: Fields)
    requires f.errno == Ok && f.state.StartReq? && f.nread < MAX_HEADER_SIZE
    requires g.errno == Ok && g.state.ReqMethod? && StartByte(f.(nread := f.nread + 1), ch) == Out(g, [Begin], false)
    ensures Step(f, ch) == Stepped(g, [Begin], Continue)
  {
    hide StartByte;
    assert [] + [Begin] == [Begin];
  }

  lemma {:induction false} MethodPrefixRun(f: Fields, m: Method, i: nat)
    requires f.errno == Ok && f.state.StartReq? && f.nread + i <= MAX_HEADER_SIZE
    requires 1 <= i <= |MethodName(m)|
    ensures Runs(Step, f, MethodName(m)[..i],
              f.(flags := NO_FLAGS, contentLength := ULLONG_MAX, verb := Candidate(m, i), index := i,
                 state := ReqMethod, nread := f.nread + i), [Begin])
  {
    hide MethodName, Candidate, Alternative, Runs, Step, StartByte;
    var g := f.(flags := NO_FLAGS, contentLength := ULLONG_MAX, verb := Candidate(m, 1), index := 1,
                state := ReqMethod, nread := f.nread + 1);
    if i == 1 {
      CandidateFirst(f.(nread := f.nread + 1), m);
      assert MethodName(m)[..1] == [MethodName(m)[0]];
      StepStart(f, MethodName(m)[0], g);
      RunsOne(Step, f, MethodName(m)[0], g, [Begin]);
    } else {
      MethodPrefixRun(f, m, i - 1);
      CandidateNext(m, i - 1);
      CandidateEnds(m);
      assert MethodName(m)[..i] == MethodName(m)[..i - 1] + [MethodName(m)[i - 1]];
      var h := g.(verb := Candidate(m, i - 1), index := i - 1, nread := f.nread + i - 1);
      RunsLine(f, MethodName(m)[..i - 1], h, [Begin], MethodName(m)[i - 1]);
      assert [Begin] + [] == [Begin];
    }
  }

  /** Every method name followed by a space is recognised, and announced once. */
  lemma MethodRun(f: Fields, m: Method)
    requires f.errno == Ok && f.state.StartReq? && f.nread + |MethodName(m)| + 1 <= MAX_HEADER_SIZE
    ensures Runs(Step, f, MethodName(m) + " ",
              f.(flags := NO_FLAGS, contentLength := ULLONG_MAX, verb := m, index := |MethodName(m)| + 1,
                 state := SpacesBeforeUrl, nread := f.nread + |MethodName(m)| + 1), [Begin])
  {
    hide MethodName, Candidate, Alternative, Runs, Step;
    var n := |MethodName(m)|;
    CandidateEnds(m);
    MethodPrefixRun(f, m, n);
    assert MethodName(m)[..n] == MethodName(m);
    var h := f.(flags := NO_FLAGS, contentLength := ULLONG_MAX, verb := m,
               index := n, state := ReqMethod, nread := f.nread + n);
    RunsLine(f, MethodName(m), h, [Begin], ' ');
    assert [Begin] + [] == [Begin];
  }

  /** Conversely, whatever stream leads into a method name, its last bytes are the name so far. */
  lemma {:induction false} MethodSeen(f: Fields, s: string)
    requires f.errno == Ok && Inv(f) && !f.state.ReqMethod?
    ensures var r := Fold(Step, f, s);
      !r.stopped && r.f.state.ReqMethod? ==>
        && r.f.index <= |s| && r.f.index <= |MethodName(r.f.verb)|
        && s[|s| - r.f.index..] == MethodName(r.f.verb)[..r.f.index]
  {
    hide Step, MethodName;
    if s != [] {
      var n := |s| - 1;
      MethodSeen(f, s[..n]);
      var r := Fold(Step, f, s[..n]);
      if !r.stopped {
        RunInv(f, s[..n]);
        MethodStep(r.f, s[n]);
        assert s == s[..n] + [s[n]];
      }
    }
  }

  lemma MatchFieldState(f: Fields, c: char)
    ensures MatchField(f, c).state == f.state
  {}

  lemma MatchValueState(f: Fields, c: char)
    ensures MatchValue(f, c).state == f.state
  {}

  lemma UrlNextState(s: State, ch: char)
    ensures UrlNext(s, ch).Dead? || UrlState(UrlNext(s, ch))
  {
    hide IsUserinfoChar, IsUrlChar, IsAlpha;
  }

  lemma HeaderKeepsOut(g: Fields, ch: char)
    ensures g.state.HeaderField? ==> !FieldByte(g, ch).state.ReqMethod?
    ensures !ValueStartByte(g, ch).state.ReqMethod? || g.state.ReqMethod?
    ensures g.state.HeaderValue? ==> !ValueByte(g, ch).state.ReqMethod?
  {
    hide IsToken, TokenLower, Lower, IsNum, MatchField, MatchValue;
    MatchFieldState(g, TokenLower(ch));
    MatchValueState(g, ch);
  }

  lemma LineKeepsOut(g: Fields, ch: char)
    requires LineState(g.state) && !g.state.ReqMethod?
    ensures !LineByte(g, ch).state.ReqMethod?
  {
    hide FieldByte, ValueStartByte, ValueByte, UrlNext, IsNum;
    HeaderKeepsOut(g, ch);
    UrlNextState(g.state, ch);
    UrlNextState(ServerStart, ch);
  }

  lemma OthersKeepOut(g: Fields, ch: char)
    ensures ChunkState(g.state) ==> !ChunkByte(g, ch).state.ReqMethod?
    ensures !HeaderFieldStartByte(g.(state := HeaderFieldStart), ch).f.state.ReqMethod?
    ensures g.state.HeadersAlmostDone? ==> !HeadersAlmostDoneByte(g, ch).f.state.ReqMethod?
    ensures g.state.HeadersDone? ==> !HeadersDoneByte(g, ch).f.state.ReqMethod?
  {
    hide IsToken, TokenLower, Unhex;
  }

  /** Only a method's first letter or a later one leads into a method name. */
  lemma IntoMethod(g: Fields, ch: char)
    requires g.errno == Ok && !BodyState(g.state)
    requires Control(g, ch).f.errno == Ok && Control(g, ch).f.state.ReqMethod?
    ensures g.state.ReqMethod? || (g.state.StartReq? && StartByte(g, ch).notes != [])
  {
    hide IsAlpha, LineByte, ChunkByte, HeaderFieldStartByte, HeadersAlmostDoneByte, HeadersDoneByte;
    if LineState(g.state) && !g.state.ReqMethod? {
      LineKeepsOut(g, ch);
    }
    OthersKeepOut(g, ch);
    assert g.(state := HeaderFieldStart) == g || !g.state.HeaderFieldStart?;
  }

  lemma FirstLetter(f: Fields, ch: char)
    requires f.errno == Ok && f.state.StartReq? && StartByte(f, ch).notes != []
    ensures var g := StartByte(f, ch).f;
      g.index == 1 && 1 <= |MethodName(g.verb)| && MethodName(g.verb)[..1] == [ch]
  {}

  lemma NextLetter(f: Fields, ch: char)
    requires f.errno == Ok && Inv(f) && f.state.ReqMethod? && MethodByte(f, ch).errno == Ok
    ensures var g := MethodByte(f, ch);
      && g.index == f.index + 1 && f.index <= |MethodName(f.verb)|
      && (if g.state.ReqMethod? then
            && f.index < |MethodName(g.verb)|
            && MethodName(g.verb)[..f.index] == MethodName(f.verb)[..f.index]
            && MethodName(g.verb)[f.index] == ch
          else g.state.SpacesBeforeUrl? && g.verb == f.verb && f.index == |MethodName(f.verb)| && ch == ' ')
  {
    hide MethodName, Alternative;
    NameLength(f.verb);
    NameChars(f.verb);
    if Alternative(f.verb, f.index, ch) != f.verb {
      AlternativeShares(f.verb, f.index, ch);
    }
  }

  lemma NameChars(m: Method)
    ensures forall i :: 0 <= i < |MethodName(m)| ==> MethodName(m)[i] != '\0'
  {}

  /** A request line gets past its method only by a known method name and a space. */
  lemma MethodAccepted(f: Fields, s: string, ch: char)
    requires f.errno == Ok && Inv(f) && !f.state.ReqMethod?
    requires !Fold(Step, f, s).stopped && Fold(Step, f, s).f.state.ReqMethod?
    requires var r := Step(Fold(Step, f, s).f, ch); r.verdict != Reject && !r.f.state.ReqMethod?
    ensures var name := MethodName(Step(Fold(Step, f, s).f, ch).f.verb) + " ";
      |name| <= |s + [ch]| && (s + [ch])[|s + [ch]| - |name|..] == name
  {
    hide Step, MethodName, Inv;
    MethodSeen(f, s);
    RunInv(f, s);
    MethodLeft(Fold(Step, f, s).f, ch);
    var g := Fold(Step, f, s).f;
    assert (s + [ch])[|s| - g.index..] == s[|s| - g.index..] + [ch];
    assert MethodName(g.verb)[..g.index] == MethodName(g.verb);
  }

  lemma MethodLeft(f: Fields, ch: char)
    requires f.errno == Ok && Inv(f) && f.state.ReqMethod?
    requires Step(f, ch).verdict != Reject && !Step(f, ch).f.state.ReqMethod?
    ensures var g := Step(f, ch).f;
      g.state.SpacesBeforeUrl? && g.verb == f.verb && f.index == |MethodName(f.verb)| && ch == ' '
  {
    hide MethodName, MethodByte;
    NextLetter(Counted(f), ch);
  }

  lemma MethodStep(f: Fields, ch: char)
    requires f.errno == Ok && Inv(f)
    ensures var g := Step(f, ch).f;
      Step(f, ch).verdict != Reject && g.state.ReqMethod? ==>
        && 0 < g.index <= |MethodName(g.verb)|
        && (if f.state.ReqMethod? then
              && g.index == f.index + 1 && f.index <= |MethodName(f.verb)|
              && MethodName(g.verb)[..f.index] == MethodName(f.verb)[..f.index]
              && MethodName(g.verb)[f.index] == ch
            else g.index == 1 && MethodName(g.verb)[..1] == [ch])
  {
    var g := Counted(f);
    hide Control, MethodName, StartByte, MethodByte;
    if Step(f, ch).verdict != Reject && Step(f, ch).f.state.ReqMethod? {
      MethodControl(g, ch);
      if g.state.ReqMethod? {
        NextLetter(g, ch);
      } else {
        FirstLetter(g, ch);
      }
    }
  }

  lemma MethodControl(g: Fields, ch: char)
    requires g.errno == Ok && !BodyState(g.state)
    ensures Control(g, ch).f.errno == Ok && Control(g, ch).f.state.ReqMethod? ==>
      if g.state.ReqMethod? then Control(g, ch).f == MethodByte(g, ch)
      else g.state.StartReq? && Control(g, ch).f == StartByte(g, ch).f && StartByte(g, ch).notes != []
  {
    if Control(g, ch).f.errno == Ok && Control(g, ch).f.state.ReqMethod? {
      IntoMethod(g, ch);
    }
    hide MethodByte, StartByte;
  }
}
