/**
 What holds of the parser between two bytes of any stream, and why none of its internal assertions
 can fail.
 */
module HttpInvariant {
  import opened HttpTypes
  import opened Numbers
  import opened Machine
  import opened HttpStep

  /** Where the header-name matcher can be inside a name. */
  predicate FieldMatcher(h: HeaderState, index: nat) {
    match h
    case General => index <= |TRANSFER_ENCODING|
    case C => index == 0
    case CO => index == 1
    case CON => index == 2
    case MatchingConnection => 3 <= index < |CONNECTION| - 1
    case MatchingProxyConnection => index < |PROXY_CONNECTION| - 1
    case MatchingContentLength => 3 <= index < |CONTENT_LENGTH| - 1
    case MatchingTransferEncoding => index < |TRANSFER_ENCODING| - 1
    case MatchingUpgrade => index < |UPGRADE| - 1
    case Connection => index == |CONNECTION| - 1 || index == |PROXY_CONNECTION| - 1
    case ContentLength => index == |CONTENT_LENGTH| - 1
    case TransferEncoding => index == |TRANSFER_ENCODING| - 1
    case Upgrade => index == |UPGRADE| - 1
    case _ => false
  }

  /** Where the header-value matcher can be inside a value: never in `Connection` or `TransferEncoding`. */
  predicate ValueMatcher(h: HeaderState, index: nat, contentLength: nat) {
    match h
    case General => index <= |KEEP_ALIVE|
    case ContentLength => contentLength < ULLONG_MAX && index == 0
    case MatchingChunked => index < |CHUNKED| - 1
    case MatchingKeepAlive => index < |KEEP_ALIVE| - 1
    case MatchingClose => index < |CLOSE| - 1
    case ChunkedValue => index == |CHUNKED| - 1
    case KeepAliveValue => index == |KEEP_ALIVE| - 1
    case CloseValue => index == |CLOSE| - 1
    case _ => false
  }

  /** What holds in every state. */
  predicate Basic(f: Fields) {
    && f.nread <= MAX_HEADER_SIZE
    && f.contentLength <= ULLONG_MAX
    && f.major <= 999 && f.minor <= 999
    && (f.flags.trailing ==> f.flags.chunked)
  }

  /** What holds in the particular state. The states `HeadersDone` and `MessageDone` never outlive a byte. */
  predicate Local(f: Fields) {
    match f.state
    case ReqMethod => 1 <= f.index <= |MethodName(f.verb)|
    case HeaderField => FieldMatcher(f.headerState, f.index)
    case HeaderValue => ValueMatcher(f.headerState, f.index, f.contentLength)
    case ChunkSizeStart => f.flags.chunked && f.nread == 0
    case ChunkSize => f.flags.chunked && f.contentLength < ULLONG_MAX
    case ChunkParameters => f.flags.chunked && f.contentLength < ULLONG_MAX
    case ChunkSizeAlmostDone => f.flags.chunked && f.contentLength < ULLONG_MAX
    case ChunkData => f.flags.chunked && 0 < f.contentLength < ULLONG_MAX
    case ChunkDataAlmostDone => f.flags.chunked && f.contentLength == 0
    case ChunkDataDone => f.flags.chunked
    case BodyIdentity => 0 < f.contentLength < ULLONG_MAX
    case HeadersDone => false
    case MessageDone => false
    case _ => true
  }

  predicate Inv(f: Fields) { Basic(f) && Local(f) }

  /** The assertions inside the `switch`, at the state in which the byte is handled. */
  predicate AssertionsHold(g: Fields) {
    && (g.state.HeaderField? ==> FieldMatcher(g.headerState, g.index))
    && (g.state.HeaderValue? ==> !g.headerState.Connection? && !g.headerState.TransferEncoding?)
    && (g.state.BodyIdentity? ==> g.contentLength != 0 && g.contentLength != ULLONG_MAX)
    && (g.state.ChunkSizeStart? ==> g.nread == 1)
    && (ChunkState(g.state) || g.state.ChunkData? ==> g.flags.chunked)
    && (g.state.ChunkData? ==> g.contentLength != 0 && g.contentLength != ULLONG_MAX)
    && (g.state.ChunkDataAlmostDone? ==> g.contentLength == 0)
  }

  lemma CountedAsserts(f: Fields)
    requires f.errno == Ok && Inv(f) && Counted(f).errno == Ok
    ensures AssertionsHold(Counted(f))
  {}

  /** Switching methods keeps every character read so far. */
  lemma AlternativeShares(m: Method, i: nat, ch: char)
    requires 1 <= i <= |MethodName(m)| && Alternative(m, i, ch) != m
    ensures var a := MethodName(Alternative(m, i, ch));
      i < |a| && a[..i] == MethodName(m)[..i] && a[i] == ch
  {}

  lemma MethodInv(f: Fields, ch: char)
    requires f.errno == Ok && Inv(f) && f.state.ReqMethod?
    ensures MethodByte(f, ch).errno == Ok ==> Inv(MethodByte(f, ch))
  {
    hide MethodName, Alternative;
    NameLength(f.verb);
    if Alternative(f.verb, f.index, ch) != f.verb {
      AlternativeShares(f.verb, f.index, ch);
      NameLength(Alternative(f.verb, f.index, ch));
    }
  }

  lemma NameLength(m: Method)
    ensures 3 <= |MethodName(m)| <= 11
  {}

  /** One more matched character: the index moves by one and stays below the word's length while matching. */
  lemma MatchWordShape(f: Fields, c: char, word: string, matched: HeaderState)
    requires 0 < |word| < 100 && f.index < |word| - 1
    ensures var g := MatchWord(f, c, word, matched);
      || g == f.(index := f.index + 1, headerState := General)
      || (g == f.(index := f.index + 1, headerState := matched) && f.index + 1 == |word| - 1)
      || (g == f.(index := f.index + 1) && f.index + 1 < |word| - 1)
  {}

  /** The matcher a header state is in the middle of, with its full match; empty if there is none. */
  function Matching(h: HeaderState): (string, HeaderState) {
    match h
    case MatchingConnection => (CONNECTION, Connection)
    case MatchingProxyConnection => (PROXY_CONNECTION, Connection)
    case MatchingContentLength => (CONTENT_LENGTH, ContentLength)
    case MatchingTransferEncoding => (TRANSFER_ENCODING, TransferEncoding)
    case MatchingUpgrade => (UPGRADE, Upgrade)
    case MatchingChunked => (CHUNKED, ChunkedValue)
    case MatchingKeepAlive => (KEEP_ALIVE, KeepAliveValue)
    case MatchingClose => (CLOSE, CloseValue)
    case _ => ("", h)
  }

  lemma MatchFieldInv(f: Fields, c: char)
    requires FieldMatcher(f.headerState, f.index)
    ensures var g := MatchField(f, c);
      FieldMatcher(g.headerState, g.index) && g == f.(headerState := g.headerState, index := g.index)
  {
    hide MatchWord;
    var (word, matched) := Matching(f.headerState);
    if word != "" {
      MatchWordShape(f, c, word, matched);
    }
  }

  lemma FieldInv(f: Fields, ch: char)
    requires f.errno == Ok && Inv(f) && f.state.HeaderField?
    ensures FieldByte(f, ch).errno == Ok ==> Inv(FieldByte(f, ch))
  {
    hide MatchField, IsToken, TokenLower;
    if IsToken(ch) {
      MatchFieldInv(f, TokenLower(ch));
    }
  }

  lemma ValueStartInv(f: Fields, ch: char)
    requires f.errno == Ok && Inv(f) && f.state.HeaderValueStart?
    ensures ValueStartByte(f, ch).errno == Ok ==> Inv(ValueStartByte(f, ch))
  {}

  lemma MatchValueInv(f: Fields, ch: char)
    requires ValueMatcher(f.headerState, f.index, f.contentLength) && f.contentLength <= ULLONG_MAX
    ensures var g := MatchValue(f, ch);
      && g == f.(headerState := g.headerState, index := g.index, contentLength := g.contentLength, errno := g.errno)
      && g.contentLength <= ULLONG_MAX
      && (g.errno == f.errno == Ok ==> ValueMatcher(g.headerState, g.index, g.contentLength))
  {
    hide MatchWord, Lower;
    var (word, matched) := Matching(f.headerState);
    if word != "" {
      MatchWordShape(f, Lower(ch), word, matched);
    }
  }

  lemma ValueInv(f: Fields, ch: char)
    requires f.errno == Ok && Inv(f) && f.state.HeaderValue?
    ensures ValueByte(f, ch).errno == Ok ==> Inv(ValueByte(f, ch))
  {
    hide MatchValue;
    if ch != CR && ch != LF {
      MatchValueInv(f, ch);
    }
  }

  lemma UrlInv(f: Fields, ch: char)
    requires f.errno == Ok && Inv(f) && (UrlState(f.state) || f.state.SpacesBeforeUrl?)
    ensures UrlState(f.state) && UrlByte(f, ch).errno == Ok ==> Inv(UrlByte(f, ch))
    ensures f.state.SpacesBeforeUrl? && SpaceByte(f, ch).errno == Ok ==> Inv(SpaceByte(f, ch))
  {}

  lemma LineInv(f: Fields, ch: char)
    requires f.errno == Ok && Inv(f) && LineState(f.state)
    ensures LineByte(f, ch).errno == Ok ==> Inv(LineByte(f, ch))
  {
    hide MethodByte, FieldByte, ValueStartByte, ValueByte, UrlByte, SpaceByte;
    if f.state.ReqMethod? {
      MethodInv(f, ch);
    } else if f.state.HeaderField? {
      FieldInv(f, ch);
    } else if f.state.HeaderValueStart? {
      ValueStartInv(f, ch);
    } else if f.state.HeaderValue? {
      ValueInv(f, ch);
    } else if f.state.SpacesBeforeUrl? || UrlState(f.state) {
      UrlInv(f, ch);
    }
  }

  lemma UnhexRange(ch: char)
    ensures -1 <= Unhex(ch) < 16
  {}

  lemma ChunkInv(f: Fields, ch: char)
    requires f.errno == Ok && AssertionsHold(f) && Inv(f.(nread := 0)) && f.nread <= MAX_HEADER_SIZE
    requires ChunkState(f.state)
    ensures ChunkByte(f, ch).errno == Ok ==> Inv(ChunkByte(f, ch))
  {
    hide Unhex;
    UnhexRange(ch);
  }

  lemma StartInv(f: Fields, ch: char)
    requires f.errno == Ok && Basic(f) && f.state.StartReq?
    ensures var o := StartByte(f, ch);
      (if o.f.errno == Ok then Inv(o.f) else o.notes == []) && !o.exit
  {}

  lemma HeadersAlmostDoneInv(f: Fields, ch: char)
    requires f.errno == Ok && Basic(f)
    ensures var o := HeadersAlmostDoneByte(f, ch);
      && (if o.f.errno == Ok then Inv(o.f) else o.notes == [])
      && (o.exit ==> o.f.upgrade && o.f.errno == Ok)
  {}

  lemma HeaderFieldStartInv(f: Fields, ch: char)
    requires f.errno == Ok && Basic(f)
    ensures var o := HeaderFieldStartByte(f, ch);
      && (if o.f.errno == Ok then Inv(o.f) else o.notes == [])
      && (o.exit ==> o.f.upgrade && o.f.errno == Ok)
  {
    hide HeadersAlmostDoneByte, IsToken, TokenLower;
    HeadersAlmostDoneInv(f.(state := HeadersAlmostDone), ch);
  }

  lemma ControlInv(f: Fields, ch: char)
    requires f.errno == Ok && AssertionsHold(f) && Inv(if f.state.ChunkSizeStart? then f.(nread := 0) else f)
    requires f.nread <= MAX_HEADER_SIZE && !BodyState(f.state)
    ensures Control(f, ch).f.errno == Ok ==> Inv(Control(f, ch).f)
    ensures Control(f, ch).exit ==> Control(f, ch).f.upgrade && Control(f, ch).f.errno == Ok
    ensures Control(f, ch).f.errno != Ok ==> Control(f, ch).notes == []
  {
    hide LineByte, ChunkByte, StartByte, HeaderFieldStartByte, HeadersAlmostDoneByte;
    if LineState(f.state) {
      LineInv(f, ch);
    } else if ChunkState(f.state) {
      ChunkInv(f, ch);
    } else if f.state.StartReq? {
      StartInv(f, ch);
    } else if f.state.HeadersAlmostDone? {
      HeadersAlmostDoneInv(f, ch);
    } else if f.state.HeaderFieldStart? || f.state.HeaderValueLws? {
      HeaderFieldStartInv(f.(state := HeaderFieldStart), ch);
    }
  }

  lemma HeaderFieldStartUpgrade(f: Fields, ch: char)
    requires f.errno == Ok
    ensures var o := HeaderFieldStartByte(f, ch);
      o.f.errno == Ok && !f.upgrade ==> o.f.upgrade == o.exit
    ensures var o := HeadersAlmostDoneByte(f, ch);
      o.f.errno == Ok && !f.upgrade ==> o.f.upgrade == o.exit
  {
    hide IsToken;
  }

  /** The `upgrade` field tells an early return from any other accepted byte. */
  lemma ControlUpgrade(f: Fields, ch: char)
    requires f.errno == Ok && Inv(if f.state.ChunkSizeStart? then f.(nread := 0) else f) && !BodyState(f.state)
    ensures var o := Control(f, ch);
      o.f.errno == Ok && !f.upgrade ==> o.f.upgrade == o.exit
  {
    hide HeaderFieldStartByte, HeadersAlmostDoneByte, IsToken, Unhex, MethodChar, Alternative, TokenLower, Lower;
    hide UrlNext, IsAlpha;
    if f.state.HeadersAlmostDone? || f.state.HeaderFieldStart? || f.state.HeaderValueLws? {
      HeaderFieldStartUpgrade(f, ch);
      HeaderFieldStartUpgrade(f.(state := HeaderFieldStart), ch);
    } else if LineState(f.state) {
      LineUpgrade(f, ch);
    }
  }

  lemma LineUpgrade(f: Fields, ch: char)
    requires f.errno == Ok && LineState(f.state)
    ensures LineByte(f, ch).upgrade == f.upgrade
  {
    hide IsToken, Unhex, MethodChar, Alternative, TokenLower, Lower, UrlNext, IsNum;
  }

  /** Every byte keeps the invariant, and rejects exactly by setting the error number. */
  lemma StepInv(f: Fields, ch: char)
    requires f.errno == Ok && Inv(f)
    ensures var o := Step(f, ch);
      && (o.verdict == Reject <==> o.f.errno != Ok)
      && (o.verdict == Reject ==> o.events == [])
      && (o.f.errno == Ok ==> Inv(o.f))
      && (o.f.errno == Ok && !f.upgrade ==> o.f.upgrade == (o.verdict == Exit))
  {
    hide Control;
    var g := Counted(f);
    if g.errno == Ok {
      CountedAsserts(f);
      if !BodyState(g.state) {
        ControlInv(g, ch);
        ControlUpgrade(g, ch);
      }
    }
  }

  /** The invariant holds after every stream, however long, and no assertion can fail on the next byte. */
  lemma {:induction false} RunInv(f: Fields, s: string)
    requires f.errno == Ok && Inv(f)
    ensures var r := Run(f, s);
      && (r.f.errno == Ok ==> Inv(r.f))
      && (!r.stopped ==> r.f.errno == Ok)
      && (r.f.errno == Ok && !f.upgrade ==> r.f.upgrade == r.stopped)
      && (r.f.errno == Ok && Counted(r.f).errno == Ok ==> AssertionsHold(Counted(r.f)))
  {
    hide Step;
    if s != [] {
      var n := |s| - 1;
      RunInv(f, s[..n]);
      var r := Run(f, s[..n]);
      if !r.stopped {
        StepInv(r.f, s[n]);
      }
    }
    if Run(f, s).f.errno == Ok && Counted(Run(f, s).f).errno == Ok {
      CountedAsserts(Run(f, s).f);
    }
  }
}
