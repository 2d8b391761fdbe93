/**
 Message bodies: runs of body bytes taken at once, and the chunked coding of section 3.6.1 of RFC 2616.
 */
module HttpBodies {
  import opened HttpTypes
  import opened Numbers
  import opened Machine
  import opened HttpStep

  lemma StepBody(f: Fields, ch: char)
    requires f.errno == Ok && f.state.BodyIdentity? && 0 < f.contentLength
    ensures Step(f, ch) == Stepped(TakeBody(f, 1).f, [Data(Body, ch)] + TakeBody(f, 1).notes, Continue)
  {
    hide Control;
  }

  lemma StepChunk(f: Fields, ch: char)
    requires f.errno == Ok && f.state.ChunkData? && 0 < f.contentLength
    ensures Step(f, ch) == Stepped(TakeChunk(f, 1), [Data(Body, ch)], Continue)
  {
    hide Control;
  }

  /** Taking `|s|` body bytes at once is taking them one by one. */
  lemma {:induction false} BodyRun(f: Fields, s: string)
    requires f.errno == Ok && f.state.BodyIdentity? && 0 < |s| <= f.contentLength
    ensures var o := TakeBody(f, |s|);
      Fold(Step, f, s) == Result(o.f, Bytes(Body, s) + o.notes, |s|, false)
  {
    hide Step;
    var n := |s| - 1;
    if n == 0 {
      assert Fold(Step, f, s[..0]) == Result(f, [], 0, false);
      StepBody(f, s[0]);
    } else {
      BodyRun(f, s[..n]);
      StepBody(TakeBody(f, n).f, s[n]);
    }
    assert Bytes(Body, s) == Bytes(Body, s[..n]) + [Data(Body, s[n])];
  }

  lemma {:induction false} ChunkRun(f: Fields, s: string)
    requires f.errno == Ok && f.state.ChunkData? && 0 < |s| <= f.contentLength
    ensures Fold(Step, f, s) == Result(TakeChunk(f, |s|), Bytes(Body, s), |s|, false)
  {
    hide Step;
    var n := |s| - 1;
    if n == 0 {
      assert Fold(Step, f, s[..0]) == Result(f, [], 0, false);
      StepChunk(f, s[0]);
    } else {
      ChunkRun(f, s[..n]);
      StepChunk(TakeChunk(f, n), s[n]);
    }
    assert Bytes(Body, s) == Bytes(Body, s[..n]) + [Data(Body, s[n])];
  }

  // ----- the chunked coding

  predicate IsHex(c: char) { IsNum(c) || 'a' <= c <= 'f' || 'A' <= c <= 'F' }

  /** What the parser takes for a digit of a chunk size: every byte from 128 up is a 0 to it. */
  predicate IsSizeChar(c: char) { IsHex(c) || c as int >= 128 }

  predicate IsSizeText(s: string) { forall c :: c in s ==> IsSizeChar(c) }

  /** The number a chunk size is taken for: of a hexadecimal string, in either case, the number it stands for. */
  function HexValue(s: string): (n: nat)
    requires IsSizeText(s)
  {
    if s == "" then 0
    else
      var n := |s| - 1;
      assert s[n] in s && forall c :: c in s[..n] ==> c in s;
      16 * HexValue(s[..n]) + Unhex(s[n])
  }

  /** The chunk sizes the parser accepts: the overflow test looks at the number without its last digit. */
  predicate IsChunkSize(n: nat) { n / 16 <= (ULLONG_MAX - 16) / 16 }

  predicate ValidSize(s: string) { s != "" && IsSizeText(s) && IsChunkSize(HexValue(s)) }

  /** A chunk size begins with a hexadecimal digit, or with any byte from 128 up, which the table takes for a 0. */
  lemma SizeBegins(f: Fields, c: char)
    requires f.errno == Ok && f.state.ChunkSizeStart? && f.nread == 0
    ensures Step(f, c).verdict != Reject <==> IsHex(c) || c as int >= 128
    ensures c as int >= 128 ==> Step(f, c).f.contentLength == 0
  {
    hide ChunkSizeByte, DataOf;
  }

  lemma StepChunkLine(f: Fields, ch: char)
    requires f.errno == Ok && ChunkState(f.state) && f.nread < MAX_HEADER_SIZE
    requires ChunkByte(Counted(f), ch).errno == Ok && DataOf(ChunkByte(Counted(f), ch).state, ch) == []
    ensures Step(f, ch) == Stepped(ChunkByte(Counted(f), ch), [], Continue)
  {
    hide ChunkByte, DataOf;
    var none: seq<Event> := [];
    assert none + none == none;
  }

  /** A byte of a chunk's framing at the end of a run. */
  lemma RunsChunkLine(f: Fields, s: string, g: Fields, es: seq<Event>, ch: char, h: Fields)
    requires Runs(Step, f, s, g, es) && g.errno == Ok && ChunkState(g.state) && g.nread < MAX_HEADER_SIZE
    requires h == ChunkByte(Counted(g), ch) && h.errno == Ok && DataOf(h.state, ch) == []
    ensures Runs(Step, f, s + [ch], h, es)
  {
    hide Runs, Step, ChunkByte, DataOf, Counted;
    StepChunkLine(g, ch);
    RunsOne(Step, g, ch, h, []);
    RunsThen(Step, f, s, g, es, [ch], h, []);
    assert es + [] == es;
  }

  lemma SizeDigit(f: Fields, n: nat, c: char)
    requires f.errno == Ok && f.state.ChunkSize? && f.contentLength == n && IsSizeChar(c)
    requires IsChunkSize(16 * n + Unhex(c))
    ensures ChunkByte(f, c) == f.(contentLength := 16 * n + Unhex(c))
  {
    assert c != CR && 0 <= Unhex(c) < 16;
    hide Unhex;
  }

  lemma FirstDigit(f: Fields, c: char)
    requires f.errno == Ok && f.state.ChunkSizeStart? && IsSizeChar(c)
    ensures Unhex(c) >= 0 && ChunkByte(f, c) == f.(state := ChunkSize, contentLength := Unhex(c))
  {
    hide ChunkSizeByte;
  }

  lemma SizeInit(s: string, c: char)
    requires ValidSize(s + [c])
    ensures IsSizeChar(c) && IsSizeText(s) && Unhex(c) >= 0 && HexValue(s + [c]) == 16 * HexValue(s) + Unhex(c)
    ensures s != "" ==> ValidSize(s)
    ensures s == "" ==> HexValue(s) == 0
  {
    var t := s + [c];
    assert t[..|s|] == s && t[|s|] == c && c in t;
    assert forall d :: d in s ==> d in t;
  }

  /** The size line's digits are read as the number they stand for, without wrap-around. */
  lemma {:induction false} SizeRun(f: Fields, s: string)
    requires f.errno == Ok && f.state.ChunkSizeStart? && ValidSize(s) && f.nread + |s| <= MAX_HEADER_SIZE
    ensures Runs(Step, f, s, f.(state := ChunkSize, contentLength := HexValue(s), nread := f.nread + |s|), [])
  {
    hide Runs, Step, HexValue, Unhex, IsSizeChar, ChunkByte, IsChunkSize;
    var n := |s| - 1;
    assert s == s[..n] + [s[n]];
    SizeInit(s[..n], s[n]);
    if n == 0 {
      RunsNothing(Step, f);
      FirstDigit(f.(nread := f.nread + 1), s[0]);
      RunsChunkLine(f, [], f, [], s[0], f.(state := ChunkSize, contentLength := Unhex(s[0]), nread := f.nread + 1));
    } else {
      SizeRun(f, s[..n]);
      var g := f.(state := ChunkSize, contentLength := HexValue(s[..n]), nread := f.nread + n);
      SizeDigit(Counted(g), HexValue(s[..n]), s[n]);
      RunsChunkLine(f, s[..n], g, [], s[n], Counted(g).(contentLength := HexValue(s)));
    }
  }

  lemma StepChunkReject(f: Fields, ch: char)
    requires f.errno == Ok && ChunkState(f.state) && f.nread < MAX_HEADER_SIZE && ChunkByte(Counted(f), ch).errno != Ok
    ensures Step(f, ch).verdict == Reject
  {
    hide ChunkByte, DataOf;
  }

  /** Whether one more character is taken. */
  lemma SizeNext(f: Fields, n: nat, c: char)
    requires f.errno == Ok && f.state.ChunkSize? && f.contentLength == n && c != CR && c != ';' && c != ' '
    ensures ChunkByte(f, c).errno == Ok <==> IsSizeChar(c) && n <= (ULLONG_MAX - 16) / 16
    ensures IsSizeChar(c) ==> 0 <= Unhex(c) < 16
  {}

  lemma SizeFirst(f: Fields, c: char)
    requires f.errno == Ok && f.state.ChunkSizeStart?
    ensures ChunkByte(f, c).errno == Ok <==> IsSizeChar(c)
    ensures IsSizeChar(c) ==> 0 <= Unhex(c) < 16
  {
    hide ChunkSizeByte;
  }

  lemma ValidSizeNext(s: string, c: char)
    ensures ValidSize(s + [c]) <==>
      IsSizeChar(c) && IsSizeText(s) && (s == "" || (ValidSize(s) && HexValue(s) <= (ULLONG_MAX - 16) / 16))
    ensures IsSizeText("") && HexValue("") == 0
  {
    var t := s + [c];
    assert t[..|s|] == s && t[|s|] == c && c in t;
    assert IsSizeText(t) <==> IsSizeText(s) && IsSizeChar(c);
    if IsSizeText(t) {
      assert 0 <= Unhex(c) < 16;
      assert HexValue(t) == 16 * HexValue(s) + Unhex(c);
    }
    hide Unhex, IsSizeChar;
  }

  /** A size, up to the first delimiter, is accepted if and only if the parser takes every character for a digit. */
  lemma {:induction false} SizeExactly(f: Fields, s: string)
    requires f.errno == Ok && f.state.ChunkSizeStart? && s != "" && f.nread + |s| <= MAX_HEADER_SIZE
    requires CR !in s && ';' !in s && ' ' !in s
    ensures !Fold(Step, f, s).stopped <==> ValidSize(s)
    ensures ValidSize(s) ==> Fold(Step, f, s).f.contentLength == HexValue(s)
  {
    hide Step, HexValue, Unhex, IsSizeChar, ChunkByte, IsChunkSize, Fold;
    var n := |s| - 1;
    var c := s[n];
    assert s == s[..n] + [c] && c in s;
    ValidSizeNext(s[..n], c);
    if ValidSize(s) {
      SizeRun(f, s);
    } else if n == 0 {
      SizeFirst(f.(nread := f.nread + 1), c);
      StepChunkReject(f, c);
      FoldOne(Step, f, c);
    } else {
      SizeExactly(f, s[..n]);
      if ValidSize(s[..n]) {
        SizeRun(f, s[..n]);
        var g := f.(state := ChunkSize, contentLength := HexValue(s[..n]), nread := f.nread + n);
        SizeNext(Counted(g), HexValue(s[..n]), c);
        StepChunkReject(g, c);
        FoldOne(Step, g, c);
        FoldAfter(Step, f, s[..n], g, [], [c]);
      } else {
        FoldStopped(Step, f, s, n);
      }
    }
  }

  /** What may stand between a chunk's size and the end of its line, and is skipped. */
  predicate ValidParams(p: string) {
    (p != "" ==> p[0] == ';' || p[0] == ' ') && forall c :: c in p ==> c != CR
  }

  lemma ParamByte(f: Fields, p: string, c: char)
    requires f.errno == Ok && ValidParams(p + [c])
    requires if p == "" then f.state.ChunkSize? else f.state.ChunkParameters?
    ensures ValidParams(p) && ChunkByte(f, c) == f.(state := ChunkParameters)
  {
    var q := p + [c];
    assert q[..|p|] == p && q[|p|] == c && c in q && (p != "" ==> q[0] == p[0]);
    assert forall d :: d in p ==> d in q;
  }

  lemma {:induction false} ParamsRun(f: Fields, s: string, g: Fields, p: string)
    requires Runs(Step, f, s, g, []) && g.errno == Ok && g.state.ChunkSize? && ValidParams(p)
    requires g.nread + |p| <= MAX_HEADER_SIZE
    ensures Runs(Step, f, s + p,
      g.(state := if p == "" then ChunkSize else ChunkParameters, nread := g.nread + |p|), [])
  {
    hide Runs, Step, ChunkByte;
    if p == "" {
      assert s + p == s;
    } else {
      var n := |p| - 1;
      assert p == p[..n] + [p[n]];
      assert s + p == s + p[..n] + [p[n]];
      var h := g.(state := if n == 0 then ChunkSize else ChunkParameters, nread := g.nread + n);
      ParamByte(Counted(h), p[..n], p[n]);
      ParamsRun(f, s, g, p[..n]);
      RunsChunkLine(f, s + p[..n], h, [], p[n], g.(state := ChunkParameters, nread := g.nread + |p|));
    }
  }

  /** A chunk: the digits of its size, parameters, and its data. */
  datatype Chunk = Chunk(size: string, params: string, data: string)

  function SizeLine(c: Chunk): string { c.size + c.params + "\r\n" }

  function RenderChunk(c: Chunk): string { SizeLine(c) + c.data + "\r\n" }

  predicate ValidChunk(c: Chunk) {
    && ValidSize(c.size) && HexValue(c.size) == |c.data|
    && ValidParams(c.params) && |SizeLine(c)| <= MAX_HEADER_SIZE
  }

  lemma SizeLineRun(f: Fields, c: Chunk)
    requires f.errno == Ok && f.state.ChunkSizeStart? && ValidChunk(c) && f.nread == 0
    ensures Runs(Step, f, SizeLine(c),
      if c.data == "" then f.(state := HeaderFieldStart, contentLength := 0, flags := f.flags.(trailing := true))
      else f.(state := ChunkData, contentLength := |c.data|), [])
  {
    hide Runs, Step, Unhex, HexValue, ValidSize, ValidParams;
    assert |SizeLine(c)| == |c.size| + |c.params| + 2;
    SizeRun(f, c.size);
    var g := f.(state := ChunkSize, contentLength := |c.data|, nread := |c.size|);
    ParamsRun(f, c.size, g, c.params);
    var k := g.(state := if c.params == "" then ChunkSize else ChunkParameters, nread := g.nread + |c.params|);
    var h := g.(state := ChunkSizeAlmostDone, nread := k.nread + 1);
    RunsChunkLine(f, c.size + c.params, k, [], CR, h);
    RunsChunkLine(f, c.size + c.params + [CR], h, [], LF, ChunkByte(h.(nread := h.nread + 1), LF));
    assert c.size + c.params + [CR] + [LF] == SizeLine(c);
  }

  lemma ChunkEndRun(f: Fields, s: string, h: Fields, es: seq<Event>)
    requires Runs(Step, f, s, h, es) && h.errno == Ok && h.state.ChunkDataAlmostDone? && h.nread == 0
    ensures Runs(Step, f, s + "\r\n", h.(state := ChunkSizeStart), es)
  {
    hide Runs, Step, ChunkSizeByte, Unhex;
    RunsChunkLine(f, s, h, es, CR, h.(state := ChunkDataDone));
    RunsChunkLine(f, s + [CR], h.(state := ChunkDataDone), es, LF, h.(state := ChunkSizeStart));
    assert s + [CR] + [LF] == s + "\r\n";
  }

  lemma RunsChunk(f: Fields, c: string)
    requires f.errno == Ok && f.state.ChunkData? && c != "" && |c| == f.contentLength
    ensures Runs(Step, f, c, f.(state := ChunkDataAlmostDone, contentLength := 0), Bytes(Body, c))
  {
    hide Step, Bytes;
    ChunkRun(f, c);
  }

  /** One chunk is handed over as exactly its data, and the parser is ready for the next. */
  lemma OneChunkRun(f: Fields, c: Chunk)
    requires f.errno == Ok && f.state.ChunkSizeStart? && f.nread == 0 && ValidChunk(c) && c.data != ""
    ensures Runs(Step, f, RenderChunk(c), f.(contentLength := 0), Bytes(Body, c.data))
  {
    hide Step, Bytes, Runs, ValidChunk, SizeLine;
    SizeLineRun(f, c);
    var g := f.(state := ChunkData, contentLength := |c.data|);
    RunsChunk(g, c.data);
    var h := f.(state := ChunkDataAlmostDone, contentLength := 0);
    RunsThen(Step, f, SizeLine(c), g, [], c.data, h, Bytes(Body, c.data));
    assert [] + Bytes(Body, c.data) == Bytes(Body, c.data);
    ChunkEndRun(f, SizeLine(c) + c.data, h, Bytes(Body, c.data));
  }

  function RenderChunks(cs: seq<Chunk>): string {
    if cs == [] then "" else RenderChunks(cs[..|cs| - 1]) + RenderChunk(cs[|cs| - 1])
  }

  function Joined(cs: seq<Chunk>): string {
    if cs == [] then "" else Joined(cs[..|cs| - 1]) + cs[|cs| - 1].data
  }

  predicate ValidChunks(cs: seq<Chunk>) { forall c :: c in cs ==> ValidChunk(c) && c.data != "" }

  /** A chunked body delivers exactly the concatenation of its chunks. */
  lemma {:induction false} ChunksRun(f: Fields, cs: seq<Chunk>)
    requires f.errno == Ok && f.state.ChunkSizeStart? && f.nread == 0 && ValidChunks(cs)
    ensures Runs(Step, f, RenderChunks(cs), f.(contentLength := if cs == [] then f.contentLength else 0),
              Bytes(Body, Joined(cs)))
  {
    hide Runs, Step, RenderChunk, ValidChunk;
    if cs == [] {
      RunsNothing(Step, f);
      assert Bytes(Body, Joined(cs)) == [];
    } else {
      var n := |cs| - 1;
      ChunksRun(f, cs[..n]);
      var g := f.(contentLength := if n == 0 then f.contentLength else 0);
      OneChunkRun(g, cs[n]);
      RunsThen(Step, f, RenderChunks(cs[..n]), g, Bytes(Body, Joined(cs[..n])), RenderChunk(cs[n]),
        f.(contentLength := 0), Bytes(Body, cs[n].data));
      assert Bytes(Body, Joined(cs)) == Bytes(Body, Joined(cs[..n])) + Bytes(Body, cs[n].data);
    }
  }

  // ----- every size has a rendering

  function HexDigit(d: nat): (c: char)
    requires d < 16
    ensures IsHex(c) && Unhex(c) == d
  {
    if d < 10 then (d + '0' as int) as char else (d - 10 + 'a' as int) as char
  }

  function Hex(n: nat): (s: string) { (if n < 16 then "" else Hex(n / 16)) + [HexDigit(n % 16)] }

  /** The size a sender would write, without leading zeros, is one of those. */
  lemma {:induction false} HexRendered(n: nat)
    ensures Hex(n) != "" && (forall c :: c in Hex(n) ==> IsHex(c)) && HexValue(Hex(n)) == n
  {
    hide Unhex, IsHex, HexDigit;
    var s := if n < 16 then "" else Hex(n / 16);
    if n >= 16 {
      HexRendered(n / 16);
    }
    var t := s + [HexDigit(n % 16)];
    assert t[..|s|] == s && t[|s|] == HexDigit(n % 16);
    assert HexValue(s) == n / 16;
  }
}
