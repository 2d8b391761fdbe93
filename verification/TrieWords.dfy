/**
 The words and suffixes behind the Aho-Corasick matcher: what its failure links and its lists of matches
 have to be, and why scanning with them finds exactly the occurrences of the dictionary's words.
 A trie is given by its paths, a set of strings closed under prefixes.
 */
module TrieWords {

  /** The path of a child. */
  function Extend(p: string, c: char): (r: string)
    ensures |r| == |p| + 1 && r[..|p|] == p && r[|p|] == c
  {
    p + [c]
  }

  ghost predicate IsTrie(keys: set<string>) {
    "" in keys && forall p, c :: Extend(p, c) in keys ==> p in keys
  }

  // ----- longest suffixes

  predicate IsSuffix(s: string, p: string) { |s| <= |p| && p[|p| - |s|..] == s }

  /** The longest suffix of `s` that is a path. */
  function Longest(keys: set<string>, s: string): (r: string)
    requires "" in keys
    ensures r in keys && IsSuffix(r, s)
  {
    if s in keys then s else Longest(keys, s[1..])
  }

  lemma {:induction false} LongestIsLongest(keys: set<string>, s: string, t: string)
    requires "" in keys && t in keys && IsSuffix(t, s)
    ensures |t| <= |Longest(keys, s)|
  {
    if s !in keys {
      assert s[1..][|s| - 1 - |t|..] == s[|s| - |t|..];
      LongestIsLongest(keys, s[1..], t);
    }
  }

  /** The failure link of a path: its longest proper suffix that is a path. */
  function Fail(keys: set<string>, p: string): (r: string)
    requires "" in keys && p != ""
    ensures r in keys && IsSuffix(r, p) && |r| < |p|
  {
    var r := Longest(keys, p[1..]);
    assert p[|p| - |r|..] == p[1..][|p| - 1 - |r|..];
    r
  }

  /** Where a scan in `p` goes on the character `c`: along the failure links to a path that `c` extends. */
  function Fall(keys: set<string>, p: string, c: char): string
    requires "" in keys
    decreases |p|
  {
    if Extend(p, c) in keys then Extend(p, c) else if p == "" then "" else Fall(keys, Fail(keys, p), c)
  }

  lemma FallStep(keys: set<string>, p: string, c: char)
    requires "" in keys
    ensures Fall(keys, p, c) ==
      if Extend(p, c) in keys then Extend(p, c) else if p == "" then "" else Fall(keys, Fail(keys, p), c)
  {}

  /** Following the links from the longest suffix of `s` leads to the longest suffix of `s` with `c`. */
  lemma {:induction false} FallIsLongest(keys: set<string>, s: string, c: char)
    requires IsTrie(keys)
    ensures Fall(keys, Longest(keys, s), c) == Longest(keys, Extend(s, c))
    decreases |s|
  {
    if Extend(s, c) in keys {
      assert s in keys;
    } else if s == "" {
      assert Extend(s, c) == [c] && [c][1..] == "";
    } else {
      assert Extend(s, c)[1..] == Extend(s[1..], c);
      FallIsLongest(keys, s[1..], c);
    }
  }

  /** `getFallNode`: where a node's missing child leads, which is the failure link of that child. */
  function Fallen(keys: set<string>, p: string, c: char): string
    requires "" in keys
  {
    Fall(keys, if p == "" then "" else Fail(keys, p), c)
  }

  lemma FallenStep(keys: set<string>, p: string, c: char)
    requires "" in keys
    ensures var f := if p == "" then "" else Fail(keys, p);
      Fallen(keys, p, c) ==
        if Extend(f, c) in keys then Extend(f, c) else if p == "" then "" else Fallen(keys, f, c)
  {}

  lemma FailOfChild(keys: set<string>, p: string, c: char)
    requires IsTrie(keys) && p != ""
    ensures Fail(keys, Extend(p, c)) == Fallen(keys, p, c)
  {
    assert Extend(p, c)[1..] == Extend(p[1..], c);
    FallIsLongest(keys, p[1..], c);
  }

  // ----- the words that end at a position

  /** The dictionary's entries equal to `p`. */
  function Own(dict: seq<string>, p: string): seq<string> {
    if dict == [] then []
    else
      var n := |dict| - 1;
      Own(dict[..n], p) + (if dict[n] == p then [p] else [])
  }

  lemma {:induction false} OwnOnly(dict: seq<string>, p: string)
    ensures |Own(dict, p)| == multiset(dict)[p] && forall w :: w in Own(dict, p) ==> w == p
    ensures Own(dict, p) == [] <==> p !in dict
  {
    if dict != [] {
      var n := |dict| - 1;
      OwnOnly(dict[..n], p);
      assert dict == dict[..n] + [dict[n]];
    }
  }

  /** The dictionary's entries that are suffixes of `p`, the longest first; the empty word comes last. */
  function Ending(dict: seq<string>, p: string): seq<string> {
    if p == "" then Own(dict, "") else Own(dict, p) + Ending(dict, p[1..])
  }

  /** The matches a node has after the breadth-first pass. Nodes of depth one inherit nothing. */
  function Inherited(dict: seq<string>, keys: set<string>, p: string): seq<string>
    requires "" in keys
    decreases |p|
  {
    Own(dict, p) + (if |p| <= 1 then [] else Inherited(dict, keys, Fail(keys, p)))
  }

  ghost predicate Covers(keys: set<string>, dict: seq<string>) { forall w :: w in dict ==> w in keys }

  /** Suffixes that are not paths end no word. */
  lemma {:induction false} EndingLongest(dict: seq<string>, keys: set<string>, s: string)
    requires "" in keys && Covers(keys, dict)
    ensures Ending(dict, s) == Ending(dict, Longest(keys, s))
  {
    if s !in keys {
      OwnOnly(dict, s);
      EndingLongest(dict, keys, s[1..]);
      assert [] + Ending(dict, s[1..]) == Ending(dict, s[1..]);
    }
  }

  /** Without empty words a node's matches are exactly the words that end there. */
  lemma {:induction false} InheritedIsEnding(dict: seq<string>, keys: set<string>, p: string)
    requires "" in keys && Covers(keys, dict) && "" !in dict
    ensures Inherited(dict, keys, p) == Ending(dict, p)
    decreases |p|
  {
    OwnOnly(dict, "");
    if |p| > 1 {
      EndingLongest(dict, keys, p[1..]);
      InheritedIsEnding(dict, keys, Fail(keys, p));
    } else if p != "" {
      assert p[1..] == "";
    }
  }

  lemma {:induction false} InheritedAtMost(dict: seq<string>, keys: set<string>, p: string)
    requires "" in keys && Covers(keys, dict)
    ensures |Inherited(dict, keys, p)| <= |Ending(dict, p)|
    ensures p != "" && |p| <= 1 ==> |Inherited(dict, keys, p)| + |Own(dict, "")| == |Ending(dict, p)|
    decreases |p|
  {
    if |p| > 1 {
      EndingLongest(dict, keys, p[1..]);
      InheritedAtMost(dict, keys, Fail(keys, p));
    } else if p != "" {
      assert p[1..] == "";
      assert Inherited(dict, keys, p) == Own(dict, p) + [];
    }
  }

  // ----- matches in a text

  datatype Match = Match(word: string, start: int)

  /** `words` as matches that end just before position `end`. */
  function At(words: seq<string>, end: nat): (ms: seq<Match>)
    ensures |ms| == |words|
    ensures forall i :: 0 <= i < |words| ==> ms[i] == Match(words[i], end - |words[i]|)
  {
    seq(|words|, i requires 0 <= i < |words| => Match(words[i], end - |words[i]|))
  }

  /** All occurrences of the dictionary's words that end behind a character of `text`. */
  function Occurrences(dict: seq<string>, text: string): seq<Match> {
    if text == "" then [] else Occurrences(dict, text[..|text| - 1]) + At(Ending(dict, text), |text|)
  }

  /** What a scan reports behind the last character of `text`; in the root it reports nothing. */
  function ReportedAt(dict: seq<string>, keys: set<string>, text: string): seq<Match>
    requires "" in keys
  {
    var p := Longest(keys, text);
    if p == "" then [] else At(Inherited(dict, keys, p), |text|)
  }

  /** What a scan of `text` reports. */
  function Reported(dict: seq<string>, keys: set<string>, text: string): seq<Match>
    requires "" in keys
  {
    if text == "" then []
    else Reported(dict, keys, text[..|text| - 1]) + ReportedAt(dict, keys, text)
  }

  /** A scan that has just left the character at `i` behind stands at the longest suffix of what it has read. */
  lemma Scanned(dict: seq<string>, keys: set<string>, text: string, i: nat, p: string)
    requires IsTrie(keys) && i < |text| && p == Longest(keys, text[..i + 1])
    ensures Reported(dict, keys, text[..i + 1]) ==
      Reported(dict, keys, text[..i]) + (if p == "" then [] else At(Inherited(dict, keys, p), i + 1))
    ensures i + 1 < |text| ==> Fall(keys, p, text[i + 1]) == Longest(keys, text[..i + 2])
  {
    assert text[..i + 1][..i] == text[..i];
    if i + 1 < |text| {
      assert text[..i + 2] == Extend(text[..i + 1], text[i + 1]);
      FallIsLongest(keys, text[..i + 1], text[i + 1]);
    }
  }

  /** A scan before the character at `i`: what it has found, and that its node leads on to the right one. */
  ghost predicate Scanning(dict: seq<string>, keys: set<string>, text: string, i: nat, p: string, found: seq<Match>)
    requires "" in keys
  {
    && i <= |text| && found == Reported(dict, keys, text[..i])
    && (i < |text| ==> Fall(keys, p, text[i]) == Longest(keys, text[..i + 1]))
  }

  lemma ScanStart(dict: seq<string>, keys: set<string>, text: string)
    requires IsTrie(keys)
    ensures Scanning(dict, keys, text, 0, "", [])
  {
    if text != "" {
      assert text[..1] == Extend("", text[0]);
      FallIsLongest(keys, "", text[0]);
    }
  }

  lemma ScanEnd(dict: seq<string>, keys: set<string>, text: string, p: string, found: seq<Match>)
    requires "" in keys && Scanning(dict, keys, text, |text|, p, found)
    ensures found == Reported(dict, keys, text)
  {
    assert text[..|text|] == text;
  }

  /** There is a child for the next character. */
  lemma ScanHit(dict: seq<string>, keys: set<string>, text: string, i: nat, p: string, found: seq<Match>)
    requires IsTrie(keys) && Scanning(dict, keys, text, i, p, found) && i < |text| && Extend(p, text[i]) in keys
    ensures var q := Extend(p, text[i]);
      Scanning(dict, keys, text, i + 1, q, found + At(Inherited(dict, keys, q), i + 1))
  {
    FallStep(keys, p, text[i]);
    hide Fall, Longest, Inherited, Reported;
    Scanned(dict, keys, text, i, Extend(p, text[i]));
  }

  /** There is none: the failure link is followed, or the character is skipped in the root. */
  lemma ScanMiss(dict: seq<string>, keys: set<string>, text: string, i: nat, p: string, found: seq<Match>)
    requires IsTrie(keys) && Scanning(dict, keys, text, i, p, found) && i < |text| && Extend(p, text[i]) !in keys
    ensures if p == "" then Scanning(dict, keys, text, i + 1, "", found)
            else Scanning(dict, keys, text, i, Fail(keys, p), found)
  {
    FallStep(keys, p, text[i]);
    hide Fall, Longest, Inherited, Reported;
    if p == "" {
      Scanned(dict, keys, text, i, "");
      assert found + [] == found;
    }
  }

  lemma ReportedAtExact(dict: seq<string>, keys: set<string>, text: string)
    requires "" in keys && Covers(keys, dict) && "" !in dict
    ensures ReportedAt(dict, keys, text) == At(Ending(dict, text), |text|)
  {
    var p := Longest(keys, text);
    EndingLongest(dict, keys, text);
    InheritedIsEnding(dict, keys, p);
    OwnOnly(dict, "");
  }

  lemma {:induction false} ReportedExact(dict: seq<string>, keys: set<string>, text: string)
    requires "" in keys && Covers(keys, dict) && "" !in dict
    ensures Reported(dict, keys, text) == Occurrences(dict, text)
  {
    if text != "" {
      ReportedExact(dict, keys, text[..|text| - 1]);
      ReportedAtExact(dict, keys, text);
    }
  }

  lemma {:induction false} ReportedAtMost(dict: seq<string>, keys: set<string>, text: string)
    requires "" in keys && Covers(keys, dict)
    ensures |Reported(dict, keys, text)| <= |Occurrences(dict, text)|
    ensures text != "" && "" in dict ==> |Reported(dict, keys, text)| < |Occurrences(dict, text)|
  {
    if text != "" {
      ReportedAtMost(dict, keys, text[..|text| - 1]);
      var p := Longest(keys, text);
      EndingLongest(dict, keys, text);
      InheritedAtMost(dict, keys, p);
      OwnOnly(dict, "");
    }
  }

  /**
   A scan finds exactly the occurrences unless an empty word meets a text: behind the first character
   the empty word is missed.
   */
  lemma Exactness(dict: seq<string>, keys: set<string>, text: string)
    requires "" in keys && Covers(keys, dict)
    ensures Reported(dict, keys, text) == Occurrences(dict, text) <==> "" !in dict || text == ""
  {
    if "" !in dict {
      ReportedExact(dict, keys, text);
    } else {
      ReportedAtMost(dict, keys, text);
    }
  }

  // ----- what the occurrences are

  predicate OccursAt(text: string, word: string, start: int) {
    0 <= start <= start + |word| <= |text| && text[start..start + |word|] == word
  }

  lemma {:induction false} EndingCount(dict: seq<string>, p: string, w: string)
    ensures multiset(Ending(dict, p))[w] == if IsSuffix(w, p) then multiset(dict)[w] else 0
    ensures forall v :: v in Ending(dict, p) ==> IsSuffix(v, p)
  {
    OwnCount(dict, p, w);
    if p == "" {
      OwnOnly(dict, p);
    } else {
      EndingCount(dict, p[1..], w);
      OwnOnly(dict, p);
      assert |w| < |p| ==> p[1..][|p| - 1 - |w|..] == p[|p| - |w|..];
      forall v | v in Ending(dict, p)
        ensures IsSuffix(v, p)
      {
        if v in Ending(dict, p[1..]) {
          assert p[1..][|p| - 1 - |v|..] == p[|p| - |v|..];
        } else {
          assert v in Own(dict, p);
        }
      }
    }
  }

  lemma {:induction false} OwnCount(dict: seq<string>, p: string, w: string)
    ensures multiset(Own(dict, p))[w] == if w == p then multiset(dict)[w] else 0
  {
    if dict != [] {
      var n := |dict| - 1;
      OwnCount(dict[..n], p, w);
      assert dict == dict[..n] + [dict[n]];
    }
  }

  lemma {:induction false} AtCount(words: seq<string>, end: nat, m: Match)
    ensures multiset(At(words, end))[m] == if m.start + |m.word| == end then multiset(words)[m.word] else 0
  {
    if words == [] {
      assert At(words, end) == [];
    } else {
      var n := |words| - 1;
      AtCount(words[..n], end, m);
      assert words == words[..n] + [words[n]];
      assert At(words, end) == At(words[..n], end) + [Match(words[n], end - |words[n]|)];
    }
  }

  /** An occurrence in `text` ends before its last character or with it. */
  lemma OccursSplit(text: string, word: string, start: int)
    requires text != ""
    ensures var n := |text| - 1;
      && (start + |word| <= n ==> OccursAt(text, word, start) == OccursAt(text[..n], word, start))
      && (start + |word| == |text| ==> OccursAt(text, word, start) == IsSuffix(word, text))
      && (start + |word| > |text| ==> !OccursAt(text, word, start))
      && (start + |word| > n ==> !OccursAt(text[..n], word, start))
  {
    var n := |text| - 1;
    if 0 <= start && start + |word| <= n {
      assert text[..n][start..start + |word|] == text[start..start + |word|];
    }
  }

  /**
   A match is among the occurrences exactly once for every entry of its word in the dictionary if the
   word stands there, and not at all otherwise.
   */
  lemma {:induction false} OccurrencesCount(dict: seq<string>, text: string, m: Match)
    ensures multiset(Occurrences(dict, text))[m] ==
      if OccursAt(text, m.word, m.start) && m.start + |m.word| > 0 then multiset(dict)[m.word] else 0
  {
    if text != "" {
      var n := |text| - 1;
      OccurrencesCount(dict, text[..n], m);
      EndingCount(dict, text, m.word);
      AtCount(Ending(dict, text), |text|, m);
      OccursSplit(text, m.word, m.start);
      hide At, Ending, OccursAt, IsSuffix;
      var a, b := Occurrences(dict, text[..n]), At(Ending(dict, text), |text|);
      assert multiset(a + b)[m] == multiset(a)[m] + multiset(b)[m];
    }
  }

  predicate Before(a: Match, b: Match) {
    || a.start + |a.word| < b.start + |b.word|
    || (a.start + |a.word| == b.start + |b.word| && |a.word| >= |b.word|)
  }

  lemma OrderedConcat(a: seq<Match>, b: seq<Match>)
    requires forall i, j :: 0 <= i < j < |a| ==> Before(a[i], a[j])
    requires forall i, j :: 0 <= i < j < |b| ==> Before(b[i], b[j])
    requires forall i, j :: 0 <= i < |a| && 0 <= j < |b| ==> Before(a[i], b[j])
    ensures forall i, j :: 0 <= i < j < |a + b| ==> Before((a + b)[i], (a + b)[j])
  {
    hide Before;
  }

  lemma {:induction false} EndingOrder(dict: seq<string>, p: string)
    ensures forall i, j :: 0 <= i < j < |Ending(dict, p)| ==> |Ending(dict, p)[i]| >= |Ending(dict, p)[j]|
    ensures forall i :: 0 <= i < |Ending(dict, p)| ==> |Ending(dict, p)[i]| <= |p|
  {
    OwnOnly(dict, p);
    assert forall i :: 0 <= i < |Own(dict, p)| ==> Own(dict, p)[i] in Own(dict, p);
    if p != "" {
      EndingOrder(dict, p[1..]);
    }
  }

  /** In the order of their ends, none later than `n`; the longer of two with the same end comes first. */
  predicate InOrder(ms: seq<Match>, n: nat) {
    && (forall i, j :: 0 <= i < j < |ms| ==> Before(ms[i], ms[j]))
    && (forall i :: 0 <= i < |ms| ==> ms[i].start + |ms[i].word| <= n)
  }

  lemma {:induction false} OccurrencesOrder(dict: seq<string>, text: string)
    ensures InOrder(Occurrences(dict, text), |text|)
  {
    if text != "" {
      var a, b := Occurrences(dict, text[..|text| - 1]), At(Ending(dict, text), |text|);
      OccurrencesOrder(dict, text[..|text| - 1]);
      EndingOrder(dict, text);
      assert forall i :: 0 <= i < |b| ==> b[i].start + |b[i].word| == |text|;
      OrderedConcat(a, b);
    }
  }
}
