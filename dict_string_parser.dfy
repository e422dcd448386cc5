/**
 * DictStringParser.splitAtoms: the atoms of a line under the pattern
 * `"([^"]*)"|(\S+)`, found left to right by `Matcher.find`.
 *
 * `Scan` states which substrings `find` reports, one `Match` per call;
 * `Atoms` keeps group 1 (the text between the quotes) for a quoted match and
 * group 2 (the whole run) for a bare one. `SplitAtoms` is the loop itself.
 */
module DictStringParser {

  /** The `\s` class of java.util.regex: space, \t, \n, \x0B, \f and \r. */
  predicate IsSpace(c: char) {
    c == ' ' || c == '\t' || c == '\n' || c == '\U{000B}' || c == '\U{000C}' || c == '\r'
  }

  /** One successful `find`: the matched region and which alternative matched. */
  datatype Match = Match(start: nat, end: nat, quoted: bool)

  /** First `"` at or after `i`, or `|s|`. */
  function NextQuote(s: string, i: nat): (j: nat)
    requires i <= |s|
    ensures i <= j <= |s|
    ensures j < |s| ==> s[j] == '"'
    decreases |s| - i
  {
    if i == |s| || s[i] == '"' then i else NextQuote(s, i + 1)
  }

  lemma {:induction false} NoQuoteBeforeNextQuote(s: string, i: nat)
    requires i <= |s|
    ensures forall k :: i <= k < NextQuote(s, i) ==> s[k] != '"'
    decreases |s| - i
  {
    if i < |s| && s[i] != '"' {
      NoQuoteBeforeNextQuote(s, i + 1);
    }
  }

  /** The first quote at or after `i` is at `j` when `j` holds one and nothing before it does. */
  lemma {:induction false} NextQuoteIs(s: string, i: nat, j: nat)
    requires i <= j <= |s| && (j < |s| ==> s[j] == '"')
    requires forall k :: i <= k < j ==> s[k] != '"'
    ensures NextQuote(s, i) == j
    decreases j - i
  {
    if i < j {
      NextQuoteIs(s, i + 1, j);
    }
  }

  /** End of the longest run of non-`\s` chars starting at `i`. */
  function RunEnd(s: string, i: nat): (j: nat)
    requires i <= |s|
    ensures i <= j <= |s|
    ensures j < |s| ==> IsSpace(s[j])
    decreases |s| - i
  {
    if i == |s| || IsSpace(s[i]) then i else RunEnd(s, i + 1)
  }

  lemma {:induction false} NoSpaceBeforeRunEnd(s: string, i: nat)
    requires i <= |s|
    ensures forall k :: i <= k < RunEnd(s, i) ==> !IsSpace(s[k])
    decreases |s| - i
  {
    if i < |s| && !IsSpace(s[i]) {
      NoSpaceBeforeRunEnd(s, i + 1);
    }
  }

  /** The run from `i` ends at `j` when `j` is whitespace or the end and nothing before it is. */
  lemma {:induction false} RunEndIs(s: string, i: nat, j: nat)
    requires i <= j <= |s| && (j < |s| ==> IsSpace(s[j]))
    requires forall k :: i <= k < j ==> !IsSpace(s[k])
    ensures RunEnd(s, i) == j
    decreases j - i
  {
    if i < j {
      RunEndIs(s, i + 1, j);
    }
  }

  /** A region of `s` that holds at least one char (two for a quoted match). */
  predicate Fits(s: string, m: Match) {
    m.start < m.end <= |s| && (m.quoted ==> m.end - m.start >= 2)
  }

  /**
   * What the pattern matches at `m.start`, as java.util.regex decides it: the
   * quoted alternative is tried first and `[^"]*` runs up to the next quote;
   * only when there is no closing quote does `\S+` take over, greedily.
   */
  ghost predicate IsPatternMatch(s: string, m: Match) {
    && Fits(s, m)
    && if m.quoted then
         && s[m.start] == '"' && s[m.end - 1] == '"'
         && (forall k :: m.start < k < m.end - 1 ==> s[k] != '"')
       else
         && (forall k :: m.start <= k < m.end ==> !IsSpace(s[k]))
         && (m.end == |s| || IsSpace(s[m.end]))
         && (s[m.start] == '"' ==> forall k :: m.start < k < |s| ==> s[k] != '"')
  }

  /** The match `find` reports when its search reaches non-space position `i`. */
  function MatchAt(s: string, i: nat): (m: Match)
    requires i < |s| && !IsSpace(s[i])
    ensures m.start == i && Fits(s, m)
  {
    var q := NextQuote(s, i + 1);
    if s[i] == '"' && q < |s| then Match(i, q + 1, true) else Match(i, RunEnd(s, i), false)
  }

  /** The successive matches `find` reports when it starts at position `i`. */
  function Scan(s: string, i: nat): (ms: seq<Match>)
    requires i <= |s|
    ensures forall k :: 0 <= k < |ms| ==> i <= ms[k].start && Fits(s, ms[k])
    decreases |s| - i
  {
    if i == |s| then []
    else if IsSpace(s[i]) then Scan(s, i + 1)
    else
      var m := MatchAt(s, i);
      [m] + Scan(s, m.end)
  }

  /** The regions come in order and do not overlap: each `find` resumes after the last match. */
  lemma {:induction false} ScanInOrder(s: string, i: nat, k: nat, l: nat)
    requires i <= |s| && k < l < |Scan(s, i)|
    ensures Scan(s, i)[k].end <= Scan(s, i)[l].start
    decreases |s| - i
  {
    if IsSpace(s[i]) {
      ScanInOrder(s, i + 1, k, l);
    } else {
      var m := MatchAt(s, i);
      var rest := Scan(s, m.end);
      if k == 0 {
        assert Scan(s, i)[l] == rest[l - 1];
      } else {
        ScanInOrder(s, m.end, k - 1, l - 1);
        assert Scan(s, i)[k] == rest[k - 1] && Scan(s, i)[l] == rest[l - 1];
      }
    }
  }

  lemma MatchAtIsPatternMatch(s: string, i: nat)
    requires i < |s| && !IsSpace(s[i])
    ensures IsPatternMatch(s, MatchAt(s, i))
  {
    NoQuoteBeforeNextQuote(s, i + 1);
    NoSpaceBeforeRunEnd(s, i);
  }

  /** Every region `find` reports is a match of the pattern, leftmost-first. */
  lemma {:induction false} ScanMatchesPattern(s: string, i: nat)
    requires i <= |s|
    ensures forall k :: 0 <= k < |Scan(s, i)| ==> IsPatternMatch(s, Scan(s, i)[k])
    decreases |s| - i
  {
    if i < |s| {
      if IsSpace(s[i]) {
        ScanMatchesPattern(s, i + 1);
      } else {
        MatchAtIsPatternMatch(s, i);
        ScanMatchesPattern(s, MatchAt(s, i).end);
      }
    }
  }

  /** `m.group(m.group(1) != null ? 1 : 2)` */
  function Text(s: string, m: Match): string
    requires Fits(s, m)
  {
    if m.quoted then s[m.start + 1..m.end - 1] else s[m.start..m.end]
  }

  /** The groups of the successive matches from position `i`, as splitAtoms collects them. */
  function AtomsFrom(s: string, i: nat): seq<string>
    requires i <= |s|
    decreases |s| - i
  {
    if i == |s| then []
    else if IsSpace(s[i]) then AtomsFrom(s, i + 1)
    else
      var m := MatchAt(s, i);
      [Text(s, m)] + AtomsFrom(s, m.end)
  }

  /** The result of splitAtoms. */
  function Atoms(s: string): seq<string> {
    AtomsFrom(s, 0)
  }

  lemma AtomsFromSpace(s: string, i: nat)
    requires i < |s| && IsSpace(s[i])
    ensures AtomsFrom(s, i) == AtomsFrom(s, i + 1)
  {
  }

  /** One `find` call: the first atom from position `i`, then the rest. */
  lemma AtomsFromMatch(s: string, i: nat)
    requires i < |s| && !IsSpace(s[i])
    ensures AtomsFrom(s, i) == [Text(s, MatchAt(s, i))] + AtomsFrom(s, MatchAt(s, i).end)
  {
  }

  /** One atom per match `find` reports. */
  lemma {:induction false} AtomsFromScanLength(s: string, i: nat)
    requires i <= |s|
    ensures |AtomsFrom(s, i)| == |Scan(s, i)|
    decreases |s| - i
  {
    if i < |s| {
      if IsSpace(s[i]) {
        AtomsFromScanLength(s, i + 1);
      } else {
        AtomsFromScanLength(s, MatchAt(s, i).end);
      }
    }
  }

  /** The atoms are the groups of the matches `find` reports, in order. */
  lemma {:induction false} AtomsFromScanAt(s: string, i: nat, k: nat)
    requires i <= |s| && k < |Scan(s, i)|
    ensures k < |AtomsFrom(s, i)| && AtomsFrom(s, i)[k] == Text(s, Scan(s, i)[k])
    decreases |s| - i
  {
    AtomsFromScanLength(s, i);
    if IsSpace(s[i]) {
      AtomsFromSpace(s, i);
      AtomsFromScanAt(s, i + 1, k);
    } else {
      var m := MatchAt(s, i);
      AtomsFromMatch(s, i);
      if k > 0 {
        AtomsFromScanAt(s, m.end, k - 1);
        assert Scan(s, i)[k] == Scan(s, m.end)[k - 1];
      }
    }
  }

  /**
   * A bare atom is a non-empty run without whitespace; a quoted atom has no
   * quote inside.
   */
  lemma AtomsShape(s: string)
    ensures |Atoms(s)| == |Scan(s, 0)|
    ensures forall k :: 0 <= k < |Atoms(s)| && !Scan(s, 0)[k].quoted ==>
              |Atoms(s)[k]| > 0 && forall c :: c in Atoms(s)[k] ==> !IsSpace(c)
    ensures forall k :: 0 <= k < |Atoms(s)| && Scan(s, 0)[k].quoted ==> '"' !in Atoms(s)[k]
  {
    AtomsFromScanLength(s, 0);
    ScanMatchesPattern(s, 0);
    var r := Atoms(s);
    forall k | 0 <= k < |r|
      ensures r[k] == Text(s, Scan(s, 0)[k])
    {
      AtomsFromScanAt(s, 0, k);
    }
    forall k, c | 0 <= k < |r| && !Scan(s, 0)[k].quoted && c in r[k]
      ensures !IsSpace(c)
    {
      var m := Scan(s, 0)[k];
      var p :| 0 <= p < |r[k]| && r[k][p] == c;
      assert c == s[m.start + p];
    }
  }

  /** The engine trying `"([^"]*)"`: where the closing quote after `from` is. */
  method FindQuote(s: string, from: nat) returns (j: nat)
    requires from <= |s|
    ensures j == NextQuote(s, from)
  {
    j := from;
    while j < |s| && s[j] != '"'
      invariant from <= j <= |s|
      invariant NextQuote(s, j) == NextQuote(s, from)
      decreases |s| - j
    {
      j := j + 1;
    }
  }

  /** The engine trying `\S+`: where the greedy run from `from` stops. */
  method FindRunEnd(s: string, from: nat) returns (j: nat)
    requires from <= |s|
    ensures j == RunEnd(s, from)
  {
    j := from;
    while j < |s| && !IsSpace(s[j])
      invariant from <= j <= |s|
      invariant RunEnd(s, j) == RunEnd(s, from)
      decreases |s| - j
    {
      j := j + 1;
    }
  }

  /**
   * One `find` that starts at a non-space position `i`, and the group it
   * yields: the quoted alternative when a closing quote follows, else the
   * run of non-whitespace.
   */
  method FindAt(s: string, i: nat) returns (atom: string, j: nat)
    requires i < |s| && !IsSpace(s[i])
    ensures j == MatchAt(s, i).end && atom == Text(s, MatchAt(s, i))
  {
    var q := |s|;
    if s[i] == '"' {
      q := FindQuote(s, i + 1);
    }
    if q < |s| {
      atom, j := s[i + 1..q], q + 1;
    } else {
      j := FindRunEnd(s, i);
      atom := s[i..j];
    }
  }

  /** Java's splitAtoms: repeated `find` calls, each resuming after the last match. */
  method SplitAtoms(original: string) returns (atoms: seq<string>)
    ensures atoms == Atoms(original)
  {
    var s := original;
    atoms := [];
    var i := 0;
    while i < |s|
      invariant i <= |s|
      invariant atoms + AtomsFrom(s, i) == AtomsFrom(s, 0)
      decreases |s| - i
    {
      if IsSpace(s[i]) {
        i := i + 1;
      } else {
        var atom, j := FindAt(s, i);
        assert atoms + AtomsFrom(s, i) == (atoms + [atom]) + AtomsFrom(s, j);
        atoms := atoms + [atom];
        i := j;
      }
    }
  }

  // ---------------------------------------------------------------------
  // Properties of splitAtoms
  // ---------------------------------------------------------------------

  /** The matches `find` reports on the worked example of splitAtoms. */
  lemma HelloWorldMatches()
    ensures Scan("hello world \"foo bar\"", 0)
         == [Match(0, 5, false), Match(6, 11, false), Match(12, 21, true)]
  {
    var s := "hello world \"foo bar\"";
    assert NextQuote(s, 13) == 20 by {
      assert s[20] == '"' && forall k :: 13 <= k < 20 ==> s[k] != '"';
    }
    assert RunEnd(s, 6) == 11;
    assert Scan(s, 11) == Scan(s, 12);
    assert RunEnd(s, 0) == 5;
    assert Scan(s, 5) == Scan(s, 6);
  }

  /** A non-empty atom that the bare alternative reads back unchanged. */
  predicate IsWord(w: string) {
    |w| > 0 && forall k :: 0 <= k < |w| ==> !IsSpace(w[k]) && w[k] != '"'
  }

  /** A word followed by whitespace or the end of the line is one bare atom. */
  lemma BareStep(s: string, i: nat, w: string)
    requires IsWord(w) && i + |w| <= |s| && s[i..i + |w|] == w
    requires i + |w| < |s| ==> IsSpace(s[i + |w|])
    ensures AtomsFrom(s, i) == [w] + AtomsFrom(s, i + |w|)
  {
    var e := i + |w|;
    forall k | i <= k < e
      ensures !IsSpace(s[k])
    {
      assert s[k] == w[k - i];
    }
    RunEndIs(s, i, e);
    var m := MatchAt(s, i);
    assert m.end == e && !m.quoted;
    AtomsFromMatch(s, i);
  }

  /** Text without quotes between two quotes is one atom: the text alone. */
  lemma QuotedStep(s: string, i: nat, w: string)
    requires i + |w| + 2 <= |s| && s[i] == '"' && s[i + 1..i + |w| + 1] == w && s[i + |w| + 1] == '"'
    requires '"' !in w
    ensures AtomsFrom(s, i) == [w] + AtomsFrom(s, i + |w| + 2)
  {
    var e := i + |w| + 1;
    forall k | i + 1 <= k < e
      ensures s[k] != '"'
    {
      assert s[k] == w[k - i - 1];
    }
    NextQuoteIs(s, i + 1, e);
    var m := MatchAt(s, i);
    assert m.end == e + 1 && m.quoted;
    AtomsFromMatch(s, i);
  }

  /** The worked example in the comment above splitAtoms. */
  const HelloWorld: string := "hello world \"foo bar\""

  lemma HelloWorldLast()
    ensures AtomsFrom(HelloWorld, 12) == ["foo bar"]
  {
    var s := HelloWorld;
    assert s[13..20] == "foo bar";
    QuotedStep(s, 12, "foo bar");
  }

  lemma HelloWorldMiddle()
    ensures AtomsFrom(HelloWorld, 6) == ["world"] + AtomsFrom(HelloWorld, 12)
  {
    var s := HelloWorld;
    assert s[6..11] == "world";
    BareStep(s, 6, "world");
    AtomsFromSpace(s, 11);
  }

  lemma HelloWorldFirst()
    ensures AtomsFrom(HelloWorld, 0) == ["hello"] + AtomsFrom(HelloWorld, 6)
  {
    var s := HelloWorld;
    assert s[0..5] == "hello";
    BareStep(s, 0, "hello");
    AtomsFromSpace(s, 5);
  }

  lemma HelloWorldExample()
    ensures Atoms(HelloWorld) == ["hello", "world", "foo bar"]
  {
    HelloWorldLast();
    HelloWorldMiddle();
    HelloWorldFirst();
  }

  /** Nothing but whitespace lies outside the regions `find` reports. */
  lemma {:induction false} ScanCoversNonSpace(s: string, i: nat, p: nat)
    requires i <= p < |s| && !IsSpace(s[p])
    ensures exists k :: 0 <= k < |Scan(s, i)| && Scan(s, i)[k].start <= p < Scan(s, i)[k].end
    decreases |s| - i
  {
    var ms := Scan(s, i);
    if IsSpace(s[i]) {
      ScanCoversNonSpace(s, i + 1, p);
    } else {
      var m := MatchAt(s, i);
      if p < m.end {
        assert ms[0] == m;
      } else {
        ScanCoversNonSpace(s, m.end, p);
        var rest := Scan(s, m.end);
        var k :| 0 <= k < |rest| && rest[k].start <= p < rest[k].end;
        assert ms[k + 1] == rest[k];
      }
    }
  }

  lemma {:induction false} BlankHasNoMatches(s: string, i: nat)
    requires i <= |s|
    requires forall k :: i <= k < |s| ==> IsSpace(s[k])
    ensures Scan(s, i) == []
    decreases |s| - i
  {
    if i < |s| {
      BlankHasNoMatches(s, i + 1);
    }
  }

  /** Empty or whitespace-only input yields no atoms, and only such input does. */
  lemma NoAtomsIffBlank(s: string)
    ensures Atoms(s) == [] <==> forall k :: 0 <= k < |s| ==> IsSpace(s[k])
  {
    AtomsFromScanLength(s, 0);
    if forall k :: 0 <= k < |s| ==> IsSpace(s[k]) {
      BlankHasNoMatches(s, 0);
    } else {
      var p :| 0 <= p < |s| && !IsSpace(s[p]);
      ScanCoversNonSpace(s, 0, p);
    }
  }

  /** An opening quote without a closing one falls back to the bare alternative. */
  lemma UnmatchedQuoteExample()
    ensures Atoms("\"abc") == ["\"abc"]
  {
    var s := "\"abc";
    assert NextQuote(s, 1) == 4;
    assert RunEnd(s, 0) == 4;
    assert s[0..4] == s;
  }

  /** Two adjacent quotes are one empty atom. */
  lemma EmptyQuotesExample()
    ensures Atoms("\"\"") == [""]
  {
    var s := "\"\"";
    assert NextQuote(s, 1) == 1;
  }

  // ---------------------------------------------------------------------
  // Round trips: lines built from atoms split back into those atoms
  // ---------------------------------------------------------------------

  /** A sequence identity that only guides the solver; it states nothing about splitAtoms. */
  lemma ConsOfHeadAndTail(a: seq<string>, x: string, b: seq<string>, ws: seq<string>)
    requires ws != [] && a == [x] + b && x == ws[0] && b == ws[1..]
    ensures a == ws
  {
  }

  /** Each atom written in quotes and followed by a space. */
  function QuotedLine(ws: seq<string>): string {
    if ws == [] then "" else "\"" + ws[0] + "\" " + QuotedLine(ws[1..])
  }

  /** A quoted line starts with its first atom in quotes, then a space, then the rest of the line. */
  lemma QuotedLineStart(s: string, i: nat, ws: seq<string>)
    requires ws != [] && i <= |s| && s[i..] == QuotedLine(ws)
    ensures i + |ws[0]| + 3 <= |s|
    ensures s[i] == '"' && s[i + 1..i + |ws[0]| + 1] == ws[0] && s[i + |ws[0]| + 1] == '"'
    ensures IsSpace(s[i + |ws[0]| + 2]) && s[i + |ws[0]| + 3..] == QuotedLine(ws[1..])
  {
    var w := ws[0];
    var line := QuotedLine(ws);
    assert line[0] == '"' && line[|w| + 1] == '"' && line[|w| + 2] == ' ';
    assert line[1..|w| + 1] == w;
    assert line[|w| + 3..] == QuotedLine(ws[1..]);
  }

  /** The first atom of a quoted line, given the atoms of the rest of the line. */
  lemma QuotedLineStep(s: string, i: nat, ws: seq<string>)
    requires ws != [] && '"' !in ws[0] && i + |ws[0]| + 3 <= |s|
    requires s[i] == '"' && s[i + 1..i + |ws[0]| + 1] == ws[0] && s[i + |ws[0]| + 1] == '"'
    requires IsSpace(s[i + |ws[0]| + 2]) && AtomsFrom(s, i + |ws[0]| + 3) == ws[1..]
    ensures AtomsFrom(s, i) == ws
  {
    var e := i + |ws[0]| + 2;
    QuotedStep(s, i, ws[0]);
    AtomsFromSpace(s, e);
    ConsOfHeadAndTail(AtomsFrom(s, i), ws[0], AtomsFrom(s, e + 1), ws);
  }

  lemma {:induction false} QuotedFrom(s: string, i: nat, ws: seq<string>)
    requires i <= |s| && s[i..] == QuotedLine(ws)
    requires forall k :: 0 <= k < |ws| ==> '"' !in ws[k]
    ensures AtomsFrom(s, i) == ws
    decreases ws
  {
    if ws == [] {
      assert |s| == i;
    } else {
      QuotedLineStart(s, i, ws);
      QuotedFrom(s, i + |ws[0]| + 3, ws[1..]);
      QuotedLineStep(s, i, ws);
    }
  }

  /** Quoting atoms that hold no quote round-trips through splitAtoms, spaces and empty atoms included. */
  lemma QuotedRoundTrip(ws: seq<string>)
    requires forall k :: 0 <= k < |ws| ==> '"' !in ws[k]
    ensures Atoms(QuotedLine(ws)) == ws
  {
    QuotedFrom(QuotedLine(ws), 0, ws);
  }

  /** Words separated by single spaces, the shape of a DICT command line. */
  function WordLine(ws: seq<string>): string
    requires ws != []
  {
    if |ws| == 1 then ws[0] else ws[0] + " " + WordLine(ws[1..])
  }

  /** A word line starts with its first word, then the end or a space and the rest of the line. */
  lemma WordLineStart(s: string, i: nat, ws: seq<string>)
    requires ws != [] && i <= |s| && s[i..] == WordLine(ws)
    ensures i + |ws[0]| <= |s| && s[i..i + |ws[0]|] == ws[0]
    ensures |ws| == 1 ==> i + |ws[0]| == |s|
    ensures |ws| > 1 ==> i + |ws[0]| < |s| && IsSpace(s[i + |ws[0]|])
    ensures |ws| > 1 ==> s[i + |ws[0]| + 1..] == WordLine(ws[1..])
  {
    var w := ws[0];
    var line := WordLine(ws);
    assert line[..|w|] == w;
    if |ws| > 1 {
      assert line[|w|] == ' ' && line[|w| + 1..] == WordLine(ws[1..]);
    }
  }

  /** The first word of a word line, given the atoms of the rest of the line. */
  lemma WordLineStep(s: string, i: nat, ws: seq<string>)
    requires ws != [] && IsWord(ws[0]) && i + |ws[0]| <= |s| && s[i..i + |ws[0]|] == ws[0]
    requires |ws| == 1 ==> i + |ws[0]| == |s|
    requires |ws| > 1 ==> i + |ws[0]| < |s| && IsSpace(s[i + |ws[0]|])
    requires |ws| > 1 ==> AtomsFrom(s, i + |ws[0]| + 1) == ws[1..]
    ensures AtomsFrom(s, i) == ws
  {
    var e := i + |ws[0]|;
    BareStep(s, i, ws[0]);
    if |ws| > 1 {
      AtomsFromSpace(s, e);
    }
    ConsOfHeadAndTail(AtomsFrom(s, i), ws[0], AtomsFrom(s, e), ws);
  }

  lemma {:induction false} WordsFrom(s: string, i: nat, ws: seq<string>)
    requires ws != [] && i <= |s| && s[i..] == WordLine(ws)
    requires forall k :: 0 <= k < |ws| ==> IsWord(ws[k])
    ensures AtomsFrom(s, i) == ws
    decreases ws
  {
    WordLineStart(s, i, ws);
    if |ws| > 1 {
      WordsFrom(s, i + |ws[0]| + 1, ws[1..]);
    }
    WordLineStep(s, i, ws);
  }

  /** Space-separated words round-trip through splitAtoms. */
  lemma WordRoundTrip(ws: seq<string>)
    requires ws != []
    requires forall k :: 0 <= k < |ws| ==> IsWord(ws[k])
    ensures Atoms(WordLine(ws)) == ws
  {
    WordsFrom(WordLine(ws), 0, ws);
  }
}
