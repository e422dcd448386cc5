/**
 * The reply grammar of the DICT client (RFC 2229) as DictionaryConnection
 * reads it: status lines, "."-terminated text bodies, and what each query
 * makes of the lines the server sends.
 *
 * The socket's input is a sequence of lines and a read position; every
 * reader below is a function of both, returning its value (or error) and the
 * position of the next unread line. DictionaryConnection's methods are
 * proved to compute exactly these functions.
 */
module DictProtocol {
  import opened JavaText
  import opened Ordered
  import DictStringParser

  // ---------------------------------------------------------------------
  // Values
  // ---------------------------------------------------------------------

  /** The causes of a DictConnectionException, plus the runtime failures the client would hit. */
  datatype DictError =
    | ConnectionRejected(code: int)
    | NotConnected
    | UnexpectedStatus(code: int)
    | EndStatusMismatch(expected: int, actual: int)
    | InvalidDatabase(name: string)
    | MalformedStatus(line: string)
    | MalformedCount(token: string)
    | MissingDatabaseField(details: string)
    | EndOfStream

  datatype Result<T> = Ok(value: T) | Err(error: DictError)

  /** What a reader yields and the position of the first line it left unread. */
  datatype Step<T> = Step(result: Result<T>, next: nat)

  datatype Status = Status(code: int, details: string)

  datatype Database = Database(name: string, description: string)

  /** Equality is structural: name and description. */
  datatype MatchingStrategy = MatchingStrategy(name: string, description: string)

  /** The word asked for, the database it was found in, and the trimmed text. */
  datatype Definition = Definition(word: string, database: string, text: string)

  const Terminator: string := "."

  // ---------------------------------------------------------------------
  // Status lines
  // ---------------------------------------------------------------------

  /**
   * A status line is three digits, a space and the details. Anything else is
   * malformed.
   */
  function ParseStatus(line: string): Result<Status> {
    if |line| >= 4 && AllDigits(line[..3]) && line[3] == ' ' then
      Ok(Status(DigitsValue(line[..3]), line[4..]))
    else
      Err(MalformedStatus(line))
  }

  /** How a server writes a status line. */
  function StatusLine(code: nat, details: string): string
    requires code < 1000
  {
    [DigitChar(code / 100), DigitChar(code / 10 % 10), DigitChar(code % 10), ' '] + details
  }

  lemma ThreeDigitsValue(a: char, b: char, c: char)
    requires IsDigit(a) && IsDigit(b) && IsDigit(c)
    ensures DigitsValue([a, b, c]) == 100 * DigitValue(a) + 10 * DigitValue(b) + DigitValue(c)
  {
    assert [a][..0] == [];
    assert DigitsValue([a]) == DigitValue(a);
    assert [a, b][..1] == [a];
    assert DigitsValue([a, b]) == 10 * DigitValue(a) + DigitValue(b);
    assert [a, b, c][..2] == [a, b];
  }

  lemma ParseStatusRoundTrip(code: nat, details: string)
    requires code < 1000
    ensures ParseStatus(StatusLine(code, details)) == Ok(Status(code, details))
  {
    var line := StatusLine(code, details);
    var a, b, c := DigitChar(code / 100), DigitChar(code / 10 % 10), DigitChar(code % 10);
    assert line[..3] == [a, b, c];
    ThreeDigitsValue(a, b, c);
    ThreeDigitsRecompose(code);
    assert line[4..] == details;
  }

  /** A code below 1000 is its hundreds, tens and units digits put back together. */
  lemma ThreeDigitsRecompose(code: nat)
    requires code < 1000
    ensures 100 * (code / 100) + 10 * (code / 10 % 10) + code % 10 == code
  {
    var q := code / 10;
    assert code == 10 * q + code % 10;
    assert q == 10 * (q / 10) + q % 10;
    assert q / 10 == code / 100;
  }

  lemma DecimalDigitsOf(a: nat, b: nat, c: nat)
    requires a < 10 && b < 10 && c < 10
    ensures (100 * a + 10 * b + c) / 100 == a
    ensures (100 * a + 10 * b + c) / 10 % 10 == b
    ensures (100 * a + 10 * b + c) % 10 == c
  {
    var n := 100 * a + 10 * b + c;
    assert n == 100 * a + (10 * b + c) && 10 * b + c < 100;
    assert n == 10 * (10 * a + b) + c;
    assert n / 10 == 10 * a + b;
  }

  /** Every line ParseStatus accepts is the status line of what it returns. */
  lemma ParseStatusInverse(line: string)
    requires ParseStatus(line).Ok?
    ensures ParseStatus(line).value.code < 1000
    ensures StatusLine(ParseStatus(line).value.code, ParseStatus(line).value.details) == line
  {
    var x, y, z := line[0], line[1], line[2];
    assert line[..3] == [x, y, z];
    ThreeDigitsValue(x, y, z);
    var code := ParseStatus(line).value.code;
    DecimalDigitsOf(DigitValue(x), DigitValue(y), DigitValue(z));
    assert DigitChar(code / 100) == x && DigitChar(code / 10 % 10) == y && DigitChar(code % 10) == z;
    assert line == [x, y, z, ' '] + line[4..];
  }

  /** Status.readStatus: one line; the end of the stream is an error. */
  function StatusAt(lines: seq<string>, pos: nat): Step<Status>
    requires pos <= |lines|
  {
    if pos < |lines| then Step(ParseStatus(lines[pos]), pos + 1) else Step(Err(EndOfStream), pos)
  }

  /** validateEndStatus: the next status must carry the expected code. */
  function EndStatusAt(lines: seq<string>, pos: nat, expected: int): (r: Step<()>)
    requires pos <= |lines|
    ensures pos <= r.next <= |lines|
    ensures r.result.Ok? <==> pos < |lines| && ParseStatus(lines[pos]).Ok? && ParseStatus(lines[pos]).value.code == expected
  {
    var s := StatusAt(lines, pos);
    match s.result
    case Err(e) => Step(Err(e), s.next)
    case Ok(st) =>
      if st.code == expected then Step(Ok(()), s.next)
      else Step(Err(EndStatusMismatch(expected, st.code)), s.next)
  }

  /** The greeting the constructor checks: the first status must be 220. */
  function GreetingAt(lines: seq<string>): (r: Step<()>)
    ensures r.next <= |lines|
    ensures r.result.Ok? <==> |lines| > 0 && ParseStatus(lines[0]).Ok? && ParseStatus(lines[0]).value.code == 220
    ensures r.result.Err? && |lines| > 0 && ParseStatus(lines[0]).Ok? ==>
              r.result.error == ConnectionRejected(ParseStatus(lines[0]).value.code)
  {
    var s := StatusAt(lines, 0);
    match s.result
    case Err(e) => Step(Err(e), s.next)
    case Ok(st) =>
      if st.code == 220 then Step(Ok(()), s.next)
      else Step(Err(ConnectionRejected(st.code)), s.next)
  }

  // ---------------------------------------------------------------------
  // Text bodies
  // ---------------------------------------------------------------------

  /** The line that ends a body: exactly ".", or "." once trimmed (the database list). */
  predicate IsTerminator(line: string, trimmed: bool) {
    (if trimmed then Trim(line) else line) == Terminator
  }

  /** Index of the first terminator at or after `pos`, or |lines| when the stream ends first. */
  function TerminatorFrom(lines: seq<string>, pos: nat, trimmed: bool): (k: nat)
    requires pos <= |lines|
    ensures pos <= k <= |lines|
    ensures k < |lines| ==> IsTerminator(lines[k], trimmed)
    decreases |lines| - pos
  {
    if pos == |lines| || IsTerminator(lines[pos], trimmed) then pos
    else TerminatorFrom(lines, pos + 1, trimmed)
  }

  lemma {:induction false} NoTerminatorBefore(lines: seq<string>, pos: nat, trimmed: bool)
    requires pos <= |lines|
    ensures forall k :: pos <= k < TerminatorFrom(lines, pos, trimmed) ==> !IsTerminator(lines[k], trimmed)
    decreases |lines| - pos
  {
    if pos < |lines| && !IsTerminator(lines[pos], trimmed) {
      NoTerminatorBefore(lines, pos + 1, trimmed);
    }
  }

  /** The first terminator is at `j` when `j` is one (or the end) and no line before it is. */
  lemma {:induction false} TerminatorFromIs(lines: seq<string>, pos: nat, trimmed: bool, j: nat)
    requires pos <= j <= |lines| && (j < |lines| ==> IsTerminator(lines[j], trimmed))
    requires forall k :: pos <= k < j ==> !IsTerminator(lines[k], trimmed)
    ensures TerminatorFrom(lines, pos, trimmed) == j
    decreases j - pos
  {
    if pos < j {
      TerminatorFromIs(lines, pos + 1, trimmed, j);
    }
  }

  /** The lines before the terminator, and the position after it. */
  function BodyAt(lines: seq<string>, pos: nat, trimmed: bool): (r: Step<seq<string>>)
    requires pos <= |lines|
    ensures pos <= r.next <= |lines|
    ensures r.result.Ok? ==> pos < r.next && IsTerminator(lines[r.next - 1], trimmed) && r.result.value == lines[pos..r.next - 1]
  {
    var k := TerminatorFrom(lines, pos, trimmed);
    if k == |lines| then Step(Err(EndOfStream), k) else Step(Ok(lines[pos..k]), k + 1)
  }

  /**
   * A body is read up to the FIRST terminator, which is consumed; without a
   * terminator the stream runs out.
   */
  lemma BodyAtFirstTerminator(lines: seq<string>, pos: nat, trimmed: bool)
    requires pos <= |lines|
    ensures var r := BodyAt(lines, pos, trimmed);
      r.result.Ok? ==> forall k :: 0 <= k < |r.result.value| ==> !IsTerminator(r.result.value[k], trimmed)
    ensures BodyAt(lines, pos, trimmed).result.Err? <==>
              forall k :: pos <= k < |lines| ==> !IsTerminator(lines[k], trimmed)
  {
    NoTerminatorBefore(lines, pos, trimmed);
  }

  /** Lines where `f` yields nothing are skipped; the rest contribute their value, in order. */
  function Collect<T>(f: string -> Option<T>, body: seq<string>): seq<T> {
    if body == [] then []
    else
      var rest := Collect(f, body[..|body| - 1]);
      match f(body[|body| - 1])
      case None => rest
      case Some(x) => rest + [x]
  }

  lemma {:induction false} CollectMembers<T>(f: string -> Option<T>, body: seq<string>, x: T)
    ensures x in Collect(f, body) <==> exists k :: 0 <= k < |body| && f(body[k]) == Some(x)
  {
    if body != [] {
      var front := body[..|body| - 1];
      CollectMembers(f, front, x);
      if exists k :: 0 <= k < |front| && f(front[k]) == Some(x) {
        var k :| 0 <= k < |front| && f(front[k]) == Some(x);
        assert body[k] == front[k];
      }
      if exists k :: 0 <= k < |body| && f(body[k]) == Some(x) {
        var k :| 0 <= k < |body| && f(body[k]) == Some(x);
        if k < |front| {
          assert front[k] == body[k];
        }
      }
    }
  }

  /**
   * Reading a body looks at no line before `pos` and none after its
   * terminator: a stream that agrees on those lines yields the same body.
   */
  lemma BodyAtReadsOnlyItsLines(lines: seq<string>, other: seq<string>, pos: nat, trimmed: bool)
    requires pos <= |lines| && BodyAt(lines, pos, trimmed).result.Ok?
    requires BodyAt(lines, pos, trimmed).next <= |other|
    requires forall j :: pos <= j < BodyAt(lines, pos, trimmed).next ==> other[j] == lines[j]
    ensures BodyAt(other, pos, trimmed) == BodyAt(lines, pos, trimmed)
  {
    var k := TerminatorFrom(lines, pos, trimmed);
    NoTerminatorBefore(lines, pos, trimmed);
    TerminatorFromIs(other, pos, trimmed, k);
    assert other[pos..k] == lines[pos..k];
  }

  /**
   * The database list accepts a "." padded with blanks as its terminator;
   * the other bodies accept only "." itself.
   */
  lemma PaddedTerminator(before: string, after: string)
    requires IsBlank(before) && IsBlank(after)
    ensures IsTerminator(before + Terminator + after, true)
    ensures IsTerminator(before + Terminator + after, false) <==> before == [] && after == []
  {
    TrimPadded(before, Terminator, after);
    if before != [] || after != [] {
      assert |before + Terminator + after| > |Terminator|;
    }
  }

  // ---------------------------------------------------------------------
  // What each parser makes of a body
  // ---------------------------------------------------------------------

  /** parseDefinition: an empty line adds "\n", a whitespace-only one nothing, any other the line and "\n". */
  function DefinitionPiece(line: string): string {
    if line == [] then "\n" else if IsBlank(line) then "" else line + "\n"
  }

  function DefinitionAccumulated(body: seq<string>): string {
    if body == [] then "" else DefinitionAccumulated(body[..|body| - 1]) + DefinitionPiece(body[|body| - 1])
  }

  /** The definition text: what the StringBuilder holds after the body, trimmed. */
  function DefinitionText(body: seq<string>): string {
    Trim(DefinitionAccumulated(body))
  }

  /**
   * parseMatches on one line: trim, strip one outer quote at each end, split
   * at the first space; the part after it, without quotes and trimmed, is the
   * matched word. A line without a space yields nothing.
   */
  function MatchWord(line: string): Option<string> {
    match SplitOnce(StripOuterQuotes(Trim(line)), ' ')
    case None => None
    case Some((_, rest)) => Some(Trim(RemoveQuotes(rest)))
  }

  /** The LinkedHashSet parseMatches fills. */
  function MatchesOf(body: seq<string>): seq<string> {
    Dedup(Collect(MatchWord, body))
  }

  /**
   * parseDatabases on one line: trimmed, split at the first quote; the key is
   * the trimmed text before it, the description the trimmed rest without a
   * trailing quote. A line without a quote yields nothing.
   */
  function DatabaseEntry(line: string): Option<(string, Database)> {
    match SplitOnce(Trim(line), '"')
    case None => None
    case Some((before, after)) =>
      var name := Trim(before);
      Some((name, Database(name, DropTrailingQuote(Trim(after)))))
  }

  /** The LinkedHashMap parseDatabases fills, one `put` per entry. */
  function DatabasesOf(body: seq<string>): seq<(string, Database)> {
    PutAll(Collect(DatabaseEntry, body))
  }

  /**
   * parseStrategies on one line: split at the first space, one outer quote
   * stripped from each end of both parts. A line without a space yields
   * nothing.
   */
  function StrategyEntry(line: string): Option<MatchingStrategy> {
    match SplitOnce(line, ' ')
    case None => None
    case Some((name, description)) =>
      Some(MatchingStrategy(StripOuterQuotes(name), StripOuterQuotes(description)))
  }

  /** The LinkedHashSet parseStrategies fills. */
  function StrategiesOf(body: seq<string>): seq<MatchingStrategy> {
    Dedup(Collect(StrategyEntry, body))
  }

  /** parseDatabaseInfo: every line followed by "\n". */
  function InfoJoined(body: seq<string>): string {
    if body == [] then "" else InfoJoined(body[..|body| - 1]) + body[|body| - 1] + "\n"
  }

  function InfoText(body: seq<string>): string {
    Trim(InfoJoined(body))
  }

  lemma CollectSnoc<T>(f: string -> Option<T>, body: seq<string>, line: string)
    ensures Collect(f, body + [line]) == match f(line) case None => Collect(f, body) case Some(x) => Collect(f, body) + [x]
  {
    assert (body + [line])[..|body|] == body;
  }

  lemma DedupSnoc<T>(xs: seq<T>, x: T)
    ensures Dedup(xs + [x]) == Insert(Dedup(xs), x)
  {
    assert (xs + [x])[..|xs|] == xs;
  }

  /** parseMatches adds the word of each line, if it has one, to the set. */
  lemma MatchesOfSnoc(body: seq<string>, line: string)
    ensures MatchesOf(body + [line]) == match MatchWord(line) case None => MatchesOf(body) case Some(w) => Insert(MatchesOf(body), w)
  {
    CollectSnoc(MatchWord, body, line);
    if MatchWord(line).Some? {
      DedupSnoc(Collect(MatchWord, body), MatchWord(line).value);
    }
  }

  /** parseStrategies adds the strategy of each line, if it has one, to the set. */
  lemma StrategiesOfSnoc(body: seq<string>, line: string)
    ensures StrategiesOf(body + [line]) ==
              match StrategyEntry(line) case None => StrategiesOf(body) case Some(st) => Insert(StrategiesOf(body), st)
  {
    CollectSnoc(StrategyEntry, body, line);
    if StrategyEntry(line).Some? {
      DedupSnoc(Collect(StrategyEntry, body), StrategyEntry(line).value);
    }
  }

  /** parseDatabases puts the entry of each line, if it has one, into the map. */
  lemma DatabasesOfSnoc(body: seq<string>, line: string)
    ensures DatabasesOf(body + [line]) ==
              match DatabaseEntry(line) case None => DatabasesOf(body) case Some(e) => Put(DatabasesOf(body), e.0, e.1)
  {
    CollectSnoc(DatabaseEntry, body, line);
    var es := Collect(DatabaseEntry, body);
    if DatabaseEntry(line).Some? {
      var e := DatabaseEntry(line).value;
      assert (es + [e])[..|es|] == es;
    }
  }

  lemma DefinitionAccumulatedSnoc(body: seq<string>, line: string)
    ensures DefinitionAccumulated(body + [line]) == DefinitionAccumulated(body) + DefinitionPiece(line)
  {
    assert (body + [line])[..|body|] == body;
  }

  lemma InfoJoinedSnoc(body: seq<string>, line: string)
    ensures InfoJoined(body + [line]) == InfoJoined(body) + line + "\n"
  {
    assert (body + [line])[..|body|] == body;
  }

  /** A line joins the set when some body line yields it; nothing else does. */
  lemma DedupCollectMembers<T>(f: string -> Option<T>, body: seq<string>, x: T)
    ensures x in Dedup(Collect(f, body)) <==> exists k :: 0 <= k < |body| && f(body[k]) == Some(x)
  {
    var xs := Collect(f, body);
    CollectMembers(f, body, x);
    DedupSpec(xs);
    if x in xs {
      var i :| 0 <= i < |xs| && xs[i] == x;
      assert xs[i] in Dedup(xs);
    }
    if x in Dedup(xs) {
      var i :| 0 <= i < |Dedup(xs)| && Dedup(xs)[i] == x;
      assert Dedup(xs)[i] in xs;
    }
  }

  /** A matched word holds no quote and has no surrounding whitespace. */
  lemma MatchWordClean(line: string)
    requires MatchWord(line).Some?
    ensures '"' !in MatchWord(line).value && IsTrimmed(MatchWord(line).value)
  {
    var rest := SplitOnce(StripOuterQuotes(Trim(line)), ' ').value.1;
    if '"' in MatchWord(line).value {
      TrimKeepsChars(RemoveQuotes(rest), '"');
    }
  }

  /**
   * The words parseMatches returns: each at most once, exactly the words some
   * line of the body yields, free of quotes and trimmed.
   */
  lemma MatchesOfSpec(body: seq<string>, w: string)
    ensures NoDuplicates(MatchesOf(body))
    ensures w in MatchesOf(body) <==> exists k :: 0 <= k < |body| && MatchWord(body[k]) == Some(w)
    ensures w in MatchesOf(body) ==> '"' !in w && IsTrimmed(w)
  {
    DedupCollectMembers(MatchWord, body, w);
    DedupSpec(Collect(MatchWord, body));
    if w in MatchesOf(body) {
      var k :| 0 <= k < |body| && MatchWord(body[k]) == Some(w);
      MatchWordClean(body[k]);
    }
  }

  /**
   * The strategies parseStrategies returns: each at most once, exactly those
   * some line of the body yields, every name free of spaces.
   */
  lemma StrategiesOfSpec(body: seq<string>, st: MatchingStrategy)
    ensures NoDuplicates(StrategiesOf(body))
    ensures st in StrategiesOf(body) <==> exists k :: 0 <= k < |body| && StrategyEntry(body[k]) == Some(st)
    ensures st in StrategiesOf(body) ==> ' ' !in st.name
  {
    DedupCollectMembers(StrategyEntry, body, st);
    DedupSpec(Collect(StrategyEntry, body));
    if st in StrategiesOf(body) {
      var k :| 0 <= k < |body| && StrategyEntry(body[k]) == Some(st);
    }
  }

  /**
   * The key of a database line is its trimmed text before the first quote,
   * and names the database; the description is the trimmed text after that
   * quote, less one trailing quote.
   */
  lemma DatabaseEntryNamed(line: string)
    requires DatabaseEntry(line).Some?
    ensures DatabaseEntry(line).value.1.name == DatabaseEntry(line).value.0
    ensures '"' !in DatabaseEntry(line).value.0 && IsTrimmed(DatabaseEntry(line).value.0)
    ensures var t := Trim(line); var k := IndexOf(t, '"');
            && k < |t|
            && DatabaseEntry(line).value.0 == Trim(t[..k])
            && DatabaseEntry(line).value.1.description == DropTrailingQuote(Trim(t[k + 1..]))
  {
    var before := SplitOnce(Trim(line), '"').value.0;
    if '"' in DatabaseEntry(line).value.0 {
      TrimKeepsChars(before, '"');
    }
  }

  /**
   * The map parseDatabases returns: one entry per distinct name, in order of
   * first appearance; each holds the database of the LAST line with that
   * name, and that database carries the name as its own.
   */
  lemma DatabasesOfSpec(body: seq<string>, i: nat)
    requires i < |DatabasesOf(body)|
    ensures Keys(DatabasesOf(body)) == Dedup(Keys(Collect(DatabaseEntry, body)))
    ensures NoDuplicates(Keys(DatabasesOf(body)))
    ensures DatabasesOf(body)[i].0 in Keys(Collect(DatabaseEntry, body))
    ensures DatabasesOf(body)[i].1 == LastValue(Collect(DatabaseEntry, body), DatabasesOf(body)[i].0)
    ensures DatabasesOf(body)[i].1.name == DatabasesOf(body)[i].0
    ensures '"' !in DatabasesOf(body)[i].0
  {
    var es := Collect(DatabaseEntry, body);
    PutAllKeys(es);
    DedupSpec(Keys(es));
    PutAllLastValueWins(es, i);
    var key := DatabasesOf(body)[i].0;
    LastValueEntry(es, key);
    var e := (key, LastValue(es, key));
    CollectMembers(DatabaseEntry, body, e);
    var k :| 0 <= k < |body| && DatabaseEntry(body[k]) == Some(e);
    DatabaseEntryNamed(body[k]);
  }

  /**
   * How a server writes a line of a MATCH, SHOW DB or SHOW STRAT body: a
   * name, a space, then a text in double quotes.
   */
  function QuotedEntryLine(name: string, text: string): string {
    name + " \"" + text + "\""
  }

  lemma QuotedEntryLineShape(name: string, text: string)
    ensures QuotedEntryLine(name, text) == name + [' '] + ("\"" + text + "\"")
    ensures QuotedEntryLine(name, text) == (name + " ") + ['"'] + (text + "\"")
    ensures |QuotedEntryLine(name, text)| == |name| + |text| + 3
    ensures QuotedEntryLine(name, text)[|name| + |text| + 2] == '"'
  {
  }

  /** parseMatches reads back the quoted word of a well-formed match line. */
  lemma MatchLineRoundTrip(database: string, word: string)
    requires database != [] && IsTrimmed(database) && ' ' !in database && '"' !in database
    requires IsTrimmed(word) && '"' !in word
    ensures MatchWord(QuotedEntryLine(database, word)) == Some(word)
  {
    var line := QuotedEntryLine(database, word);
    QuotedEntryLineShape(database, word);
    assert line[0] == database[0];
    TrimmedIsFixpoint(line);
    var quoted := "\"" + word;
    assert StripOuterQuotes(line) == database + [' '] + quoted;
    SplitOnceAtFirst(database, ' ', quoted);
    RemoveQuotesOfQuoteFree(word);
    assert quoted[1..] == word;
    assert RemoveQuotes(quoted) == word;
    TrimmedIsFixpoint(word);
  }

  /**
   * parseDatabases reads back the name and the description of a well-formed
   * line; the description may itself hold quotes.
   */
  lemma DatabaseLineRoundTrip(name: string, description: string)
    requires name != [] && IsTrimmed(name) && '"' !in name && IsTrimmed(description)
    ensures DatabaseEntry(QuotedEntryLine(name, description)) == Some((name, Database(name, description)))
  {
    var line := QuotedEntryLine(name, description);
    QuotedEntryLineShape(name, description);
    assert line[0] == name[0];
    TrimmedIsFixpoint(line);
    assert '"' !in name + " ";
    SplitOnceAtFirst(name + " ", '"', description + "\"");
    TrimTrailingPadding(name, " ");
    var rest := description + "\"";
    TrimmedIsFixpoint(rest);
    assert rest[..|rest| - 1] == description;
  }

  /** parseStrategies reads back the name and the unquoted description of a well-formed line. */
  lemma StrategyLineRoundTrip(name: string, description: string)
    requires name != [] && ' ' !in name && name[0] != '"' && name[|name| - 1] != '"'
    ensures StrategyEntry(QuotedEntryLine(name, description)) == Some(MatchingStrategy(name, description))
  {
    var quoted := "\"" + description + "\"";
    QuotedEntryLineShape(name, description);
    SplitOnceAtFirst(name, ' ', quoted);
    assert quoted[1..] == description + "\"";
    assert (description + "\"")[..|description|] == description;
  }

  /** Definition texts accumulate line by line. */
  lemma {:induction false} DefinitionAccumulatedAppend(a: seq<string>, b: seq<string>)
    ensures DefinitionAccumulated(a + b) == DefinitionAccumulated(a) + DefinitionAccumulated(b)
    decreases |b|
  {
    if b != [] {
      var front := b[..|b| - 1];
      DefinitionAccumulatedAppend(a, front);
      assert (a + b)[..|a + b| - 1] == a + front;
      assert (a + b)[|a + b| - 1] == b[|b| - 1];
      var x, y, z := DefinitionAccumulated(a), DefinitionAccumulated(front), DefinitionPiece(b[|b| - 1]);
      assert DefinitionAccumulated(a + b) == (x + y) + z;
      assert DefinitionAccumulated(b) == y + z;
      assert (x + y) + z == x + (y + z);
    } else {
      assert a + b == a;
    }
  }

  /** In a definition body a whitespace-only line leaves no trace. */
  lemma DefinitionSkipsBlankLine(a: seq<string>, b: seq<string>, line: string)
    requires line != [] && IsBlank(line)
    ensures DefinitionAccumulated(a + [line] + b) == DefinitionAccumulated(a + b)
  {
    DefinitionAccumulatedAppend(a + [line], b);
    DefinitionAccumulatedAppend(a, [line]);
    DefinitionAccumulatedAppend(a, b);
    assert [line][..0] == [];
    assert DefinitionAccumulated([line]) == "";
    assert DefinitionAccumulated(a + [line]) == DefinitionAccumulated(a);
  }

  /** An empty line of a definition body is kept as a line break of its own. */
  lemma DefinitionKeepsEmptyLine(a: seq<string>, b: seq<string>)
    ensures DefinitionAccumulated(a + [""] + b) == DefinitionAccumulated(a) + "\n" + DefinitionAccumulated(b)
  {
    DefinitionAccumulatedAppend(a + [""], b);
    DefinitionAccumulatedAppend(a, [""]);
    assert [""][..0] == [];
    assert DefinitionAccumulated([""]) == "\n";
  }

  /**
   * An empty line between two lines of text survives as a blank line of the
   * definition; the trailing line break is trimmed away.
   */
  lemma DefinitionParagraphs(first: string, second: string)
    requires first != [] && IsTrimmed(first) && second != [] && IsTrimmed(second)
    ensures DefinitionText([first, "", second]) == first + "\n\n" + second
  {
    ParagraphsAccumulated(first, second);
    TrimPadded([], first + "\n\n" + second, "\n");
  }

  lemma ParagraphsAccumulated(first: string, second: string)
    requires first != [] && IsTrimmed(first) && second != [] && IsTrimmed(second)
    ensures DefinitionAccumulated([first, "", second]) == [] + (first + "\n\n" + second) + "\n"
  {
    assert [first, "", second] == [first] + [""] + [second];
    DefinitionKeepsEmptyLine([first], [second]);
    OneLineAccumulated(first);
    OneLineAccumulated(second);
    ParagraphJoin(first, second);
  }

  lemma ParagraphJoin(a: string, b: string)
    ensures (a + "\n") + "\n" + (b + "\n") == [] + (a + "\n\n" + b) + "\n"
  {
  }

  /** A line with text accumulates to itself and a line break. */
  lemma OneLineAccumulated(line: string)
    requires line != [] && IsTrimmed(line)
    ensures DefinitionAccumulated([line]) == line + "\n"
  {
    assert [line][..0] == [];
    assert !IsBlank(line) by { assert !IsTrimmable(line[0]); }
  }

  /** parseDatabaseInfo's text accumulates line by line. */
  lemma {:induction false} InfoJoinedAppend(a: seq<string>, b: seq<string>)
    ensures InfoJoined(a + b) == InfoJoined(a) + InfoJoined(b)
    decreases |b|
  {
    if b != [] {
      var front := b[..|b| - 1];
      InfoJoinedAppend(a, front);
      assert (a + b)[..|a + b| - 1] == a + front;
      assert (a + b)[|a + b| - 1] == b[|b| - 1];
      var x, y, z := InfoJoined(a), InfoJoined(front), b[|b| - 1] + "\n";
      assert InfoJoined(a + b) == (x + y) + z;
      assert InfoJoined(b) == y + z;
      assert (x + y) + z == x + (y + z);
    } else {
      assert a + b == a;
    }
  }

  // ---------------------------------------------------------------------
  // Readers, one per parse method
  // ---------------------------------------------------------------------

  /** The code of the status line at `pos`, when there is a well-formed one. */
  function CodeAt(lines: seq<string>, pos: nat): Option<int> {
    if pos < |lines| && ParseStatus(lines[pos]).Ok? then Some(ParseStatus(lines[pos]).value.code) else None
  }

  /** The text of a definition block: its lines up to the terminator, accumulated and trimmed. */
  function DefinitionTextAt(lines: seq<string>, pos: nat): (r: Step<string>)
    requires pos <= |lines|
    ensures pos <= r.next <= |lines|
    ensures r.result.Ok? ==> IsTrimmed(r.result.value)
  {
    var b := BodyAt(lines, pos, false);
    match b.result
    case Err(e) => Step(Err(e), b.next)
    case Ok(body) => Step(Ok(DefinitionText(body)), b.next)
  }

  /** parseDefinition: a 151 status, whose second field names the database, then the text body. */
  function DefinitionAt(lines: seq<string>, pos: nat, word: string): (r: Step<Definition>)
    requires pos <= |lines|
    ensures pos <= r.next <= |lines|
    ensures r.result.Ok? ==> r.result.value.word == word && IsTrimmed(r.result.value.text)
  {
    var s := StatusAt(lines, pos);
    match s.result
    case Err(e) => Step(Err(e), s.next)
    case Ok(st) =>
      match SecondField(st.details)
      case None => Step(Err(MissingDatabaseField(st.details)), s.next)
      case Some(db) =>
        var t := DefinitionTextAt(lines, pos + 1);
        match t.result
        case Err(e) => Step(Err(e), t.next)
        case Ok(text) => Step(Ok(Definition(word, db, text)), t.next)
  }

  /**
   * A definition read at `pos` takes its database from the second field of
   * its own status line and its text from the body that follows that line.
   */
  lemma DefinitionAtReads(lines: seq<string>, pos: nat, word: string)
    requires pos <= |lines| && DefinitionAt(lines, pos, word).result.Ok?
    ensures pos < |lines| && ParseStatus(lines[pos]).Ok?
    ensures SecondField(ParseStatus(lines[pos]).value.details) == Some(DefinitionAt(lines, pos, word).result.value.database)
    ensures BodyAt(lines, pos + 1, false).result.Ok?
    ensures DefinitionAt(lines, pos, word).next == BodyAt(lines, pos + 1, false).next
    ensures DefinitionAt(lines, pos, word).result.value.text == DefinitionText(BodyAt(lines, pos + 1, false).result.value)
  {
    var s := StatusAt(lines, pos);
    assert s.result.Ok?;
    var db := SecondField(s.result.value.details);
    assert db.Some?;
    var b := BodyAt(lines, pos + 1, false);
    assert b.result.Ok?;
    assert DefinitionAt(lines, pos, word) == Step(Ok(Definition(word, db.value, DefinitionText(b.result.value))), b.next);
  }

  /** Definitions that answer `word`: each carries it, and each text is trimmed. */
  predicate Answers(word: string, defs: seq<Definition>) {
    forall k :: 0 <= k < |defs| ==> defs[k].word == word && IsTrimmed(defs[k].text)
  }

  lemma AnswersCons(word: string, d: Definition, defs: seq<Definition>)
    requires d.word == word && IsTrimmed(d.text) && Answers(word, defs)
    ensures Answers(word, [d] + defs)
  {
    var all := [d] + defs;
    forall k | 0 <= k < |all|
      ensures all[k].word == word && IsTrimmed(all[k].text)
    {
      if k > 0 {
        assert all[k] == defs[k - 1];
      }
    }
  }

  /** `n` definitions in a row (none when `n` is not positive), or the first error. */
  function DefinitionsAt(lines: seq<string>, pos: nat, word: string, n: int): (r: Step<seq<Definition>>)
    requires pos <= |lines|
    ensures pos <= r.next <= |lines|
    ensures r.result.Ok? ==> |r.result.value| == (if n < 0 then 0 else n)
    ensures r.result.Ok? ==> Answers(word, r.result.value)
    decreases if n < 0 then 0 else n
  {
    if n <= 0 then Step(Ok([]), pos)
    else
      var d := DefinitionAt(lines, pos, word);
      match d.result
      case Err(e) => Step(Err(e), d.next)
      case Ok(def) =>
        var rest := DefinitionsAt(lines, d.next, word, n - 1);
        match rest.result
        case Err(e) => rest
        case Ok(defs) =>
          AnswersCons(word, def, defs);
          Step(Ok([def] + defs), rest.next)
  }

  /** parseDefinitions: the count is the first space-separated field of the 150 details. */
  function ParseDefinitionsAt(lines: seq<string>, pos: nat, word: string, details: string): (r: Step<seq<Definition>>)
    requires pos <= |lines|
    ensures pos <= r.next <= |lines|
    ensures r.result.Ok? ==> ParseInt(FirstField(details)).Some?
    ensures r.result.Ok? ==> |r.result.value| == (var n := ParseInt(FirstField(details)).value; if n < 0 then 0 else n)
    ensures r.result.Ok? ==> Answers(word, r.result.value)
  {
    var token := FirstField(details);
    match ParseInt(token)
    case None => Step(Err(MalformedCount(token)), pos)
    case Some(n) => DefinitionsAt(lines, pos, word, n)
  }

  /** parseMatches */
  function MatchesAt(lines: seq<string>, pos: nat): (r: Step<seq<string>>)
    requires pos <= |lines|
    ensures pos <= r.next <= |lines|
  {
    var b := BodyAt(lines, pos, false);
    match b.result
    case Err(e) => Step(Err(e), b.next)
    case Ok(body) => Step(Ok(MatchesOf(body)), b.next)
  }

  lemma MatchesAtBody(lines: seq<string>, pos: nat)
    requires pos <= |lines|
    ensures var b := BodyAt(lines, pos, false);
      MatchesAt(lines, pos) == if b.result.Ok? then Step(Ok(MatchesOf(b.result.value)), b.next) else Step(Err(b.result.error), b.next)
  {
  }

  /** parseDatabases: the terminator test sees the trimmed line. */
  function DatabasesAt(lines: seq<string>, pos: nat): (r: Step<seq<(string, Database)>>)
    requires pos <= |lines|
    ensures pos <= r.next <= |lines|
  {
    var b := BodyAt(lines, pos, true);
    match b.result
    case Err(e) => Step(Err(e), b.next)
    case Ok(body) => Step(Ok(DatabasesOf(body)), b.next)
  }

  /** parseStrategies */
  function StrategiesAt(lines: seq<string>, pos: nat): (r: Step<seq<MatchingStrategy>>)
    requires pos <= |lines|
    ensures pos <= r.next <= |lines|
  {
    var b := BodyAt(lines, pos, false);
    match b.result
    case Err(e) => Step(Err(e), b.next)
    case Ok(body) => Step(Ok(StrategiesOf(body)), b.next)
  }

  /** parseDatabaseInfo: the first line is skipped whatever it holds, then the body follows. */
  function InfoAt(lines: seq<string>, pos: nat): (r: Step<string>)
    requires pos <= |lines|
    ensures pos <= r.next <= |lines|
    ensures r.result.Ok? ==> IsTrimmed(r.result.value)
  {
    if pos == |lines| then Step(Err(EndOfStream), pos)
    else
      var b := BodyAt(lines, pos + 1, false);
      match b.result
      case Err(e) => Step(Err(e), b.next)
      case Ok(body) => Step(Ok(InfoText(body)), b.next)
  }

  /** parseDatabaseInfo's result does not depend on the header line it skips. */
  lemma InfoAtIgnoresHeader(lines: seq<string>, pos: nat, header: string)
    requires pos < |lines|
    ensures InfoAt(lines[pos := header], pos) == InfoAt(lines, pos)
  {
    var other := lines[pos := header];
    if BodyAt(lines, pos + 1, false).result.Ok? {
      BodyAtReadsOnlyItsLines(lines, other, pos + 1, false);
    } else if BodyAt(other, pos + 1, false).result.Ok? {
      BodyAtReadsOnlyItsLines(other, lines, pos + 1, false);
    }
  }

  /** A parsed body followed by validateEndStatus(250). */
  function Completed<T>(lines: seq<string>, b: Step<T>): (r: Step<T>)
    requires b.next <= |lines|
    ensures b.next <= r.next <= |lines|
    ensures r.result.Ok? <==> b.result.Ok? && CodeAt(lines, b.next) == Some(250)
    ensures r.result.Ok? ==> r.result.value == b.result.value && r.next == b.next + 1
  {
    match b.result
    case Err(_) => b
    case Ok(v) =>
      var e := EndStatusAt(lines, b.next, 250);
      match e.result
      case Err(err) => Step(Err(err), e.next)
      case Ok(_) => Step(Ok(v), e.next)
  }

  // ---------------------------------------------------------------------
  // Replies: the status line, then the dispatch on its code
  // ---------------------------------------------------------------------

  /**
   * getDefinitions after DEFINE: 550 (no such database) and 552 (no match)
   * give no definitions and read nothing more; 150 announces the count and
   * is followed by the definitions and a 250; any other code is an error.
   * Every definition it yields carries the word asked for and a trimmed text.
   */
  function DefineReplyAt(lines: seq<string>, pos: nat, word: string): (r: Step<seq<Definition>>)
    requires pos <= |lines|
    ensures pos <= r.next <= |lines|
    ensures (CodeAt(lines, pos) == Some(550) || CodeAt(lines, pos) == Some(552)) ==> r == Step(Ok([]), pos + 1)
    ensures CodeAt(lines, pos) == Some(150) ==>
              r == Completed(lines, ParseDefinitionsAt(lines, pos + 1, word, ParseStatus(lines[pos]).value.details))
    ensures r.result.Ok? ==> (CodeAt(lines, pos) == Some(550) || CodeAt(lines, pos) == Some(552) || CodeAt(lines, pos) == Some(150))
    ensures CodeAt(lines, pos).Some? && (CodeAt(lines, pos) != Some(550) && CodeAt(lines, pos) != Some(552) && CodeAt(lines, pos) != Some(150)) ==>
              r == Step(Err(UnexpectedStatus(CodeAt(lines, pos).value)), pos + 1)
    ensures r.result.Ok? ==> Answers(word, r.result.value)
  {
    var s := StatusAt(lines, pos);
    match s.result
    case Err(e) => Step(Err(e), s.next)
    case Ok(st) =>
      if st.code == 550 || st.code == 552 then Step(Ok([]), s.next)
      else if st.code == 150 then
        Completed(lines, ParseDefinitionsAt(lines, pos + 1, word, st.details))
      else Step(Err(UnexpectedStatus(st.code)), s.next)
  }

  /** A DEFINE reply that yields definitions was a 150 reply and yields exactly the count it announced. */
  lemma DefineReplyCount(lines: seq<string>, pos: nat, word: string)
    requires pos <= |lines|
    requires DefineReplyAt(lines, pos, word).result.Ok? && DefineReplyAt(lines, pos, word).result.value != []
    ensures CodeAt(lines, pos) == Some(150)
    ensures ParseInt(FirstField(ParseStatus(lines[pos]).value.details)) == Some(|DefineReplyAt(lines, pos, word).result.value|)
  {
    var r := DefineReplyAt(lines, pos, word);
    assert CodeAt(lines, pos) == Some(150);
    var p := ParseDefinitionsAt(lines, pos + 1, word, ParseStatus(lines[pos]).value.details);
    assert r == Completed(lines, p);
    assert p.result.Ok? && p.result.value == r.result.value;
  }

  /**
   * getMatchList after MATCH: 550, 551 (no such strategy) and 552 give no
   * words; 152 is followed by the word list and a 250.
   */
  function MatchReplyAt(lines: seq<string>, pos: nat): (r: Step<seq<string>>)
    requires pos <= |lines|
    ensures pos <= r.next <= |lines|
    ensures (CodeAt(lines, pos) == Some(550) || CodeAt(lines, pos) == Some(551) || CodeAt(lines, pos) == Some(552)) ==> r == Step(Ok([]), pos + 1)
    ensures CodeAt(lines, pos) == Some(152) ==> r == Completed(lines, MatchesAt(lines, pos + 1))
    ensures r.result.Ok? ==> (CodeAt(lines, pos) == Some(550) || CodeAt(lines, pos) == Some(551) || CodeAt(lines, pos) == Some(552) || CodeAt(lines, pos) == Some(152))
    ensures CodeAt(lines, pos).Some? && (CodeAt(lines, pos) != Some(550) && CodeAt(lines, pos) != Some(551) && CodeAt(lines, pos) != Some(552) && CodeAt(lines, pos) != Some(152)) ==>
              r == Step(Err(UnexpectedStatus(CodeAt(lines, pos).value)), pos + 1)
  {
    var s := StatusAt(lines, pos);
    match s.result
    case Err(e) => Step(Err(e), s.next)
    case Ok(st) =>
      if st.code == 550 || st.code == 551 || st.code == 552 then Step(Ok([]), s.next)
      else if st.code == 152 then Completed(lines, MatchesAt(lines, pos + 1))
      else Step(Err(UnexpectedStatus(st.code)), s.next)
  }

  /** getDatabaseList after SHOW DB: 554 means none; 110 is followed by the list and a 250. */
  function DatabaseListReplyAt(lines: seq<string>, pos: nat): (r: Step<seq<(string, Database)>>)
    requires pos <= |lines|
    ensures pos <= r.next <= |lines|
    ensures CodeAt(lines, pos) == Some(554) ==> r == Step(Ok([]), pos + 1)
    ensures CodeAt(lines, pos) == Some(110) ==> r == Completed(lines, DatabasesAt(lines, pos + 1))
    ensures r.result.Ok? ==> (CodeAt(lines, pos) == Some(554) || CodeAt(lines, pos) == Some(110))
    ensures CodeAt(lines, pos).Some? && (CodeAt(lines, pos) != Some(554) && CodeAt(lines, pos) != Some(110)) ==>
              r == Step(Err(UnexpectedStatus(CodeAt(lines, pos).value)), pos + 1)
  {
    var s := StatusAt(lines, pos);
    match s.result
    case Err(e) => Step(Err(e), s.next)
    case Ok(st) =>
      if st.code == 554 then Step(Ok([]), s.next)
      else if st.code == 110 then Completed(lines, DatabasesAt(lines, pos + 1))
      else Step(Err(UnexpectedStatus(st.code)), s.next)
  }

  /** getStrategyList after SHOW STRAT: 555 means none; 111 is followed by the list and a 250. */
  function StrategyListReplyAt(lines: seq<string>, pos: nat): (r: Step<seq<MatchingStrategy>>)
    requires pos <= |lines|
    ensures pos <= r.next <= |lines|
    ensures CodeAt(lines, pos) == Some(555) ==> r == Step(Ok([]), pos + 1)
    ensures CodeAt(lines, pos) == Some(111) ==> r == Completed(lines, StrategiesAt(lines, pos + 1))
    ensures r.result.Ok? ==> (CodeAt(lines, pos) == Some(555) || CodeAt(lines, pos) == Some(111))
    ensures CodeAt(lines, pos).Some? && (CodeAt(lines, pos) != Some(555) && CodeAt(lines, pos) != Some(111)) ==>
              r == Step(Err(UnexpectedStatus(CodeAt(lines, pos).value)), pos + 1)
  {
    var s := StatusAt(lines, pos);
    match s.result
    case Err(e) => Step(Err(e), s.next)
    case Ok(st) =>
      if st.code == 555 then Step(Ok([]), s.next)
      else if st.code == 111 then Completed(lines, StrategiesAt(lines, pos + 1))
      else Step(Err(UnexpectedStatus(st.code)), s.next)
  }

  /**
   * getDatabaseInfo after SHOW INFO: unlike the list queries, 550 is an
   * error; 112 is followed by the information and a 250.
   */
  function DatabaseInfoReplyAt(lines: seq<string>, pos: nat, name: string): (r: Step<string>)
    requires pos <= |lines|
    ensures pos <= r.next <= |lines|
    ensures CodeAt(lines, pos) == Some(550) ==> r == Step(Err(InvalidDatabase(name)), pos + 1)
    ensures CodeAt(lines, pos) == Some(112) ==> r == Completed(lines, InfoAt(lines, pos + 1))
    ensures r.result.Ok? ==> CodeAt(lines, pos) == Some(112)
    ensures CodeAt(lines, pos).Some? && (CodeAt(lines, pos) != Some(550) && CodeAt(lines, pos) != Some(112)) ==>
              r == Step(Err(UnexpectedStatus(CodeAt(lines, pos).value)), pos + 1)
  {
    var s := StatusAt(lines, pos);
    match s.result
    case Err(e) => Step(Err(e), s.next)
    case Ok(st) =>
      if st.code == 550 then Step(Err(InvalidDatabase(name)), s.next)
      else if st.code == 112 then Completed(lines, InfoAt(lines, pos + 1))
      else Step(Err(UnexpectedStatus(st.code)), s.next)
  }

  // ---------------------------------------------------------------------
  // Commands
  // ---------------------------------------------------------------------

  function DefineCommand(database: string, word: string): string {
    "DEFINE " + database + " " + word
  }

  function MatchCommand(database: string, strategy: string, word: string): string {
    "MATCH " + database + " " + strategy + " " + word
  }

  const ShowDatabasesCommand: string := "SHOW DB"

  const ShowStrategiesCommand: string := "SHOW STRAT"

  function ShowInfoCommand(database: string): string {
    "SHOW INFO " + database
  }

  const QuitCommand: string := "QUIT"

  /** getDatabaseInfo answers for the two wildcard database names without asking the server. */
  function WildcardInfo(name: string): Option<string> {
    if name == "*" then Some("Searching in all databases")
    else if name == "!" then Some("Searching in first database with match")
    else None
  }

  lemma WordLineOfThree(a: string, b: string, c: string)
    ensures DictStringParser.WordLine([a, b, c]) == a + " " + (b + " " + c)
  {
    assert [a, b, c][1..] == [b, c] && [b, c][1..] == [c];
    assert DictStringParser.WordLine([c]) == c;
    assert DictStringParser.WordLine([b, c]) == b + " " + c;
  }

  /** Built from space-free, quote-free names, a DEFINE line splits back into its keyword and arguments. */
  lemma DefineCommandAtoms(database: string, word: string)
    requires DictStringParser.IsWord(database) && DictStringParser.IsWord(word)
    ensures DictStringParser.Atoms(DefineCommand(database, word)) == ["DEFINE", database, word]
  {
    var ws := ["DEFINE", database, word];
    assert DictStringParser.IsWord("DEFINE");
    assert forall k :: 0 <= k < |ws| ==> DictStringParser.IsWord(ws[k]);
    WordLineOfThree("DEFINE", database, word);
    assert DefineCommand(database, word) == "DEFINE" + " " + (database + " " + word);
    DictStringParser.WordRoundTrip(ws);
  }

  /** Built from space-free, quote-free names, a MATCH line splits back into its keyword and arguments. */
  lemma MatchCommandAtoms(database: string, strategy: string, word: string)
    requires DictStringParser.IsWord(database) && DictStringParser.IsWord(strategy) && DictStringParser.IsWord(word)
    ensures DictStringParser.Atoms(MatchCommand(database, strategy, word)) == ["MATCH", database, strategy, word]
  {
    var ws := ["MATCH", database, strategy, word];
    assert DictStringParser.IsWord("MATCH");
    assert forall k :: 0 <= k < |ws| ==> DictStringParser.IsWord(ws[k]);
    WordLineOfThree(database, strategy, word);
    assert ws[1..] == [database, strategy, word];
    assert DictStringParser.WordLine(ws) == "MATCH" + " " + (database + " " + (strategy + " " + word));
    assert MatchCommand(database, strategy, word) == "MATCH" + " " + (database + " " + (strategy + " " + word));
    DictStringParser.WordRoundTrip(ws);
  }

  /** Built from a space-free, quote-free name, a SHOW INFO line splits back into its keywords and argument. */
  lemma ShowInfoCommandAtoms(database: string)
    requires DictStringParser.IsWord(database)
    ensures DictStringParser.Atoms(ShowInfoCommand(database)) == ["SHOW", "INFO", database]
  {
    var ws := ["SHOW", "INFO", database];
    assert DictStringParser.IsWord("SHOW") && DictStringParser.IsWord("INFO");
    assert forall k :: 0 <= k < |ws| ==> DictStringParser.IsWord(ws[k]);
    WordLineOfThree("SHOW", "INFO", database);
    assert ShowInfoCommand(database) == "SHOW" + " " + ("INFO" + " " + database);
    DictStringParser.WordRoundTrip(ws);
  }

  // ---------------------------------------------------------------------
  // Worked replies
  // ---------------------------------------------------------------------

  /** `lines` holds `body` from `pos` on, then a terminator, and no line of `body` ends it early. */
  predicate HoldsBody(lines: seq<string>, pos: nat, body: seq<string>) {
    && pos + |body| < |lines|
    && (forall k :: 0 <= k < |body| ==> lines[pos + k] == body[k] && body[k] != Terminator)
    && lines[pos + |body|] == Terminator
  }

  lemma HoldsBodyRead(lines: seq<string>, pos: nat, body: seq<string>)
    requires HoldsBody(lines, pos, body)
    ensures BodyAt(lines, pos, false) == Step(Ok(body), pos + |body| + 1)
  {
    forall k | pos <= k < pos + |body|
      ensures !IsTerminator(lines[k], false)
    {
      assert lines[k] == body[k - pos];
    }
    TerminatorFromIs(lines, pos, false, pos + |body|);
    assert lines[pos..pos + |body|] == body;
  }

  /** The details of a 151 line: the word, the database and its description. */
  function DefinitionDetails(word: string, database: string, description: string): string {
    word + " " + database + " " + description
  }

  /** The database of a 151 line is its second field. */
  lemma DefinitionDetailsDatabase(word: string, database: string, description: string)
    requires ' ' !in word && ' ' !in database
    ensures SecondField(DefinitionDetails(word, database, description)) == Some(database)
  {
    var rest := database + " " + description;
    assert DefinitionDetails(word, database, description) == word + [' '] + rest;
    SplitOnceAtFirst(word, ' ', rest);
    assert rest == database + [' '] + description;
    IndexOfFirst(database, ' ', description);
    assert rest[..|database|] == database;
  }

  /**
   * A definition block as a server sends it (a 151 line naming the database
   * as its second field, the text, the terminator) reads back as one
   * Definition of the word asked for, from that database, with that text.
   */
  lemma DefinitionBlockRoundTrip(lines: seq<string>, pos: nat, asked: string, word: string, database: string,
                                 description: string, body: seq<string>)
    requires pos < |lines| && lines[pos] == StatusLine(151, DefinitionDetails(word, database, description))
    requires ' ' !in word && ' ' !in database
    requires HoldsBody(lines, pos + 1, body)
    ensures DefinitionAt(lines, pos, asked) == Step(Ok(Definition(asked, database, DefinitionText(body))), pos + |body| + 2)
  {
    ParseStatusRoundTrip(151, DefinitionDetails(word, database, description));
    DefinitionDetailsDatabase(word, database, description);
    HoldsBodyRead(lines, pos + 1, body);
  }

  /** The count field of a 150 line: the number, a space, then free text. */
  lemma CountFieldRoundTrip(n: nat, text: string)
    requires n <= IntMax
    ensures ParseInt(FirstField(NatToString(n) + " " + text)) == Some(n)
  {
    var digits := NatToString(n);
    assert !IsDigit(' ');
    IndexOfFirst(digits, ' ', text);
    assert digits + " " + text == digits + [' '] + text;
    assert (digits + [' '] + text)[..|digits|] == digits;
    ParseIntRoundTrip(n);
  }

  /** The count field of a 150 line, negative counts included. */
  lemma {:induction false} SignedCountFieldRoundTrip(n: int, text: string)
    requires IntMin <= n <= IntMax
    ensures ParseInt(FirstField(IntToString(n) + " " + text)) == Some(n)
  {
    var token := IntToString(n);
    assert ' ' !in token by {
      assert !IsDigit(' ');
      if n < 0 {
        assert token == "-" + NatToString(-n);
        assert token[1..] == NatToString(-n);
      }
    }
    IndexOfFirst(token, ' ', text);
    assert token + " " + text == token + [' '] + text;
    assert (token + [' '] + text)[..|token|] == token;
    ParseIntSignedRoundTrip(n);
  }

  /** A 150 line announcing a negative count leads to no definitions, and nothing more is read. */
  lemma NegativeCountNoDefinitions(lines: seq<string>, pos: nat, word: string, n: int, text: string)
    requires pos <= |lines| && IntMin <= n < 0
    ensures ParseDefinitionsAt(lines, pos, word, IntToString(n) + " " + text) == Step(Ok([]), pos)
  {
    SignedCountFieldRoundTrip(n, text);
  }

  /** A trimmed one-line text is a definition text of its own. */
  lemma OneLineDefinitionText(text: string)
    requires text != [] && IsTrimmed(text)
    ensures DefinitionText([text]) == text
  {
    assert [text][..0] == [];
    assert !IsBlank(text) by { assert !IsTrimmable(text[0]); }
    assert DefinitionAccumulated([text]) == text + "\n";
    assert IsBlank("\n");
    TrimTrailingPadding(text, "\n");
  }

  /** One more definition in front of the rest. */
  lemma DefinitionsAtCons(lines: seq<string>, pos: nat, word: string, n: int, d: Definition, mid: nat,
                          ds: seq<Definition>, end: nat)
    requires pos <= |lines| && n > 0
    requires DefinitionAt(lines, pos, word) == Step(Ok(d), mid)
    requires mid <= |lines| && DefinitionsAt(lines, mid, word, n - 1) == Step(Ok(ds), end)
    ensures DefinitionsAt(lines, pos, word, n) == Step(Ok([d] + ds), end)
  {
  }

  /** A parsed body followed by a 250 line. */
  lemma CompletedBy250<T>(lines: seq<string>, v: T, pos: nat, details: string)
    requires pos < |lines| && lines[pos] == StatusLine(250, details)
    ensures Completed(lines, Step(Ok(v), pos)) == Step(Ok(v), pos + 1)
  {
    ParseStatusRoundTrip(250, details);
  }

  /** A 152 line, a body whose lines yield `words`, then a 250 line: the match reply is `words`. */
  lemma {:induction false} MatchReplyOfBody(lines: seq<string>, body: seq<string>, words: seq<string>)
    requires |lines| > 0 && CodeAt(lines, 0) == Some(152)
    requires HoldsBody(lines, 1, body) && MatchesOf(body) == words
    requires CodeAt(lines, |body| + 2) == Some(250)
    ensures MatchReplyAt(lines, 0) == Step(Ok(words), |body| + 3)
  {
    HoldsBodyRead(lines, 1, body);
    assert MatchesAt(lines, 1) == Step(Ok(words), |body| + 2);
  }

  /** A reply of two definitions, as a server writes it. */
  function TwoDefinitionsReply(word: string, db1: string, text1: string, db2: string, text2: string): (lines: seq<string>)
    ensures |lines| == 8
  {
    [ StatusLine(150, NatToString(2) + " " + "definitions retrieved"),
      StatusLine(151, DefinitionDetails(word, db1, "\"First\"")), text1, Terminator,
      StatusLine(151, DefinitionDetails(word, db2, "\"Second\"")), text2, Terminator,
      StatusLine(250, "ok") ]
  }

  /** A definition block whose text is one trimmed line reads back as that line. */
  lemma OneLineBlock(lines: seq<string>, pos: nat, word: string, database: string, description: string, text: string)
    requires pos < |lines| && lines[pos] == StatusLine(151, DefinitionDetails(word, database, description))
    requires ' ' !in word && ' ' !in database
    requires text != [] && IsTrimmed(text) && HoldsBody(lines, pos + 1, [text])
    ensures DefinitionAt(lines, pos, word) == Step(Ok(Definition(word, database, text)), pos + 3)
  {
    DefinitionBlockRoundTrip(lines, pos, word, word, database, description, [text]);
    OneLineDefinitionText(text);
  }

  /** Two definitions read one after the other, at lines 1 and 4. */
  lemma TwoBlocksInARow(lines: seq<string>, word: string, d1: Definition, d2: Definition)
    requires 7 <= |lines|
    requires DefinitionAt(lines, 1, word) == Step(Ok(d1), 4)
    requires DefinitionAt(lines, 4, word) == Step(Ok(d2), 7)
    ensures DefinitionsAt(lines, 1, word, 2) == Step(Ok([d1, d2]), 7)
  {
    DefinitionsAtCons(lines, 4, word, 1, d2, 7, [], 7);
    NothingAfterSingleton(d2);
    PairOfSingletons(d1, d2);
    DefinitionsAtCons(lines, 1, word, 2, d1, 4, [d2], 7);
  }

  /** The two definition blocks of TwoDefinitionsReply, one after the other. */
  lemma TwoDefinitionsBlocks(lines: seq<string>, word: string, db1: string, text1: string, db2: string, text2: string)
    requires ' ' !in word && ' ' !in db1 && ' ' !in db2
    requires text1 != [] && IsTrimmed(text1) && text2 != [] && IsTrimmed(text2)
    requires |lines| == 8
    requires lines[1] == StatusLine(151, DefinitionDetails(word, db1, "\"First\"")) && HoldsBody(lines, 2, [text1])
    requires lines[4] == StatusLine(151, DefinitionDetails(word, db2, "\"Second\"")) && HoldsBody(lines, 5, [text2])
    ensures DefinitionsAt(lines, 1, word, 2) == Step(Ok([Definition(word, db1, text1), Definition(word, db2, text2)]), 7)
  {
    OneLineBlock(lines, 1, word, db1, "\"First\"", text1);
    OneLineBlock(lines, 4, word, db2, "\"Second\"", text2);
    TwoBlocksInARow(lines, word, Definition(word, db1, text1), Definition(word, db2, text2));
  }

  /** A DEFINE reply that opens with 150 goes on to the definitions and the 250. */
  lemma DefineReplyOf150(lines: seq<string>, word: string, details: string)
    requires |lines| > 0 && lines[0] == StatusLine(150, details)
    ensures DefineReplyAt(lines, 0, word) == Completed(lines, ParseDefinitionsAt(lines, 1, word, details))
  {
    ParseStatusRoundTrip(150, details);
  }

  /** The count of a 150 line written as a numeral, a space and free text. */
  lemma ParseDefinitionsCounted(lines: seq<string>, word: string, n: nat, text: string)
    requires 1 <= |lines| && n <= IntMax
    ensures ParseDefinitionsAt(lines, 1, word, NatToString(n) + " " + text) == DefinitionsAt(lines, 1, word, n)
  {
    CountFieldRoundTrip(n, text);
  }

  lemma TwoDefinitionsReplyShape(word: string, db1: string, text1: string, db2: string, text2: string)
    requires text1 != Terminator && text2 != Terminator
    ensures var lines := TwoDefinitionsReply(word, db1, text1, db2, text2);
      && lines[0] == StatusLine(150, NatToString(2) + " " + "definitions retrieved")
      && lines[1] == StatusLine(151, DefinitionDetails(word, db1, "\"First\"")) && HoldsBody(lines, 2, [text1])
      && lines[4] == StatusLine(151, DefinitionDetails(word, db2, "\"Second\"")) && HoldsBody(lines, 5, [text2])
      && lines[7] == StatusLine(250, "ok")
  {
    var lines := TwoDefinitionsReply(word, db1, text1, db2, text2);
    OneLineBody(lines, 2, text1);
    OneLineBody(lines, 5, text2);
  }

  /** A single line other than the terminator, followed by the terminator, is a body of one line. */
  lemma OneLineBody(lines: seq<string>, pos: nat, text: string)
    requires pos + 1 < |lines| && lines[pos] == text && text != Terminator && lines[pos + 1] == Terminator
    ensures HoldsBody(lines, pos, [text])
  {
  }

  /**
   * A 150 reply announcing two definitions, two 151 blocks and a 250 yields
   * exactly two definitions of the word, each from the database its own 151
   * line names, and consumes the whole reply.
   */
  lemma TwoDefinitionsExample(word: string, db1: string, text1: string, db2: string, text2: string)
    requires ' ' !in word && ' ' !in db1 && ' ' !in db2
    requires text1 != [] && IsTrimmed(text1) && text1 != Terminator
    requires text2 != [] && IsTrimmed(text2) && text2 != Terminator
    ensures DefineReplyAt(TwoDefinitionsReply(word, db1, text1, db2, text2), 0, word)
         == Step(Ok([Definition(word, db1, text1), Definition(word, db2, text2)]), 8)
  {
    var lines := TwoDefinitionsReply(word, db1, text1, db2, text2);
    TwoDefinitionsReplyShape(word, db1, text1, db2, text2);
    DefineReplyOf150(lines, word, NatToString(2) + " " + "definitions retrieved");
    ParseDefinitionsCounted(lines, word, 2, "definitions retrieved");
    TwoDefinitionsBlocks(lines, word, db1, text1, db2, text2);
    CompletedBy250(lines, [Definition(word, db1, text1), Definition(word, db2, text2)], 7, "ok");
  }

  /** A reply of two matches in one database, as a server writes it. */
  function TwoMatchesReply(database: string, w1: string, w2: string): (lines: seq<string>)
    ensures |lines| == 5
  {
    [ StatusLine(152, "2 matches found"),
      QuotedEntryLine(database, w1), QuotedEntryLine(database, w2), Terminator,
      StatusLine(250, "ok") ]
  }

  /** A sequence identity that only guides the solver; it states nothing about the protocol. */
  lemma NothingAfterSingleton<T>(x: T)
    ensures [x] + [] == [x]
  {
  }

  /** A sequence identity that only guides the solver; it states nothing about the protocol. */
  lemma SingletonAfterNothing<T>(x: T)
    ensures [] + [x] == [x]
  {
  }

  /** A sequence identity that only guides the solver; it states nothing about the protocol. */
  lemma PairOfSingletons<T>(x: T, y: T)
    ensures [x] + [y] == [x, y]
  {
  }

  lemma InsertIntoSingleton<T>(x: T, y: T)
    ensures Insert([x], y) == if x == y then [x] else [x, y]
  {
  }

  /** The words of two match lines: both, or one when they repeat. */
  lemma TwoMatchLines(database: string, w1: string, w2: string)
    requires database != [] && IsTrimmed(database) && ' ' !in database && '"' !in database
    requires IsTrimmed(w1) && '"' !in w1 && IsTrimmed(w2) && '"' !in w2
    ensures MatchesOf([QuotedEntryLine(database, w1), QuotedEntryLine(database, w2)])
         == if w1 == w2 then [w1] else [w1, w2]
  {
    var l1, l2 := QuotedEntryLine(database, w1), QuotedEntryLine(database, w2);
    MatchLineRoundTrip(database, w1);
    MatchLineRoundTrip(database, w2);
    assert MatchesOf([]) == [];
    MatchesOfSnoc([], l1);
    SingletonAfterNothing(l1);
    assert MatchesOf([l1]) == [w1];
    MatchesOfSnoc([l1], l2);
    PairOfSingletons(l1, l2);
    assert MatchesOf([l1, l2]) == Insert([w1], w2);
    InsertIntoSingleton(w1, w2);
  }

  /**
   * A 152 reply listing two words and a 250 yields those words in order;
   * listing the same word twice yields it once.
   */
  lemma TwoMatchesExample(database: string, w1: string, w2: string)
    requires database != [] && IsTrimmed(database) && ' ' !in database && '"' !in database
    requires IsTrimmed(w1) && '"' !in w1 && IsTrimmed(w2) && '"' !in w2
    ensures MatchReplyAt(TwoMatchesReply(database, w1, w2), 0)
         == Step(Ok(if w1 == w2 then [w1] else [w1, w2]), 5)
  {
    TwoMatchesReplyShape(database, w1, w2);
    TwoMatchLines(database, w1, w2);
    MatchReplyOfBody(TwoMatchesReply(database, w1, w2), [QuotedEntryLine(database, w1), QuotedEntryLine(database, w2)],
                     if w1 == w2 then [w1] else [w1, w2]);
  }

  /** The two-match reply: a 152 line, the two entry lines as its body, and a 250 line after the terminator. */
  lemma TwoMatchesReplyShape(database: string, w1: string, w2: string)
    requires database != [] && IsTrimmed(database) && ' ' !in database && '"' !in database
    requires IsTrimmed(w1) && '"' !in w1 && IsTrimmed(w2) && '"' !in w2
    ensures var lines := TwoMatchesReply(database, w1, w2);
      && CodeAt(lines, 0) == Some(152) && CodeAt(lines, 4) == Some(250)
      && HoldsBody(lines, 1, [QuotedEntryLine(database, w1), QuotedEntryLine(database, w2)])
  {
    var lines := TwoMatchesReply(database, w1, w2);
    ParseStatusRoundTrip(152, "2 matches found");
    ParseStatusRoundTrip(250, "ok");
    var l1, l2 := QuotedEntryLine(database, w1), QuotedEntryLine(database, w2);
    QuotedEntryLineShape(database, w1);
    QuotedEntryLineShape(database, w2);
    assert l1 != Terminator && l2 != Terminator;
    assert HoldsBody(lines, 1, [l1, l2]);
  }
}
