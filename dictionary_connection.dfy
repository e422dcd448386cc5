/**
 * DictionaryConnection as a class: the socket's input is the sequence of
 * lines the server sends and a cursor into it (the BufferedReader), the
 * output is the log of command lines written (the PrintWriter), and the
 * connected flag and the socket's closed state are fields.
 *
 * Every method that reads from the server is proved to leave the cursor
 * where the matching reader of DictProtocol stops and to return what that
 * reader returns; the properties of the replies are proved there.
 */
module DictClient {
  import opened JavaText
  import opened Ordered
  import opened DictProtocol

  // ---------------------------------------------------------------------
  // Loop states of the body parsers
  // ---------------------------------------------------------------------

  /**
   * The lines of a body examined so far end before the line just read, or
   * at the end of the stream once a read has come back empty.
   */
  function Examined(cursor: nat, line: Option<string>): nat {
    if line.Some? && cursor > 0 then cursor - 1 else cursor
  }

  /**
   * A `while (!TERMINATOR.equals(line))` loop over a body that began at
   * `start`: `line` is the line last read, `body` holds the lines examined
   * before it, and none of them ended the body.
   */
  ghost predicate Scanning(input: seq<string>, start: nat, cursor: nat, line: Option<string>, body: seq<string>, trimmed: bool) {
    && start <= cursor <= |input|
    && (line.Some? ==> start < cursor && line.value == input[cursor - 1])
    && (line.None? ==> cursor == |input|)
    && body == input[start..Examined(cursor, line)]
    && forall k :: start <= k < Examined(cursor, line) ==> !IsTerminator(input[k], trimmed)
  }

  /** The first read of a body. */
  lemma ScanStarts(input: seq<string>, start: nat, cursor: nat, line: Option<string>, trimmed: bool)
    requires start <= |input|
    requires start < |input| ==> line == Some(input[start]) && cursor == start + 1
    requires start == |input| ==> line == None && cursor == start
    ensures Scanning(input, start, cursor, line, [], trimmed)
  {
  }

  /** The loop stops at the terminator: the body is everything examined before it. */
  lemma ScanEnds(input: seq<string>, start: nat, cursor: nat, line: string, body: seq<string>, trimmed: bool)
    requires Scanning(input, start, cursor, Some(line), body, trimmed) && IsTerminator(line, trimmed)
    ensures BodyAt(input, start, trimmed) == Step(Ok(body), cursor)
  {
    TerminatorFromIs(input, start, trimmed, cursor - 1);
  }

  /** The stream ran out before any terminator. */
  lemma ScanRunsOut(input: seq<string>, start: nat, body: seq<string>, trimmed: bool)
    requires Scanning(input, start, |input|, None, body, trimmed)
    ensures BodyAt(input, start, trimmed) == Step(Err(EndOfStream), |input|)
  {
    TerminatorFromIs(input, start, trimmed, |input|);
  }

  /**
   * One more line examined: the line just read was not the terminator, and
   * the next read either returns the following line or finds the stream at
   * its end.
   */
  lemma ScanStep(input: seq<string>, start: nat, cursor: nat, line: string, body: seq<string>, trimmed: bool,
                 cursor': nat, next: Option<string>)
    requires Scanning(input, start, cursor, Some(line), body, trimmed) && !IsTerminator(line, trimmed)
    requires cursor < |input| ==> next == Some(input[cursor]) && cursor' == cursor + 1
    requires cursor == |input| ==> next == None && cursor' == cursor
    ensures Scanning(input, start, cursor', next, body + [line], trimmed)
  {
    assert input[start..cursor] == input[start..cursor - 1] + [line];
  }

  /** A list read so far in front of what the rest of the reading yields. */
  function Prepended<T>(xs: seq<T>, s: Step<seq<T>>): Step<seq<T>> {
    match s.result
    case Err(_) => s
    case Ok(ys) => Step(Ok(xs + ys), s.next)
  }

  lemma PrependedNothing<T>(s: Step<seq<T>>)
    ensures Prepended([], s) == s
  {
    if s.result.Ok? {
      assert [] + s.result.value == s.result.value;
    }
  }

  lemma PrependedTwice<T>(xs: seq<T>, x: T, s: Step<seq<T>>)
    ensures Prepended(xs, Prepended([x], s)) == Prepended(xs + [x], s)
  {
    if s.result.Ok? {
      assert xs + ([x] + s.result.value) == (xs + [x]) + s.result.value;
    }
  }

  /** A positive count of definitions is the first one in front of the rest. */
  lemma {:induction false} DefinitionsAtFirst(lines: seq<string>, pos: nat, word: string, m: int, d: Result<Definition>, next: nat)
    requires pos <= |lines| && m > 0 && d.Ok?
    requires DefinitionAt(lines, pos, word) == Step(d, next)
    ensures DefinitionsAt(lines, pos, word, m) == Prepended([d.value], DefinitionsAt(lines, next, word, m - 1))
  {
  }

  /** One more definition read: the list so far grows by it and the rest starts after it. */
  lemma {:induction false} DefinitionsAtAdvance(lines: seq<string>, total: Step<seq<Definition>>, pos: nat, word: string, m: int,
                             done: seq<Definition>, d: Result<Definition>, next: nat)
    requires pos <= |lines| && m > 0 && d.Ok?
    requires total == Prepended(done, DefinitionsAt(lines, pos, word, m))
    requires DefinitionAt(lines, pos, word) == Step(d, next)
    ensures total == Prepended(done + [d.value], DefinitionsAt(lines, next, word, m - 1))
  {
    DefinitionsAtFirst(lines, pos, word, m, d, next);
    PrependedTwice(done, d.value, DefinitionsAt(lines, next, word, m - 1));
  }

  /** The rest of the definitions after one more is read, counted by the caller's own variable. */
  lemma {:induction false} RemainingCount(lines: seq<string>, total: Step<seq<Definition>>, pos: nat, word: string,
                                          done: seq<Definition>, m: int, m': int)
    requires pos <= |lines| && total == Prepended(done, DefinitionsAt(lines, pos, word, m - 1)) && m' == m - 1
    ensures total == Prepended(done, DefinitionsAt(lines, pos, word, m'))
  {
  }

  /** A definition that fails ends the whole list with its error. */
  lemma {:induction false} DefinitionsAtStops(lines: seq<string>, total: Step<seq<Definition>>, pos: nat, word: string, m: int,
                           done: seq<Definition>, d: Result<Definition>, next: nat)
    requires pos <= |lines| && m > 0 && d.Err?
    requires total == Prepended(done, DefinitionsAt(lines, pos, word, m))
    requires DefinitionAt(lines, pos, word) == Step(d, next)
    ensures total == Step(Err(d.error), next)
  {
  }

  /** A definition without a readable status line fails as reading that line failed. */
  lemma {:induction false} DefinitionAtNoStatus(lines: seq<string>, pos: nat, word: string, s: Step<Status>)
    requires pos <= |lines| && s == StatusAt(lines, pos) && s.result.Err?
    ensures DefinitionAt(lines, pos, word) == Step(Err(s.result.error), s.next)
  {
  }

  /** A definition whose status line has a single field names no database. */
  lemma {:induction false} DefinitionAtNoDatabase(lines: seq<string>, pos: nat, word: string, st: Status)
    requires pos < |lines| && ParseStatus(lines[pos]) == Ok(st) && SecondField(st.details).None?
    ensures DefinitionAt(lines, pos, word) == Step(Err(MissingDatabaseField(st.details)), pos + 1)
  {
  }

  /** A definition whose status line names `db` is the text that follows it, or that text's error. */
  lemma {:induction false} DefinitionAtFrom(lines: seq<string>, pos: nat, word: string, db: string, t: Step<string>, r: Result<Definition>)
    requires pos < |lines| && ParseStatus(lines[pos]).Ok?
    requires SecondField(ParseStatus(lines[pos]).value.details) == Some(db)
    requires t == DefinitionTextAt(lines, pos + 1)
    requires r == if t.result.Err? then Err(t.result.error) else Ok(Definition(word, db, t.result.value))
    ensures DefinitionAt(lines, pos, word) == Step(r, t.next)
  {
  }

  /** A 150 reply is the definitions it announces, then the closing 250. */
  lemma {:induction false} DefineReplyParsed(lines: seq<string>, at: nat, mid: nat, word: string, st: Status,
                                              parsed: Step<seq<Definition>>)
    requires at < |lines| && ParseStatus(lines[at]) == Ok(st) && st.code == 150 && mid == at + 1
    requires parsed == ParseDefinitionsAt(lines, mid, word, st.details)
    ensures DefineReplyAt(lines, at, word) == Completed(lines, parsed)
  {
  }

  class DictionaryConnection {
    /** Every line the server sends, in order. */
    const input: seq<string>
    /** How many lines have been read. */
    var cursor: nat
    /** Every command line written, in order. */
    var sent: seq<string>
    var isConnected: bool
    /** Whether the socket has been closed. */
    var socketClosed: bool

    ghost predicate Valid()
      reads this
    {
      cursor <= |input|
    }

    /** A freshly opened socket, before the greeting is read. */
    constructor Open(input: seq<string>)
      ensures Valid()
      ensures this.input == input && cursor == 0 && sent == []
      ensures isConnected && !socketClosed
    {
      this.input := input;
      cursor := 0;
      sent := [];
      isConnected := true;
      socketClosed := false;
    }

    /**
     * The constructor: open the socket, then read the greeting, which must
     * carry 220.
     */
    static method Connect(input: seq<string>) returns (r: Result<DictionaryConnection>)
      ensures r.Ok? <==> GreetingAt(input).result.Ok?
      ensures r.Err? ==> r.error == GreetingAt(input).result.error
      ensures r.Ok? ==> && fresh(r.value) && r.value.Valid()
                        && r.value.input == input && r.value.cursor == GreetingAt(input).next
                        && r.value.sent == [] && r.value.isConnected && !r.value.socketClosed
    {
      var c := new DictionaryConnection.Open(input);
      var status := c.ReadStatus();
      match status
      case Err(e) =>
        r := Err(e);
      case Ok(st) =>
        if st.code != 220 {
          r := Err(ConnectionRejected(st.code));
        } else {
          r := Ok(c);
        }
    }

    /** BufferedReader.readLine: the next line, or None at the end of the stream. */
    method ReadLine() returns (line: Option<string>)
      requires Valid()
      modifies this`cursor
      ensures Valid()
      ensures old(cursor) < |input| ==> line == Some(input[old(cursor)]) && cursor == old(cursor) + 1
      ensures old(cursor) == |input| ==> line == None && cursor == old(cursor)
    {
      if cursor < |input| {
        line := Some(input[cursor]);
        cursor := cursor + 1;
      } else {
        line := None;
      }
    }

    /** Status.readStatus on the next line. */
    method ReadStatus() returns (r: Result<Status>)
      requires Valid()
      modifies this`cursor
      ensures Valid()
      ensures Step(r, cursor) == StatusAt(input, old(cursor))
    {
      var line := ReadLine();
      match line
      case None => r := Err(EndOfStream);
      case Some(l) => r := ParseStatus(l);
    }

    method SendCommand(command: string)
      modifies this`sent
      ensures sent == old(sent) + [command]
    {
      sent := sent + [command];
    }

    /** validateConnection: a closed connection or socket refuses every query. */
    method ValidateConnection() returns (r: Result<()>)
      ensures r.Ok? <==> isConnected && !socketClosed
      ensures r.Err? ==> r.error == NotConnected
    {
      if !isConnected || socketClosed {
        r := Err(NotConnected);
      } else {
        r := Ok(());
      }
    }

    /** validateEndStatus: the next status line must carry `expected`. */
    method ValidateEndStatus(expected: int) returns (r: Result<()>)
      requires Valid()
      modifies this`cursor
      ensures Valid()
      ensures Step(r, cursor) == EndStatusAt(input, old(cursor), expected)
    {
      var status := ReadStatus();
      match status
      case Err(e) =>
        r := Err(e);
      case Ok(st) =>
        if st.code != expected {
          r := Err(EndStatusMismatch(expected, st.code));
        } else {
          r := Ok(());
        }
    }

    /** close: a no-op when already closed; otherwise QUIT is sent and the socket closed. */
    method Close()
      modifies this`sent, this`isConnected, this`socketClosed
      ensures !old(isConnected) ==> sent == old(sent) && !isConnected && socketClosed == old(socketClosed)
      ensures old(isConnected) ==> sent == old(sent) + [QuitCommand] && !isConnected && socketClosed
    {
      if !isConnected {
        return;
      }
      SendCommand(QuitCommand);
      socketClosed := true;
      isConnected := false;
    }

    // -------------------------------------------------------------------
    // Body parsers
    // -------------------------------------------------------------------

    /** parseMatches */
    method ParseMatches() returns (r: Result<seq<string>>)
      requires Valid()
      modifies this`cursor
      ensures Valid()
      ensures Step(r, cursor) == MatchesAt(input, old(cursor))
    {
      ghost var start, body := cursor, [];
      var matches: seq<string> := [];
      var line := ReadLine();
      ScanStarts(input, start, cursor, line, false);
      while line != Some(Terminator)
        invariant Valid() && Scanning(input, start, cursor, line, body, false)
        invariant matches == MatchesOf(body)
        decreases |input| - cursor + (if line.Some? then 1 else 0)
      {
        if line.None? {
          ScanRunsOut(input, start, body, false);
          MatchesAtBody(input, start);
          r := Err(EndOfStream);
          return;
        }
        ghost var l, c := line.value, cursor;
        var word := MatchWord(line.value);
        if word.Some? {
          matches := Insert(matches, word.value);
        }
        MatchesOfSnoc(body, l);
        line := ReadLine();
        ScanStep(input, start, c, l, body, false, cursor, line);
        body := body + [l];
      }
      ScanEnds(input, start, cursor, Terminator, body, false);
      MatchesAtBody(input, start);
      r := Ok(matches);
    }

    /** parseDefinition: the 151 line, then the text up to the terminator. */
    method ParseDefinition(word: string) returns (r: Result<Definition>)
      requires Valid()
      modifies this`cursor
      ensures Valid()
      ensures Step(r, cursor) == DefinitionAt(input, old(cursor), word)
    {
      ghost var at := cursor;
      var status := ReadStatus();
      if status.Err? {
        r := Err(status.error);
        DefinitionAtNoStatus(input, at, word, Step(status, cursor));
        return;
      }
      assert at < |input| && cursor == at + 1 && status == ParseStatus(input[at]);
      var databaseName := SecondField(status.value.details);
      if databaseName.None? {
        r := Err(MissingDatabaseField(status.value.details));
        DefinitionAtNoDatabase(input, at, word, status.value);
        return;
      }
      var text := ReadDefinitionText();
      r := if text.Err? then Err(text.error) else Ok(Definition(word, databaseName.value, text.value));
      DefinitionAtFrom(input, at, word, databaseName.value, Step(text, cursor), r);
    }

    /** The loop of parseDefinition: lines up to the terminator, accumulated, then trimmed. */
    method ReadDefinitionText() returns (r: Result<string>)
      requires Valid()
      modifies this`cursor
      ensures Valid()
      ensures Step(r, cursor) == DefinitionTextAt(input, old(cursor))
    {
      ghost var start, body := cursor, [];
      var text := "";
      var line := ReadLine();
      ScanStarts(input, start, cursor, line, false);
      while line != Some(Terminator)
        invariant Valid() && Scanning(input, start, cursor, line, body, false)
        invariant text == DefinitionAccumulated(body)
        decreases |input| - cursor + (if line.Some? then 1 else 0)
      {
        if line.None? {
          ScanRunsOut(input, start, body, false);
          r := Err(EndOfStream);
          return;
        }
        ghost var l, c := line.value, cursor;
        if line.value == [] {
          text := text + "\n";
        } else if Trim(line.value) != [] {
          text := text + line.value + "\n";
        }
        TrimEmpty(l);
        DefinitionAccumulatedSnoc(body, l);
        line := ReadLine();
        ScanStep(input, start, c, l, body, false, cursor, line);
        body := body + [l];
      }
      ScanEnds(input, start, cursor, Terminator, body, false);
      r := Ok(Trim(text));
    }

    /** parseDefinitions: as many definitions as the first field of the 150 details says. */
    method ParseDefinitions(word: string, details: string) returns (r: Result<seq<Definition>>)
      requires Valid()
      modifies this`cursor
      ensures Valid()
      ensures Step(r, cursor) == ParseDefinitionsAt(input, old(cursor), word, details)
    {
      var count := ParseInt(FirstField(details));
      if count.None? {
        r := Err(MalformedCount(FirstField(details)));
        return;
      }
      var n := count.value;
      ghost var total := DefinitionsAt(input, cursor, word, n);
      var definitions: seq<Definition> := [];
      var i := 0;
      ghost var left := n;
      PrependedNothing(DefinitionsAt(input, cursor, word, left));
      while i < n
        invariant Valid() && 0 <= i && (n >= 0 ==> i <= n) && left == n - i
        invariant total == Prepended(definitions, DefinitionsAt(input, cursor, word, left))
        decreases n - i
      {
        ghost var c := cursor;
        var definition := ParseDefinition(word);
        if definition.Err? {
          DefinitionsAtStops(input, total, c, word, left, definitions, definition, cursor);
          r := Err(definition.error);
          return;
        }
        ghost var before, leftBefore := definitions, left;
        definitions := definitions + [definition.value];
        i := i + 1;
        left := left - 1;
        DefinitionsAtAdvance(input, total, c, word, leftBefore, before, definition, cursor);
        RemainingCount(input, total, cursor, word, definitions, leftBefore, left);
      }
      assert DefinitionsAt(input, cursor, word, left) == Step(Ok([]), cursor);
      assert definitions + [] == definitions;
      r := Ok(definitions);
    }

    /** parseStrategies */
    method ParseStrategies() returns (r: Result<seq<MatchingStrategy>>)
      requires Valid()
      modifies this`cursor
      ensures Valid()
      ensures Step(r, cursor) == StrategiesAt(input, old(cursor))
    {
      ghost var start, body := cursor, [];
      var strategies: seq<MatchingStrategy> := [];
      var line := ReadLine();
      ScanStarts(input, start, cursor, line, false);
      while line != Some(Terminator)
        invariant Valid() && Scanning(input, start, cursor, line, body, false)
        invariant strategies == StrategiesOf(body)
        decreases |input| - cursor + (if line.Some? then 1 else 0)
      {
        if line.None? {
          ScanRunsOut(input, start, body, false);
          r := Err(EndOfStream);
          return;
        }
        ghost var l, c := line.value, cursor;
        var strategy := StrategyEntry(line.value);
        if strategy.Some? {
          strategies := Insert(strategies, strategy.value);
        }
        StrategiesOfSnoc(body, l);
        line := ReadLine();
        ScanStep(input, start, c, l, body, false, cursor, line);
        body := body + [l];
      }
      ScanEnds(input, start, cursor, Terminator, body, false);
      r := Ok(strategies);
    }

    /** parseDatabases: every line is trimmed before the terminator test. */
    method ParseDatabases() returns (r: Result<seq<(string, Database)>>)
      requires Valid()
      modifies this`cursor
      ensures Valid()
      ensures Step(r, cursor) == DatabasesAt(input, old(cursor))
    {
      ghost var start, body := cursor, [];
      var databases: seq<(string, Database)> := [];
      var raw := ReadLine();
      ScanStarts(input, start, cursor, raw, true);
      if raw.None? {
        ScanRunsOut(input, start, body, true);
        r := Err(EndOfStream);
        return;
      }
      var line := Trim(raw.value);
      while line != Terminator
        invariant Valid() && Scanning(input, start, cursor, raw, body, true)
        invariant raw.Some? && line == Trim(raw.value)
        invariant databases == DatabasesOf(body)
        decreases |input| - cursor
      {
        ghost var l, c := raw.value, cursor;
        var entry := DatabaseEntry(raw.value);
        if entry.Some? {
          databases := Put(databases, entry.value.0, entry.value.1);
        }
        DatabasesOfSnoc(body, l);
        raw := ReadLine();
        ScanStep(input, start, c, l, body, true, cursor, raw);
        body := body + [l];
        if raw.None? {
          ScanRunsOut(input, start, body, true);
          r := Err(EndOfStream);
          return;
        }
        line := Trim(raw.value);
      }
      ScanEnds(input, start, cursor, raw.value, body, true);
      r := Ok(databases);
    }

    /** parseDatabaseInfo: the header line is skipped, the rest joined line by line and trimmed. */
    method ParseDatabaseInfo() returns (r: Result<string>)
      requires Valid()
      modifies this`cursor
      ensures Valid()
      ensures Step(r, cursor) == InfoAt(input, old(cursor))
    {
      var header := ReadLine();
      if header.None? {
        r := Err(EndOfStream);
        return;
      }
      ghost var start, body := cursor, [];
      var info := "";
      var line := ReadLine();
      ScanStarts(input, start, cursor, line, false);
      while line != Some(Terminator)
        invariant Valid() && Scanning(input, start, cursor, line, body, false)
        invariant info == InfoJoined(body)
        decreases |input| - cursor + (if line.Some? then 1 else 0)
      {
        if line.None? {
          ScanRunsOut(input, start, body, false);
          r := Err(EndOfStream);
          return;
        }
        ghost var l, c := line.value, cursor;
        info := info + line.value + "\n";
        InfoJoinedSnoc(body, l);
        line := ReadLine();
        ScanStep(input, start, c, l, body, false, cursor, line);
        body := body + [l];
      }
      ScanEnds(input, start, cursor, Terminator, body, false);
      r := Ok(Trim(info));
    }

    // -------------------------------------------------------------------
    // Queries: validate, send one command, dispatch on the status code
    // -------------------------------------------------------------------

    /** Whether validateConnection lets a query through. */
    predicate Active()
      reads this`isConnected, this`socketClosed
    {
      isConnected && !socketClosed
    }

    /**
     * The validateEndStatus(250) that follows a parsed multi-line reply; a
     * body that failed to parse is passed on and nothing more is read.
     */
    method CompleteReply<T>(body: Result<T>) returns (r: Result<T>)
      requires Valid()
      modifies this`cursor
      ensures Valid()
      ensures Step(r, cursor) == Completed(input, Step(body, old(cursor)))
    {
      if body.Err? {
        r := body;
        return;
      }
      var end := ValidateEndStatus(250);
      r := if end.Err? then Err(end.error) else body;
    }

    /** getDefinitions: DEFINE, then the reply DefineReplyAt describes. */
    method GetDefinitions(word: string, database: Database) returns (r: Result<seq<Definition>>)
      requires Valid()
      modifies this`cursor, this`sent
      ensures Valid()
      ensures !Active() ==> r == Err(NotConnected) && sent == old(sent) && cursor == old(cursor)
      ensures Active() ==> sent == old(sent) + [DefineCommand(database.name, word)]
      ensures Active() ==> Step(r, cursor) == DefineReplyAt(input, old(cursor), word)
    {
      var valid := ValidateConnection();
      if valid.Err? {
        r := Err(valid.error);
        return;
      }
      SendCommand(DefineCommand(database.name, word));
      ghost var at := cursor;
      var status := ReadStatus();
      if status.Err? {
        r := Err(status.error);
        return;
      }
      var code := status.value.code;
      assert CodeAt(input, at) == Some(code);
      if code == 550 || code == 552 {
        r := Ok([]);
      } else if code == 150 {
        ghost var mid := cursor;
        var definitions := ParseDefinitions(word, status.value.details);
        ghost var parsed := Step(definitions, cursor);
        r := CompleteReply(definitions);
        DefineReplyParsed(input, at, mid, word, status.value, parsed);
      } else {
        r := Err(UnexpectedStatus(code));
      }
    }

    /** getMatchList: MATCH, then the reply MatchReplyAt describes. */
    method GetMatchList(word: string, strategy: MatchingStrategy, database: Database) returns (r: Result<seq<string>>)
      requires Valid()
      modifies this`cursor, this`sent
      ensures Valid()
      ensures !Active() ==> r == Err(NotConnected) && sent == old(sent) && cursor == old(cursor)
      ensures Active() ==> sent == old(sent) + [MatchCommand(database.name, strategy.name, word)]
      ensures Active() ==> Step(r, cursor) == MatchReplyAt(input, old(cursor))
    {
      var valid := ValidateConnection();
      if valid.Err? {
        r := Err(valid.error);
        return;
      }
      SendCommand(MatchCommand(database.name, strategy.name, word));
      ghost var at := cursor;
      var status := ReadStatus();
      if status.Err? {
        r := Err(status.error);
        return;
      }
      var code := status.value.code;
      assert CodeAt(input, at) == Some(code);
      if code == 550 || code == 551 || code == 552 {
        r := Ok([]);
      } else if code == 152 {
        var matches := ParseMatches();
        r := CompleteReply(matches);
      } else {
        r := Err(UnexpectedStatus(code));
      }
    }

    /** getDatabaseList: SHOW DB, then the reply DatabaseListReplyAt describes. */
    method GetDatabaseList() returns (r: Result<seq<(string, Database)>>)
      requires Valid()
      modifies this`cursor, this`sent
      ensures Valid()
      ensures !Active() ==> r == Err(NotConnected) && sent == old(sent) && cursor == old(cursor)
      ensures Active() ==> sent == old(sent) + [ShowDatabasesCommand]
      ensures Active() ==> Step(r, cursor) == DatabaseListReplyAt(input, old(cursor))
    {
      var valid := ValidateConnection();
      if valid.Err? {
        r := Err(valid.error);
        return;
      }
      SendCommand(ShowDatabasesCommand);
      ghost var at := cursor;
      var status := ReadStatus();
      if status.Err? {
        r := Err(status.error);
        return;
      }
      var code := status.value.code;
      assert CodeAt(input, at) == Some(code);
      if code == 554 {
        r := Ok([]);
      } else if code == 110 {
        var databases := ParseDatabases();
        r := CompleteReply(databases);
      } else {
        r := Err(UnexpectedStatus(code));
      }
    }

    /** getStrategyList: SHOW STRAT, then the reply StrategyListReplyAt describes. */
    method GetStrategyList() returns (r: Result<seq<MatchingStrategy>>)
      requires Valid()
      modifies this`cursor, this`sent
      ensures Valid()
      ensures !Active() ==> r == Err(NotConnected) && sent == old(sent) && cursor == old(cursor)
      ensures Active() ==> sent == old(sent) + [ShowStrategiesCommand]
      ensures Active() ==> Step(r, cursor) == StrategyListReplyAt(input, old(cursor))
    {
      var valid := ValidateConnection();
      if valid.Err? {
        r := Err(valid.error);
        return;
      }
      SendCommand(ShowStrategiesCommand);
      ghost var at := cursor;
      var status := ReadStatus();
      if status.Err? {
        r := Err(status.error);
        return;
      }
      var code := status.value.code;
      assert CodeAt(input, at) == Some(code);
      if code == 555 {
        r := Ok([]);
      } else if code == 111 {
        var strategies := ParseStrategies();
        r := CompleteReply(strategies);
      } else {
        r := Err(UnexpectedStatus(code));
      }
    }

    /**
     * getDatabaseInfo: the connection is checked first, even for the two
     * wildcard names, which are then answered without a command; any other
     * name is sent as SHOW INFO.
     */
    method GetDatabaseInfo(database: Database) returns (r: Result<string>)
      requires Valid()
      modifies this`cursor, this`sent
      ensures Valid()
      ensures !Active() ==> r == Err(NotConnected) && sent == old(sent) && cursor == old(cursor)
      ensures Active() && WildcardInfo(database.name).Some? ==>
                r == Ok(WildcardInfo(database.name).value) && sent == old(sent) && cursor == old(cursor)
      ensures Active() && WildcardInfo(database.name).None? ==>
                && sent == old(sent) + [ShowInfoCommand(database.name)]
                && Step(r, cursor) == DatabaseInfoReplyAt(input, old(cursor), database.name)
    {
      var valid := ValidateConnection();
      if valid.Err? {
        r := Err(valid.error);
        return;
      }
      var name := database.name;
      if name == "*" {
        r := Ok("Searching in all databases");
        return;
      } else if name == "!" {
        r := Ok("Searching in first database with match");
        return;
      }
      SendCommand(ShowInfoCommand(name));
      ghost var at := cursor;
      var status := ReadStatus();
      if status.Err? {
        r := Err(status.error);
        return;
      }
      var code := status.value.code;
      assert CodeAt(input, at) == Some(code);
      if code == 550 {
        r := Err(InvalidDatabase(name));
      } else if code == 112 {
        var info := ParseDatabaseInfo();
        r := CompleteReply(info);
      } else {
        r := Err(UnexpectedStatus(code));
      }
    }
  }
}
