# DICT client protocol engine

A Dafny model of the client side of the DICT protocol (RFC 2229) as the
PersonalDictionary application implements it. The model covers
`DictionaryConnection`, which talks to a dictionary server, and
`DictStringParser`, which splits a line into atoms.

The socket is replaced by a fixed sequence of server lines (`input`), the
position of the next unread line (`cursor`, the `BufferedReader`) and the log
of command lines written (`sent`, the `PrintWriter`). With these, every query
is a state transformer: which command it sends, how far it reads, and what it
returns or which error it raises.

Files:

- `java_text.dfy` (module `JavaText`) holds the `String` and `Integer`
  operations the engine relies on: `trim`, `indexOf`, `split` with a limit,
  the quote-stripping `replaceAll`/`replace` calls, `endsWith` and
  `Integer.parseInt` with its 32-bit range.
- `ordered.dfy` (module `Ordered`) models `LinkedHashSet.add` and
  `LinkedHashMap.put` as insertion-ordered sequences.
- `dict_string_parser.dfy` (module `DictStringParser`) models `splitAtoms`.
  The matcher's behaviour for the pattern `"([^"]*)"|(\S+)` is a pure
  function (`Scan`, `AtomsFrom`), and `SplitAtoms` is the loop over `find`,
  proved to compute it.
- `dict_protocol.dfy` (module `DictProtocol`) holds the protocol's values:
  the error causes, status lines, `Database`, `MatchingStrategy` and
  `Definition`. It also holds one pure reader function per reply shape:
  status line, "."-terminated body, each of the five body parsers, and the
  status dispatch of each query. Each reader maps the lines and a position to
  a result and the next position.
- `dictionary_connection.dfy` (module `DictClient`) holds the class
  `DictionaryConnection`. Its fields are the connected flag, the closed flag
  of the socket, the read position and the sent log. Its methods have the
  source's loops, and each one is proved to compute exactly its reader
  function from `DictProtocol`.

## Model

| member | source | states |
|---|---|---|
| DictClient.DictionaryConnection.Connect | src/dict/net/DictionaryConnection.java:40-59 | The connection is created exactly when the greeting is a well-formed status with code 220. A greeting with any other code gives `ConnectionRejected` with that code. On success the new connection is connected, has sent nothing, and has read only the greeting. |
| DictClient.DictionaryConnection.Open | src/dict/net/DictionaryConnection.java:42-45 | A fresh socket has read nothing, has sent nothing, and is connected. |
| DictClient.DictionaryConnection.ReadLine | src/dict/net/DictionaryConnection.java:321 | `readLine` returns the next line and advances by one. At the end of the stream it returns nothing and does not move. |
| DictClient.DictionaryConnection.ReadStatus | src/dict/net/DictionaryConnection.java:50 | `readStatus` consumes one line and parses it as a status. The end of the stream is an error. |
| DictClient.DictionaryConnection.SendCommand | src/dict/net/DictionaryConnection.java:286-289 | Exactly one line, the command, is appended to what was sent. |
| DictClient.DictionaryConnection.ValidateConnection | src/dict/net/DictionaryConnection.java:280-284 | A query may go ahead if and only if the connection is connected and the socket is not closed. Otherwise the error is `NotConnected`. |
| DictClient.DictionaryConnection.ValidateEndStatus | src/dict/net/DictionaryConnection.java:291-297 | Reads one status. The result is success exactly when that status is well formed and carries the expected code. |
| DictClient.DictionaryConnection.Close | src/dict/net/DictionaryConnection.java:75-88 | On a closed connection nothing is sent and nothing changes. Otherwise exactly `QUIT` is sent, the socket is closed and the connection is no longer connected. |
| DictClient.DictionaryConnection.ParseMatches | src/dict/net/DictionaryConnection.java:339-357 | The loop yields `MatchesAt`: the insertion-ordered set of the words of the lines before the terminator. The read position ends just after the terminator. |
| DictClient.DictionaryConnection.ParseDefinition | src/dict/net/DictionaryConnection.java:312-337 | The method computes `DefinitionAt`. It reads the 151 line, takes the database from the second field of its details, and fails if there is no second field. It then reads the text body. |
| DictClient.DictionaryConnection.ReadDefinitionText | src/dict/net/DictionaryConnection.java:319-331 | The StringBuilder loop computes `DefinitionTextAt`, the trimmed accumulation of the body lines up to the terminator. |
| DictClient.DictionaryConnection.ParseDefinitions | src/dict/net/DictionaryConnection.java:299-310 | The counted loop computes `ParseDefinitionsAt`: as many definitions as the first field of the details announces, or the first error. |
| DictClient.DictionaryConnection.ParseStrategies | src/dict/net/DictionaryConnection.java:383-402 | The loop computes `StrategiesAt`: the insertion-ordered set of the strategies of the lines that hold a space. |
| DictClient.DictionaryConnection.ParseDatabases | src/dict/net/DictionaryConnection.java:359-381 | The loop computes `DatabasesAt`. Each line is trimmed before the terminator test, and the lines with a quote are put into the insertion-ordered map. |
| DictClient.DictionaryConnection.ParseDatabaseInfo | src/dict/net/DictionaryConnection.java:404-421 | The loop computes `InfoAt`: the header is skipped, the rest is joined with line breaks up to the terminator, and the result is trimmed. |
| DictClient.DictionaryConnection.CompleteReply | src/dict/net/DictionaryConnection.java:118-122 | A parsed body is kept only when the next status is 250. A body that already failed keeps its error and reads nothing more. |
| DictClient.DictionaryConnection.GetDefinitions | src/dict/net/DictionaryConnection.java:98-129 | An inactive connection fails with `NotConnected`, sends nothing and reads nothing. Otherwise exactly `DEFINE <db> <word>` is sent and the reply is read as `DefineReplyAt` says. |
| DictClient.DictionaryConnection.GetMatchList | src/dict/net/DictionaryConnection.java:140-175 | An inactive connection fails and sends nothing. Otherwise exactly `MATCH <db> <strategy> <word>` is sent and the reply is read as `MatchReplyAt` says. |
| DictClient.DictionaryConnection.GetDatabaseList | src/dict/net/DictionaryConnection.java:183-206 | An inactive connection fails and sends nothing. Otherwise exactly `SHOW DB` is sent and the reply is read as `DatabaseListReplyAt` says. |
| DictClient.DictionaryConnection.GetStrategyList | src/dict/net/DictionaryConnection.java:214-237 | An inactive connection fails and sends nothing. Otherwise exactly `SHOW STRAT` is sent and the reply is read as `StrategyListReplyAt` says. |
| DictClient.DictionaryConnection.GetDatabaseInfo | src/dict/net/DictionaryConnection.java:246-276 | The connection is checked before the `*`/`!` shortcut. For `*` and `!` the fixed answer is returned, nothing is sent and nothing is read. Any other name sends exactly `SHOW INFO <name>` and reads the reply as `DatabaseInfoReplyAt` says. |
| DictProtocol.ParseStatus | src/dict/net/DictionaryConnection.java:107 | The stand-in for the `Status` class, which is not shown. A status line is three digits, a space and the details, and anything else is `MalformedStatus`. `ParseStatusRoundTrip` and `ParseStatusInverse` show that it is exactly the inverse of writing a status line. |
| DictProtocol.MatchWord | src/dict/net/DictionaryConnection.java:345-348 | One match line: trimmed, one outer quote stripped at each end, split at the first space. The rest, without quotes and trimmed, is the word. A line without a space yields nothing. `MatchWordClean` and `MatchLineRoundTrip` characterize it. |
| DictProtocol.DatabaseEntry | src/dict/net/DictionaryConnection.java:365-372 | One database line: split at the first quote of the trimmed line. A line without a quote yields nothing. `DatabaseEntryNamed` and `DatabaseLineRoundTrip` characterize it. |
| DictProtocol.StrategyEntry | src/dict/net/DictionaryConnection.java:389-393 | One strategy line: split at the first space, with one outer quote stripped from each end of both parts. A line without a space yields nothing. `StrategyLineRoundTrip` characterizes it. |
| DictProtocol.DefinitionPiece | src/dict/net/DictionaryConnection.java:323-327 | What one body line adds to a definition: an empty line adds a line break, a whitespace-only line adds nothing, and any other line adds itself and a line break. `DefinitionKeepsEmptyLine` and `DefinitionSkipsBlankLine` characterize it. |
| DictProtocol.InfoJoined | src/dict/net/DictionaryConnection.java:413 | Every info line followed by a line break. `InfoJoinedAppend` characterizes it. |
| DictProtocol.EndStatusAt | src/dict/net/DictionaryConnection.java:291-297 | Success if and only if the next line is a well-formed status with the expected code. |
| DictProtocol.GreetingAt | src/dict/net/DictionaryConnection.java:50-53 | Success if and only if the first line is a well-formed status with code 220. A well-formed greeting with another code gives `ConnectionRejected` with that code. |
| DictProtocol.ParseStatusRoundTrip | src/dict/net/DictionaryConnection.java:50 | A status line written from a code below 1000 and any details parses back to that code and those details. |
| DictProtocol.ParseStatusInverse | src/dict/net/DictionaryConnection.java:50 | Every line the status parser accepts is the status line of what it returns. |
| DictProtocol.BodyAt | src/dict/net/DictionaryConnection.java:321-329 | A body is the lines from the start up to the terminator, and reading resumes just after the terminator. |
| DictProtocol.BodyAtFirstTerminator | src/dict/net/DictionaryConnection.java:322 | The body ends at the first terminator. It is an error exactly when no terminator follows. |
| DictProtocol.BodyAtReadsOnlyItsLines | src/dict/net/DictionaryConnection.java:321-329 | Reading a body depends only on the lines up to its terminator. |
| DictProtocol.PaddedTerminator | src/dict/net/DictionaryConnection.java:363-364 | In the database list a "." padded with whitespace ends the body. In the other bodies only a bare "." does. |
| DictProtocol.DefinitionTextAt | src/dict/net/DictionaryConnection.java:319-331 | The definition text is trimmed, and reading stays within the input. |
| DictProtocol.DefinitionAt | src/dict/net/DictionaryConnection.java:312-337 | A parsed definition carries the word asked for and a trimmed text. |
| DictProtocol.DefinitionAtReads | src/dict/net/DictionaryConnection.java:314-331 | A successful definition has a well-formed status line and takes its database from that line's second field. Its text is the body that follows, accumulated and trimmed, and reading resumes after that body. |
| DictProtocol.DefinitionsAt | src/dict/net/DictionaryConnection.java:304-307 | A successful read of `n` definitions yields exactly `n` (none when `n` is negative), and each answers the word. |
| DictProtocol.ParseDefinitionsAt | src/dict/net/DictionaryConnection.java:299-310 | Success needs a count that parses. The count decides how many definitions come back, and each carries the word and a trimmed text. |
| DictProtocol.DefineReplyAt | src/dict/net/DictionaryConnection.java:107-128 | 550 and 552 give no definitions and read nothing further. 150 reads the definitions and then requires 250. Any other code gives `UnexpectedStatus`. Success only comes from those three codes. |
| DictProtocol.DefineReplyCount | src/dict/net/DictionaryConnection.java:118-120 | A DEFINE reply that yields definitions was a 150 reply, and the number yielded equals the count it announced. |
| DictProtocol.MatchReplyAt | src/dict/net/DictionaryConnection.java:149-174 | 550, 551 and 552 give no words and read nothing further. 152 reads the matches and then requires 250. Any other code is an error. Success only comes from those four codes. |
| DictProtocol.DatabaseListReplyAt | src/dict/net/DictionaryConnection.java:188-205 | 554 gives no databases. 110 reads the list and then requires 250. Any other code is an error. |
| DictProtocol.StrategyListReplyAt | src/dict/net/DictionaryConnection.java:219-236 | 555 gives no strategies. 111 reads the list and then requires 250. Any other code is an error. |
| DictProtocol.DatabaseInfoReplyAt | src/dict/net/DictionaryConnection.java:260-275 | 550 is the hard error `InvalidDatabase`. 112 reads the info and then requires 250. Any other code is an error. Success only comes from 112. |
| DictProtocol.Completed | src/dict/net/DictionaryConnection.java:165-166 | The body's value is kept if and only if the body parsed and the next status is 250, and one more line is read. |
| DictProtocol.InfoAt | src/dict/net/DictionaryConnection.java:404-421 | The database info is trimmed, and reading stays within the input. |
| DictProtocol.InfoAtIgnoresHeader | src/dict/net/DictionaryConnection.java:408-409 | The header line is skipped whatever it holds. |
| DictProtocol.MatchesOfSpec | src/dict/net/DictionaryConnection.java:339-357 | The match set holds no duplicates. A word is in it if and only if some body line yields it. Every word in it is quote-free and trimmed. |
| DictProtocol.MatchWordClean | src/dict/net/DictionaryConnection.java:345-348 | A matched word holds no quote and has no surrounding whitespace. |
| DictProtocol.MatchLineRoundTrip | src/dict/net/DictionaryConnection.java:345-348 | A server match line `db "word"` reads back as the word. |
| DictProtocol.StrategiesOfSpec | src/dict/net/DictionaryConnection.java:383-402 | The strategy set holds no duplicates. A strategy is in it if and only if some body line yields it. No strategy name contains a space. |
| DictProtocol.StrategyLineRoundTrip | src/dict/net/DictionaryConnection.java:389-393 | A server strategy line `name "description"` reads back as that strategy. |
| DictProtocol.DatabasesOfSpec | src/dict/net/DictionaryConnection.java:359-381 | The keys are the distinct line keys in order of first appearance, with no duplicates. Each key holds the last description given for it. Each database is named by its key, and no key contains a quote. |
| DictProtocol.DatabaseEntryNamed | src/dict/net/DictionaryConnection.java:365-372 | A database's key is the trimmed text before the first quote of the trimmed line, and is the database's name. Its description is the trimmed text after that quote, less one trailing quote. The key is quote-free and trimmed. |
| DictProtocol.DatabaseLineRoundTrip | src/dict/net/DictionaryConnection.java:365-372 | A server database line `name "description"` reads back as that name and description. |
| DictProtocol.DefinitionSkipsBlankLine | src/dict/net/DictionaryConnection.java:325-326 | A whitespace-only body line leaves no trace in a definition. |
| DictProtocol.DefinitionKeepsEmptyLine | src/dict/net/DictionaryConnection.java:323-324 | An empty body line adds a line break of its own. |
| DictProtocol.DefinitionAccumulatedAppend | src/dict/net/DictionaryConnection.java:321-329 | The definition text of two runs of lines is the text of the first followed by the text of the second. |
| DictProtocol.DefinitionParagraphs | src/dict/net/DictionaryConnection.java:319-331 | Two trimmed paragraphs separated by an empty line give the two paragraphs joined by a blank line. |
| DictProtocol.InfoJoinedAppend | src/dict/net/DictionaryConnection.java:412-415 | The info text of two runs of lines is the text of the first followed by the text of the second. |
| DictProtocol.DefinitionBlockRoundTrip | src/dict/net/DictionaryConnection.java:312-337 | A 151 line naming a database, followed by a body and the terminator, reads back as the definition of the word asked for, from that database, with the body's text. |
| DictProtocol.CountFieldRoundTrip | src/dict/net/DictionaryConnection.java:301-302 | The count a server writes as the first field of the 150 details is read back exactly. |
| DictProtocol.SignedCountFieldRoundTrip | src/dict/net/DictionaryConnection.java:301-302 | Any 32-bit count in the first field, negative ones included, is read back exactly. |
| DictProtocol.NegativeCountNoDefinitions | src/dict/net/DictionaryConnection.java:302-304 | A negative announced count runs the loop zero times: no definitions, and nothing more is read. |
| DictProtocol.TwoDefinitionsExample | src/dict/net/DictionaryConnection.java:118-120 | A 150 reply announcing two definitions, two 151 blocks and a 250 yields exactly the two definitions, in order, and consumes the whole reply. |
| DictProtocol.TwoMatchesExample | src/dict/net/DictionaryConnection.java:164-166 | A 152 reply with two match lines and a 250 yields both words in order. A word that repeats is yielded once. |
| DictProtocol.DefineCommandAtoms | src/dict/net/DictionaryConnection.java:104 | A DEFINE command built from space-free, quote-free names splits back into `DEFINE`, the database and the word. |
| DictProtocol.MatchCommandAtoms | src/dict/net/DictionaryConnection.java:146 | A MATCH command splits back into `MATCH`, the database, the strategy and the word. |
| DictProtocol.ShowInfoCommandAtoms | src/dict/net/DictionaryConnection.java:257 | A SHOW INFO command splits back into `SHOW`, `INFO` and the database. |
| DictStringParser.Atoms | src/dict/net/DictStringParser.java:15-21 | The result of `splitAtoms` as a function: the groups of the successive matches from the start. `AtomsFromScanAt`, `AtomsShape` and `NoAtomsIffBlank` characterize it. |
| DictStringParser.MatchAt | src/dict/net/DictStringParser.java:11 | The match `find` reports at a non-space position: it starts there and holds at least one character, or two for a quoted match. `MatchAtIsPatternMatch` shows it is a match of the pattern. |
| DictStringParser.MatchAtIsPatternMatch | src/dict/net/DictStringParser.java:11 | The match reported at a position is a match of the pattern there, with the quoted alternative tried first. |
| DictStringParser.SplitAtoms | src/dict/net/DictStringParser.java:15-22 | The `find` loop returns exactly `Atoms(original)`: the group of each successive match, in order. |
| DictStringParser.FindAt | src/dict/net/DictStringParser.java:18-19 | One `find` from a non-space position reports the region the pattern matches there and that region's group. |
| DictStringParser.FindQuote | src/dict/net/DictStringParser.java:11 | Trying `"([^"]*)"` finds the first quote after the opening one, or the end of the input. |
| DictStringParser.FindRunEnd | src/dict/net/DictStringParser.java:11 | Trying `\S+` greedily stops at the first whitespace character, or at the end of the input. |
| DictStringParser.ScanMatchesPattern | src/dict/net/DictStringParser.java:11 | Every region `find` reports is a match of the pattern, with the quoted alternative tried first. |
| DictStringParser.ScanInOrder | src/dict/net/DictStringParser.java:17-20 | The regions come left to right and do not overlap, since each `find` resumes after the previous match. |
| DictStringParser.ScanCoversNonSpace | src/dict/net/DictStringParser.java:18 | Every non-whitespace character lies inside some reported region. |
| DictStringParser.AtomsFromScanAt | src/dict/net/DictStringParser.java:18-19 | The k-th atom is the group of the k-th match. |
| DictStringParser.AtomsShape | src/dict/net/DictStringParser.java:11 | A bare atom is non-empty and contains no whitespace. A quoted atom contains no quote. |
| DictStringParser.HelloWorldExample | src/dict/net/DictStringParser.java:13-14 | `hello world "foo bar"` yields exactly `hello`, `world` and `foo bar`. |
| DictStringParser.HelloWorldMatches | src/dict/net/DictStringParser.java:13-14 | The three matches `find` reports on that input: two bare ones, then one quoted one. |
| DictStringParser.NoAtomsIffBlank | src/dict/net/DictStringParser.java:18-21 | No atoms come back if and only if the input is empty or all whitespace. |
| DictStringParser.UnmatchedQuoteExample | src/dict/net/DictStringParser.java:11 | An opening quote with no closing quote falls back to the bare rule: `"abc` is the one atom `"abc`. |
| DictStringParser.EmptyQuotesExample | src/dict/net/DictStringParser.java:11 | `""` is one empty atom. |
| DictStringParser.QuotedRoundTrip | src/dict/net/DictStringParser.java:11 | Quote-free atoms, each written in quotes and followed by a space, split back into exactly those atoms. This includes empty atoms and atoms that contain spaces. |
| DictStringParser.WordRoundTrip | src/dict/net/DictStringParser.java:11 | Space-separated words split back into exactly those words. |
| JavaText.Trim | src/dict/net/DictionaryConnection.java:331 | `trim` leaves no removable character at either end. |
| JavaText.TrimEmpty | src/dict/net/DictionaryConnection.java:325 | `trim` gives the empty string if and only if the line is all whitespace. |
| JavaText.TrimIdempotent | src/dict/net/DictionaryConnection.java:363 | Trimming twice is trimming once. |
| JavaText.TrimPadded | src/dict/net/DictionaryConnection.java:363 | `trim` removes exactly the whitespace padding around trimmed text. |
| JavaText.TrimKeepsChars | src/dict/net/DictionaryConnection.java:345 | `trim` only removes characters. |
| JavaText.SplitOnce | src/dict/net/DictionaryConnection.java:346 | Splitting with limit 2 fails if and only if the separator is absent. Otherwise the parts and the separator rebuild the line, and the first part holds no separator. |
| JavaText.SplitOnceAtFirst | src/dict/net/DictionaryConnection.java:365 | The split happens at the first separator, wherever later ones are. |
| JavaText.IndexOf | src/dict/net/DictionaryConnection.java:365 | The index of the first occurrence, or the length when there is none. |
| JavaText.FirstField | src/dict/net/DictionaryConnection.java:301-302 | The count field is the prefix of the details up to the first space, or all of it when there is no space. |
| JavaText.SecondField | src/dict/net/DictionaryConnection.java:315-316 | A second field exists if and only if the details hold a space. It is the text right after the first space, up to the next space or the end. |
| JavaText.StripOuterQuotes | src/dict/net/DictionaryConnection.java:391-392 | The input is the result with one quote in front exactly when the input starts with a quote, and one quote after exactly when what follows that leading quote ends with one. A string with no quote at either end is unchanged. |
| JavaText.RemoveQuotes | src/dict/net/DictionaryConnection.java:348 | The result holds no quote, and every other character as many times as the input does. |
| JavaText.RemoveQuotesAppend | src/dict/net/DictionaryConnection.java:348 | Removal works piece by piece, so the characters that stay keep their order. |
| JavaText.RemoveQuotesOfQuoteFree | src/dict/net/DictionaryConnection.java:348 | A quote-free string is unchanged. |
| JavaText.DropTrailingQuote | src/dict/net/DictionaryConnection.java:369-371 | Exactly one trailing quote goes when there is one. Otherwise the string is unchanged. |
| JavaText.ParseInt | src/dict/net/DictionaryConnection.java:302 | Parsing succeeds if and only if the token is an optional sign followed by at least one digit and nothing else, and its value fits in 32 bits. The result is that value. |
| JavaText.ParseIntRoundTrip | src/dict/net/DictionaryConnection.java:302 | `parseInt` reads back every count written in decimal. |
| JavaText.ParseIntSignedRoundTrip | src/dict/net/DictionaryConnection.java:302 | `parseInt` reads back every 32-bit int as `Integer.toString` writes it, negative ones included. |
| Ordered.Insert | src/dict/net/DictionaryConnection.java:348 | `LinkedHashSet.add`: an element is appended when new, and otherwise nothing changes. `InsertSpec` characterizes it. |
| Ordered.Put | src/dict/net/DictionaryConnection.java:372 | `LinkedHashMap.put` adds at most one entry. `PutKeys` and `PutSpec` characterize it. |
| Ordered.InsertSpec | src/dict/net/DictionaryConnection.java:348 | `add` keeps the set free of duplicates, keeps what was there, and adds only the new element. |
| Ordered.DedupSpec | src/dict/net/DictionaryConnection.java:340-348 | Adding a sequence of elements yields each element exactly once, and nothing else. |
| Ordered.DedupKeepsFirstOccurrenceOrder | src/dict/net/DictionaryConnection.java:340-348 | The set iterates in the order of first insertion. |
| Ordered.PutKeys | src/dict/net/DictionaryConnection.java:372 | `put` adds the key to the keys as `add` would. |
| Ordered.PutSpec | src/dict/net/DictionaryConnection.java:372 | `put` leaves every other entry where it was, and the key maps to the new value. |
| Ordered.PutAllKeys | src/dict/net/DictionaryConnection.java:360-372 | The keys of the built map are the distinct keys in order of first appearance. |
| Ordered.PutAllLastValueWins | src/dict/net/DictionaryConnection.java:360-372 | Every key of the built map holds the value of the last entry for it. |

## Left out

- Sockets, DNS and streams (src/dict/net/DictionaryConnection.java:42-44) are replaced by the `input` lines and the `sent` log. `IOException` and its `DictConnectionException` wrappers are not modelled, because in the model a read or write always succeeds.
- The `synchronized` modifiers are left out, because the model runs one call at a time.
- `LOGGER` calls are left out, because they have no effect on results.
- The constructor cannot fail in Dafny. It is modelled as the static method `Connect`, which returns the connection or the error. The host and port parameters and `DEFAULT_PORT` play no part once the socket is a line sequence.
- `Status` is not part of this model. The stand-in `ParseStatus` accepts three digits, a space and the details. Any other line is `MalformedStatus`, where the real class would raise its own error.
- Java runtime failures become explicit errors rather than exceptions:
  - `readLine` returning `null` (end of stream) is `EndOfStream`. Java throws a NullPointerException there, or loops forever in `parseDatabaseInfo`.
  - A count that `Integer.parseInt` rejects is `MalformedCount`.
  - A 151 line with a single field is `MissingDatabaseField`.
  - 150 details made only of spaces split into an empty array in Java, so reading the count fails with an index error. In the model the count field is empty and the error is `MalformedCount`.
- ParseInt: accepts only the ASCII digits `0`-`9`. Java's `Integer.parseInt` goes through `Character.digit`, so it also accepts other Unicode decimal digits, such as Arabic-Indic digits. A count written that way is `MalformedCount` in the model.
- StripOuterQuotes: removes a trailing quote only when it is the last character. In Java's `replaceAll("^\"|\"$", "")`, `$` also matches just before a final line terminator. `readLine` already removes `\n` and `\r`, but not U+0085, U+2028 or U+2029, so a line ending in a quote followed by one of those loses that quote in Java and keeps it in the model.
- Dot-doubling of body lines that begin with "." (RFC 2229 section 2.4.1) is not undone, because the code does not undo it either.
- A whitespace-only line in a definition body is dropped, as the code at src/dict/net/DictionaryConnection.java:325-326 does.
- `MatchingStrategy` and `Database` equality is structural: name and description. The `MatchingStrategy` class is not shown, so this is an assumption.
- `Definition`'s mutable `setDefinition` is modelled by building the value once with its text.
- src/dict/ui/DictionaryMain.java, the Swing interface, is not part of this model. It only calls the engine.
- Strings are sequences of `char`. Java's UTF-16 details and character encodings play no role here.
