# A verified model of the emailer pipeline

The emailer fetches mail from several accounts, cleans it up, has a language model
classify it, renders a digest, and keeps a ledger of runs and processed messages. This
project models the logic of that pipeline in Dafny and proves what it is meant to
guarantee. `dafny verify dfyconfig.toml` checks everything.

How the modules follow the program:

| modules | program | main results |
|---|---|---|
| `Text`, `HtmlScanner`, `HtmlTokens`, `CleanUp`, `Html` | tag stripping | the scanner against a token language; the four clean-up passes as one normal form |
| `Utf8`, `ByteText`, `ScanBytes`, `EntityBytes`, `HtmlBytes` | the same on bytes | bytes and characters agree on valid UTF-8; what invalid bytes become |
| `ControlChars`, `Entities`, `Header` | control characters, entities, header fields | idempotence on all byte strings; escape and numeric round trips |
| `Decimal`, `Address` | message keys, sender addresses | key injectivity; print/parse round trips |
| `ResponseText`, `ResponseParser`, `Classify` | model replies, repair | exact acceptance, fixpoint, accounting of every requested message |
| `Counting`, `DigestStats`, `DigestData` | digest statistics | alignment and conservation laws |
| `Sorting`, `Ranking`, `Selection` | top lists, selection, grouping | independence of map order and of the unstable sort; truncation and partition |
| `FetchPool` | concurrent fetching | safety and schedule independence over all interleavings, no deadlock |
| `Store`, `Pipeline`, `Ledger`, `Limits` | the store and `Pipeline.Run` | properties of every sequence of runs |
| `SanitizerLaws`, `ReplyLaws`, `DigestLaws`, `RunLaws` | all of these | the same behaviour said on concrete inputs, without the predicates of the model |

Each loop of the program is a method proved equal to a specification function (`Stripped`,
`Decoded`, `ClassifyOutcome`, `RunReport`, ...); the lemmas say what those functions
guarantee. Classes stand for the objects that the program updates in place: the store, the
pipeline, the model provider, and the tables behind the digest statistics. Everything a
run does not decide itself (clock reads, fetch results, model replies, JSON decoding,
rendering, delivery, failing store calls) is one value of type `Pipeline.Env`, and the
lemmas hold for all of them.

Dafny's automatic induction is off for every lemma (`{:induction false}`): all inductions are
written out.

Strings are sequences of characters, times are integers, confidences are reals. The text
sanitiser works on arbitrary bytes, by section 4 of RFC 3629: its methods are proved for all
byte strings, and on the bytes of a text they do what the specifications on characters say.

Where comments of the program and its code differ, the model follows the code:

- `RunOptions.DryRun` is documented as persisting nothing (`internal/orchestrator/orchestrator.go:47-50`),
  but only `Stateless` keeps messages and flags from being recorded (line 370), see
  `Limits.LedgerKeptExactly`; and a run's own entry is written in every mode, see
  `Limits.NothingPersistedExactly`.
- An account error is meant to make a run partial (line 231), but a run whose messages were
  all processed before ends completed (lines 244-251); see `Limits.CompletedDespiteAccountError`.
- "All accounts failed" (line 223) is also reported when some account succeeded without mail;
  see `Limits.AllFailedExactly`, `AllFailedTrue` and `AllFailedFalsely`.
- `Result.TotalClassified` is documented as the messages "successfully classified by the LLM (or
  marked as failures)" (lines 73-75). It is the number of entries of the digest;
  `Ledger.CountsCoverExactly` says when each of them is one or the other, and
  `Limits.OmittedIsNotCounted` gives a run in which one is neither.
- `classifyWithPartialFallback` is documented as returning an error when nothing valid remains
  (line 599). It returns one only when the first request fails; `Run` tests for an empty list
  itself. See `Classify.NothingValidExactly` and `BlankReplyNoError`.
- A reply that parses cleanly is trusted to cover the request (lines 616-619); see `Classify.RepairAccounting`
  and `Limits.CleanReplyMayOmit`.
- `collapseNewlines` is documented as reducing newlines (`internal/mail/sanitize.go:338`); it also
  writes U+FFFD for invalid bytes, see `HtmlBytes.StrippedBytesExact` and `InvalidByteGrows`.
- During a run the in-memory store never finds an earlier digest to compare with, because the
  run itself is unfinished (`Ledger.NoPreviousDigest`); and nothing in the pipeline calls
  `SaveRunDigestSummary`, so there is none to find (`Ledger.NoSummaries`).

## Model

| member | source | states |
|---|---|---|
| HtmlTokens.DocumentScan | internal/mail/sanitize.go:98-326 | On every list of well-formed tokens (text, comparison signs, open and close tags with balanced quotes, comments, doctypes, CDATA, script and style elements) the scanner yields exactly the concatenated token meanings: text and CDATA content, one newline per block tag, nothing else |
| HtmlTokens.TokenScan | internal/mail/sanitize.go:102-325 | Each single token, in front of any rest, is consumed as a whole and leaves the scanner in the text state with the output of that token |
| HtmlTokens.CommentScan | internal/mail/sanitize.go:297-304 | A comment body without its terminator is skipped up to and including the first terminator |
| HtmlTokens.RawScan | internal/mail/sanitize.go:261-295 | A script or style body without its own closing tag is dropped whole, closing tag included, whatever other markup it contains |
| HtmlTokens.PiecesScan | internal/mail/sanitize.go:240-259 | Attributes and quoted strings are skipped in the tag and doctype states even when a quoted string contains the closing bracket |
| HtmlTokens.CDataScan | internal/mail/sanitize.go:132-142 | CDATA content comes out verbatim |
| HtmlScanner.StripTags | internal/mail/sanitize.go:98-326 | The state loop, on any byte string (or text), emits exactly what the scan specification gives, with every slice in bounds |
| ScanBytes.ScanCommutes | internal/mail/sanitize.go:98-326 | Scanning the UTF-8 bytes of a text gives the bytes of the scanned text, in every state |
| ScanBytes.MoveCommutes | internal/mail/sanitize.go:102-325 | Each branch taken on an ASCII byte is the branch taken on that character, with the same output and the matching width |
| HtmlScanner.ReadTagName | internal/mail/sanitize.go:81-95 | The lower-cased longest run of name characters after an optional slash |
| HtmlScanner.SkipThrough | internal/mail/sanitize.go:165-170 | The inner skip loops stop just behind the first occurrence of the character, or at the end |
| HtmlScanner.StepText | internal/mail/sanitize.go:103-238 | One round in the text state takes the branch of the specification and advances by its width |
| HtmlScanner.StepCData | internal/mail/sanitize.go:132-151 | A found CDATA section is emitted, an unclosed one skipped to the next closing bracket or by one character |
| HtmlScanner.StepClose | internal/mail/sanitize.go:160-197 | Closing tags: script and style without a newline, block tags with one |
| HtmlScanner.StepOpen | internal/mail/sanitize.go:199-234 | Opening tags choose the raw-text states or the tag state |
| HtmlScanner.StepQuoteAware | internal/mail/sanitize.go:306-324 | Tag and doctype states: quoted strings are skipped whole |
| HtmlScanner.StepRaw | internal/mail/sanitize.go:261-277 | Raw-text states: left only by their own closing tag |
| HtmlScanner.CDataEnd | internal/mail/sanitize.go:134-140 | The end found for a CDATA section is at least 6, so the content slice is in bounds |
| HtmlScanner.NextMove | internal/mail/sanitize.go:98-326 | Every move consumes at least one character, stays within the input and never emits more than it consumes |
| HtmlScanner.ScanSubsequence | internal/mail/sanitize.go:98-326 | On arbitrary, also malformed, input the output is never longer than the input and its non-newline characters form a subsequence of it |
| HtmlScanner.ScanPlain | internal/mail/sanitize.go:236-238 | Text without an opening bracket passes unchanged |
| SanitizerLaws.TagsExactly | internal/mail/sanitize.go:15-48 | An opening or closing tag leaves a newline exactly for the listed block elements |
| SanitizerLaws.NamesReadWhole | internal/mail/sanitize.go:81-95 | Digits and hyphens belong to a tag name, and case does not matter: `<h1>` and `<P>` break the line, `<p-x>` does not |
| SanitizerLaws.LettersLowered | internal/mail/sanitize.go:81-95 | Lower-casing moves the letters A to Z to a to z and leaves every other character, but for the two whose lower case is ASCII |
| SanitizerLaws.LoneMark | internal/mail/sanitize.go:107-122 | A `<` at the end, or before anything but a letter, a slash or an exclamation mark, is text |
| SanitizerLaws.UnclosedComment | internal/mail/sanitize.go:297-304 | An unclosed comment swallows the rest |
| SanitizerLaws.UnclosedTag | internal/mail/sanitize.go:240-259 | So does an unclosed tag or doctype, with or without quotes |
| SanitizerLaws.UnclosedRaw | internal/mail/sanitize.go:261-295 | So does a script or style element without its closing tag |
| SanitizerLaws.UnclosedCData | internal/mail/sanitize.go:143-148 | An unclosed CDATA section is skipped up to the next closing bracket |
| SanitizerLaws.OpenCData | internal/mail/sanitize.go:143-150 | Without any closing bracket only its `<` is dropped |
| CleanUp.CollapseNewlines | internal/mail/sanitize.go:339-355 | On any bytes: the runes they decode to, U+FFFD for each invalid byte, with runs of newlines reduced to one, written as UTF-8 |
| CleanUp.TrimLines | internal/mail/sanitize.go:358-378 | On any bytes: cut at the newlines, every piece trimmed, the newlines kept |
| CleanUp.LinesTrimmedText | internal/mail/sanitize.go:358-378 | On the bytes of a text, the text with every line trimmed |
| CleanUp.LinesJoin | internal/mail/sanitize.go:358-378 | Splitting into lines undoes joining them |
| CleanUp.CollapseKeepsLines | internal/mail/sanitize.go:339-355 | Collapsing newlines never changes the non-empty trimmed lines |
| CleanUp.PassesAreCleanText | internal/mail/sanitize.go:328-335 | The four passes equal joining the non-empty trimmed lines by newlines |
| CleanUp.CleanUpPasses | internal/mail/sanitize.go:328-335 | On any bytes the four calls compute that normal form of the decoded runes |
| CleanUp.CleanTextIdempotent | internal/mail/sanitize.go:328-335 | Cleaning clean text changes nothing |
| SanitizerLaws.SpacesListed | internal/mail/sanitize.go:334 | White space, character by character |
| Html.StripHtml | internal/mail/sanitize.go:59-336 | The whole function on any bytes: scan, then clean up the runes of what is left |
| Html.StrippedText | internal/mail/sanitize.go:59-336 | On the bytes of a text, the bytes of the stripped text |
| Html.StrippedDocument | internal/mail/sanitize.go:59-336 | On a well-formed document exactly its text is left, cleaned up |
| Html.StrippedPlain | internal/mail/sanitize.go:59-336 | On text without an opening bracket only the clean-up happens |
| Html.StrippedSubsequence | internal/mail/sanitize.go:59-336 | For every text the result is no longer and its visible characters are a subsequence of it |
| HtmlBytes.ScannedBound | internal/mail/sanitize.go:98-326 | For all bytes the scanner's output is no longer than the input and its bytes other than newlines are a subsequence of it |
| HtmlBytes.StrippedBytesExact | internal/mail/sanitize.go:328-355 | For all bytes the result is valid UTF-8 of at most three times the length, and the clean-up only drops bytes exactly when the scanner left valid UTF-8 |
| HtmlBytes.StrippedBytesSubsequence | internal/mail/sanitize.go:59-336 | In that case the result is no longer than the input and its bytes other than newlines are a subsequence of it |
| HtmlBytes.ValidStaysValid | internal/mail/sanitize.go:98-326 | On valid UTF-8 the scanner leaves valid UTF-8 |
| HtmlBytes.InvalidByteGrows | internal/mail/sanitize.go:343-351 | An input that grows: the single byte 0xFF becomes the three bytes of U+FFFD |
| Utf8.DecodeEncoded | internal/mail/sanitize.go:401-416 | Decoding an encoded scalar gives it back, whatever bytes follow |
| Utf8.EncodeDecoded | internal/mail/sanitize.go:401-416 | Encoding a decoded scalar gives the very bytes that were read |
| ControlChars.StripControlChars | internal/mail/sanitize.go:394-419 | The byte loop, invalid bytes included, computes the specification |
| ControlChars.StripIsFinal | internal/mail/sanitize.go:389-419 | For every byte string: stripping twice is stripping once, the result decodes to no control rune, and a string is unchanged exactly when it had none |
| ControlChars.StripEncodedText | internal/mail/sanitize.go:382-419 | On valid UTF-8 exactly the control characters other than tab, line feed and carriage return disappear |
| SanitizerLaws.PlainTextKept | internal/mail/sanitize.go:380-419 | Text of tabs, line ends, printable ASCII and characters from U+00A0 on is unchanged |
| SanitizerLaws.OnlyPlainLeft | internal/mail/sanitize.go:380-419 | For all bytes, a reader of the result sees nothing else |
| SanitizerLaws.StrayByte | internal/mail/sanitize.go:402-411 | A stray byte outside ASCII stays unless it is in the C1 range |
| EntityBytes.ReadNumber | internal/mail/sanitize.go:519-542 | Numeric entities are read modulo 2^32, with other characters skipped (decimal) or counted as zero digits (hexadecimal) |
| EntityBytes.DecodeEntity | internal/mail/sanitize.go:517-564 | One entity: valid numbers and known names are replaced, everything else stays as written |
| EntityBytes.DecodeEntities | internal/mail/sanitize.go:491-568 | The loop, for all bytes, computes the specification |
| EntityBytes.DecodedCommutes | internal/mail/sanitize.go:491-568 | On the bytes of a text, the bytes of the decoded text |
| Entities.DecodedReference | internal/mail/sanitize.go:507-564 | A closed reference in front of any text is decoded alone |
| Entities.DecodedEscape | internal/mail/sanitize.go:424-429 | Decoding undoes the escaping of the five markup characters, for every string |
| Entities.DecodedReferences | internal/mail/sanitize.go:520-548 | Decoding the decimal references of any scalars other than zero gives their sequence, without overflow |
| Entities.DecodedHexReferences | internal/mail/sanitize.go:522-534 | The same for hexadecimal references |
| Entities.DecodedPlain | internal/mail/sanitize.go:492-494 | Text without an ampersand is unchanged |
| SanitizerLaws.DecimalReference | internal/mail/sanitize.go:537-552 | A decimal reference of any number decodes to the character of that number modulo 2^32, and stays as written for NUL, surrogates and what is beyond Unicode |
| SanitizerLaws.DecimalSkips | internal/mail/sanitize.go:537-541 | Characters that are no digits are passed over in a decimal reference |
| SanitizerLaws.HexZero | internal/mail/sanitize.go:524-534 | They count as zeros in a hexadecimal one |
| SanitizerLaws.NoSemicolon | internal/mail/sanitize.go:508-514 | Text without a semicolon is unchanged |
| SanitizerLaws.NamedReference | internal/mail/sanitize.go:555-560 | A name in the table decodes alone, whatever follows |
| SanitizerLaws.MarksByName | internal/mail/sanitize.go:430-443 | The table, first part, by the characters the names stand for |
| SanitizerLaws.MarksNamed | internal/mail/sanitize.go:430-443 | No other names are in the first part |
| SanitizerLaws.SignsByName | internal/mail/sanitize.go:444-457 | The table, second part |
| SanitizerLaws.SignsNamed | internal/mail/sanitize.go:444-457 | Nor in the second |
| SanitizerLaws.PunctuationByName | internal/mail/sanitize.go:458-471 | The table, third part |
| SanitizerLaws.PunctuationNamed | internal/mail/sanitize.go:458-471 | Nor in the third |
| SanitizerLaws.SymbolsByName | internal/mail/sanitize.go:472-485 | The table, last part |
| SanitizerLaws.SymbolsNamed | internal/mail/sanitize.go:472-485 | Nor in the last |
| Header.SanitizeHeader | internal/mail/sanitize.go:582-590 | For all bytes: strip tags, strip control characters, decode, trim, in this order; the result is the UTF-8 form of the sanitised runes |
| Header.SanitizeAddressField | internal/mail/sanitize.go:597-604 | For all bytes, invalid ones included: strip control characters, decode, trim, and no tag stripping |
| Header.SanitizedText | internal/mail/sanitize.go:582-604 | On the bytes of a text both functions give the bytes of the sanitised text |
| ByteText.TrimEncoded | internal/mail/sanitize.go:589 | On the bytes of a text trimming is trimming the text |
| Header.SanitizedEscape | internal/mail/sanitize.go:582-590 | For every text, sanitising its escaped form gives the cleaned-up text without control characters |
| Header.SanitizedEscapeControlFree | internal/mail/sanitize.go:582-590 | For control-free text exactly the cleaned-up text comes back |
| SanitizerLaws.HeaderDocument | internal/mail/sanitize.go:582-590 | A header that is a well-formed document without references and controls loses all its markup and keeps its text, cleaned up |
| Decimal.Itoa | internal/mail/types.go:27-39 | The backwards loop over a ten-byte buffer never underruns and writes the decimal numeral |
| Decimal.ValueOfNumeral | internal/mail/types.go:27-39 | Decimal reading undoes printing |
| Decimal.NoLeadingZero | internal/mail/types.go:27-39 | No numeral but "0" starts with a zero |
| Decimal.Key | internal/mail/types.go:22-24 | The key text is label, slash and numeral |
| Decimal.KeyInjective | internal/mail/types.go:22-24 | Different keys print differently, for all labels, also ones with slashes, and all 32-bit UIDs |
| Address.ParseFormatted | internal/mail/fetch.go:92-103 | Parsing a printed address gives mailbox@host and the lower-cased host, whatever the display name and whatever function lower-cases |
| Address.PrintedPlainly | internal/mail/fetch.go:92-116 | How plain names, bare addresses and lists are printed |
| Address.ListsJoin | internal/mail/fetch.go:107-116 | Lists of addresses are printed one after the other, with commas between |
| Address.ParseBracketed | internal/orchestrator/orchestrator.go:1047-1077 | The last angle-bracketed part is taken, whatever stands before it and whatever text without brackets behind it, for any lower-casing of the domain |
| Address.UnclosedBracket | internal/orchestrator/orchestrator.go:1066-1071 | An unclosed bracket runs to the end |
| Address.SenderShape | internal/orchestrator/orchestrator.go:1047-1056 | A sender has something on both sides of its last at sign, and its domain is what follows; anything else is no sender |
| Address.NamedSender | internal/mail/fetch.go:107-116 | From a printed and sanitised list of addresses the last one with a display name is found, whatever stands before it, for any lower-casing of the domain |
| Address.BareSender | internal/mail/fetch.go:107-116 | A list without display names is taken whole for one address, at the last host, for any lower-casing of the domain |
| Address.SenderRecovered | internal/mail/client.go:293 | The last address of a list is the one found exactly when it is alone or equals the last one with a display name |
| ResponseText.FencedObject | internal/llm/parse.go:219-235 | The object text comes out of a fenced reply exactly, with or without the language name, for any white space around it and any commentary without a fence behind it |
| ResponseText.NoFence | internal/llm/parse.go:219-235 | A reply without a fence is only trimmed |
| ResponseText.PlainObject | internal/llm/parse.go:219-235 | The object comes out of a reply without fences exactly, whatever commentary surrounds it |
| ResponseText.OpenFence | internal/llm/parse.go:219-235 | A fence that is opened and never closed is cut off all the same |
| ResponseText.ClosedFence | internal/llm/parse.go:219-235 | What stands between the fences is taken, even if that is nothing or has fences itself |
| ResponseText.NoObject | internal/llm/parse.go:329-335 | Nothing is cut from a reply without a closing brace behind an opening one |
| ResponseText.CommentaryCut | internal/llm/parse.go:326-338 | From text around an object the object is cut out exactly |
| ResponseText.SanitizeResponseIdempotent | internal/llm/parse.go:326-338 | Extracting twice is extracting once |
| ResponseParser.ParseItems | internal/llm/parse.go:95-163 | The item loop with its set of seen keys computes the accepted results and the errors of the specification |
| ResponseParser.CheckItem | internal/llm/parse.go:111-162 | An item gives a result exactly when all its fields pass, otherwise the errors of its first failing check |
| ResponseParser.AcceptedIndicesExact | internal/llm/parse.go:101-163 | Accepted are exactly the items that are the first of their key, valid or not, and pass all checks, in order |
| ReplyLaws.AcceptedExactly | internal/llm/parse.go:101-163 | Accepted are exactly the items that are the first of account and UID and pass the listed checks on label, confidence, priority, summary and key points |
| ReplyLaws.PriorityExactly | internal/llm/parse.go:123-131 | The priority is the one written, or else the urgency, where "normal" means "medium" |
| ReplyLaws.ResultRoundTrip | internal/llm/parse.go:152-162 | An accepted item is passed on whole, but for its priority |
| ReplyLaws.ErrorsTrue | internal/llm/parse.go:104-150 | Every complaint is true of the item it names |
| ResponseParser.NoErrors | internal/llm/parse.go:165-179 | There is no error exactly when every item is accepted |
| ResponseParser.NoErrorsMeansAll | internal/llm/parse.go:165-179 | Without error every item has its result, in order |
| ResponseParser.ErrorCount | internal/llm/parse.go:101-163 | Every refused item has an error; errors and results are together as many as the items exactly when no first holder that passes the earlier checks has two blank key points |
| ResponseParser.ParseResponse | internal/llm/parse.go:60-180 | The whole parser, with JSON decoding as a parameter |
| ResponseParser.ParsedDistinct | internal/llm/parse.go:104-109 | All results of a reply have pairwise distinct keys |
| ResponseParser.FencedReplyParses | internal/llm/parse.go:60-72 | A fenced reply parses as its object |
| ReplyLaws.PlainReplyParses | internal/llm/parse.go:60-72 | A reply without fences parses as its object, whatever commentary surrounds it |
| ReplyLaws.RefusedExactly | internal/llm/parse.go:61-85 | Which replies are refused whole, for each reason, and that they deliver nothing |
| ReplyLaws.VersionExactly | internal/llm/parse.go:165-180 | The version is that of the reply if some item is accepted, and 0 otherwise |
| ReplyLaws.CleanExactly | internal/llm/parse.go:60-180 | A reply is clean exactly when it decodes to a supported version with items that are all acceptable and of different keys |
| ResponseParser.AcceptedIsFixpoint | internal/llm/parse.go:101-163 | Accepted results, normalised priorities included, are accepted again unchanged and without error |
| ResponseParser.ValidateResponse | internal/llm/parse.go:293-317 | The batch check: non-empty, of the expected size, labels non-empty, confidences in range |
| ResponseParser.AcceptedIsValid | internal/llm/parse.go:293-317 | Accepted results pass the batch check exactly when none has an empty label |
| Classify.RepairOnce | internal/orchestrator/orchestrator.go:570-592 | No request is made for a blank reply, otherwise exactly one |
| Classify.MissingExact | internal/orchestrator/orchestrator.go:633-643 | The open keys are exactly the requested ones without a valid analysis, each once |
| Classify.MissingConcat | internal/orchestrator/orchestrator.go:633-641 | They come in the order they were asked for |
| Classify.MergedExact | internal/orchestrator/orchestrator.go:706-712 | Merging keeps the first results in front and adds each new key once |
| Classify.MergedConcat | internal/orchestrator/orchestrator.go:706-712 | New results are merged one after the other |
| Classify.ClassifyWithPartialFallback | internal/orchestrator/orchestrator.go:601-729 | The outcome on every path, and the exact requests made: one, or two when a repair is due |
| Classify.RepairAccounting | internal/orchestrator/orchestrator.go:601-729 | Without a hard error, on every path: errors and failed messages align, valid and failed keys are distinct and disjoint, the first valid list is a prefix of the final one; every requested key is in exactly one list if and only if the first reply had errors or covers the request |
| Classify.ValidKeysExactly | internal/orchestrator/orchestrator.go:601-729 | The valid keys are those accepted from the first reply and from a clean repair, requested or not |
| Classify.NothingValidExactly | internal/orchestrator/orchestrator.go:594-614 | A hard error exactly when the first request fails; nothing valid exactly then, or when the first reply delivers nothing and no repair cleanly delivers more |
| Classify.BlankReplyNoError | internal/orchestrator/orchestrator.go:594-614 | Inputs with nothing valid and no error: every blank reply |
| ReplyLaws.RepairExactly | internal/orchestrator/orchestrator.go:603-660 | A repair is asked for exactly when the setting is not zero and the reply is not blank, has errors, and leaves a requested key open |
| ReplyLaws.FailuresExactly | internal/orchestrator/orchestrator.go:649-726 | The reason and stage of every failure, by the setting and the replies; failed messages are Unknown and empty |
| DigestStats.AccountTable.Ensure | internal/orchestrator/orchestrator.go:815-828 | An account is opened once, at the end of the order, and no counter changes |
| DigestStats.AccountTable.CountMessage | internal/orchestrator/orchestrator.go:847-856 | One more message changes the counters of its account alone |
| DigestStats.AccountTable.CountEntry | internal/orchestrator/orchestrator.go:1082-1099 | One more entry changes the counters of its account alone |
| DigestStats.SenderTable.Track | internal/orchestrator/orchestrator.go:1104-1120 | Sender and domain tallies stay exact, overall and per account |
| DigestStats.MarkFailed | internal/orchestrator/orchestrator.go:833-839 | Every account with an error is marked, in whatever order the map yields them |
| DigestStats.ProcessClassificationEntries | internal/orchestrator/orchestrator.go:1081-1100 | Label, classified, failed and high-priority counters are exact after all entries |
| DigestStats.CountFailed | internal/orchestrator/orchestrator.go:863-869 | The number of failed accounts is the number of error labels |
| DigestStats.BuildDigestStats | internal/orchestrator/orchestrator.go:804-885 | Every account is listed once, fetched ones first; each account and the totals have exactly the counts of the messages and entries |
| DigestLaws.FirstSeenExactly | internal/orchestrator/orchestrator.go:830-832 | Accounts are listed once each, in the order they are first fetched |
| DigestLaws.AccountFigures | internal/orchestrator/orchestrator.go:847-861 | Every figure of an account, by the messages and entries it counts |
| DigestLaws.GlobalFigures | internal/orchestrator/orchestrator.go:804-885 | Every figure of the digest, by the messages and classifications it counts |
| DigestStats.TopNamesExact | internal/orchestrator/orchestrator.go:871-878 | Top lists carry the true message counts and nothing left out ranks higher |
| DigestLaws.NamesListed | internal/orchestrator/orchestrator.go:1139-1146 | Up to five names, each with its count in brackets |
| DigestData.BuildClassMap | internal/orchestrator/orchestrator.go:736-756 | The map holds the valid classifications overridden by the failed ones with their errors |
| DigestData.BuildDigestDataPartial | internal/orchestrator/orchestrator.go:734-802 | The digest built is exactly the one specified, failure counts included |
| DigestData.EntriesAligned | internal/orchestrator/orchestrator.go:758-779 | Entry i carries the key, account and read state of message i, whatever the model replied |
| DigestData.AnalysesShown | internal/orchestrator/orchestrator.go:736-779 | A valid analysis is shown as accepted, an error is shown exactly for failed messages, and for distinct messages the number of failed analyses is that of failed messages |
| DigestData.FailureShown | internal/orchestrator/orchestrator.go:741-756 | A failed message is shown with its own error |
| DigestLaws.FailedShown | internal/orchestrator/orchestrator.go:561-566 | A message without a valid analysis is shown under Unknown, without summary, and never before one with a priority |
| DigestData.AccountConserved | internal/orchestrator/orchestrator.go:847-861 | Per account: fetched = read + unread = classified + failed = sum of the label counts |
| DigestData.TotalsConserved | internal/orchestrator/orchestrator.go:804-885 | Global fetched, read, unread, failed and analysis-failed counts are the sums over the accounts |
| DigestData.LabelTotalsConserved | internal/orchestrator/orchestrator.go:1082-1089 | Every label count is the sum of the account counts and the size of that label group |
| DigestData.AccountsConserved | internal/orchestrator/orchestrator.go:863-869 | Checked = succeeded + failed accounts, and failed is the number of error labels |
| DigestData.ClassifiedConserved | internal/orchestrator/orchestrator.go:805-808 | For distinct messages the global classified count is the account sum exactly when the accepted keys are distinct and all are message keys |
| Sorting.SliceStable | internal/digest/markdown.go:58-66 | Sorts in place to the stable sort of the old content |
| Sorting.StableSortCorrect | internal/digest/markdown.go:58-66 | The stable sort is a sorted permutation that keeps tied elements in order |
| Sorting.StableSortUnique | internal/digest/markdown.go:58-66 | There is only one such result |
| Ranking.TopN | internal/orchestrator/orchestrator.go:1124-1147 | The result is that of the specification, although both the map order and the order of ties are arbitrary |
| Ranking.RankingUnique | internal/orchestrator/orchestrator.go:1129-1138 | A map has one ranking only, whatever order its entries come in |
| Ranking.TopIsGreatest | internal/orchestrator/orchestrator.go:1139-1147 | The result has the min(n, size) greatest entries, strictly ordered by count and then key, and every entry left out ranks below each one listed |
| DigestLaws.TopExactly | internal/orchestrator/orchestrator.go:1133-1141 | Higher counts first, equal counts by name, and every entry left out would come after each one listed |
| DigestLaws.PrecedesExactly | internal/orchestrator/orchestrator.go:1137 | Names compare at their first difference; a proper prefix comes first |
| Selection.Select | internal/digest/markdown.go:41-78 | Which messages are kept, and what happens to the caller's slice |
| Selection.TruncationKeepsBest | internal/digest/markdown.go:55-69 | Exactly the maximum is kept, no dropped message outranks a kept one, ties keep their order, nothing is lost or invented |
| DigestLaws.KeptInOrder | internal/digest/markdown.go:55-66 | No dropped message has a higher priority than a kept one, by the priority texts, nor the same and a later date; the kept ones are in that order |
| DigestLaws.CandidatesExactly | internal/digest/markdown.go:42-55 | Which messages are candidates, in which order, and when some are dropped |
| Selection.SelectPermutes | internal/digest/markdown.go:58-66 | The in-place sort only permutes the caller's slice |
| Selection.GroupByLabel | internal/digest/markdown.go:250-270 | Every label has the stably sorted filter of its messages, and no other label has a group |
| DigestLaws.GroupInOrder | internal/digest/markdown.go:259-268 | Inside a group, high comes before medium before low before anything else, and newer before older |
| DigestLaws.GroupExactly | internal/digest/markdown.go:252-258 | Every message is in the group of its label, one without a label in Unknown |
| Selection.GroupsPartition | internal/digest/markdown.go:250-270 | The groups, one after the other, are a permutation of the messages |
| Selection.SortedLabels | internal/digest/markdown.go:71-78 | Labels come strictly ascending, each once, whatever the map order |
| Selection.LabelCounts | internal/digest/markdown.go:235-247 | One row per label with its count, labels strictly ascending |
| FetchPool.NextInv | internal/mail/pool.go:34-84 | Every step of any goroutine, of the spawning loop and of the caller keeps the invariant |
| FetchPool.FetchAllSafe | internal/mail/pool.go:34-84 | At every moment of every interleaving at most max(1, maxConcurrent) fetches are active, no slot is written twice, every written slot holds its own account, and no account failure cancels the others |
| FetchPool.LimitExactly | internal/mail/pool.go:35-38 | The limit is the setting, and one for a setting below one |
| FetchPool.NeverTooMany | internal/mail/pool.go:35-42 | No more goroutines are under way than configured, or one for a setting below one |
| FetchPool.SpawnExactly | internal/mail/pool.go:42-47 | The next account is taken up exactly when there is room |
| FetchPool.FetchAllResult | internal/mail/pool.go:34-84 | At the end every slot was written once; without cancellation by the caller the slots hold the sequential result, whatever the interleaving |
| FetchPool.SlotExactly | internal/mail/pool.go:61-76 | What each slot holds in the end: what the fetch of its account returned, or the missing ingester |
| FetchPool.WrittenBeforeCancel | internal/mail/pool.go:34-84 | A slot written before the caller cancels holds the sequential result to the end |
| FetchPool.CancelledExactly | internal/mail/pool.go:49-59 | An account whose turn comes after the cancellation is not fetched, and its slot says so to the end |
| FetchPool.RunLength | internal/mail/pool.go:34-84 | No run takes more than four steps per account and one cancellation |
| FetchPool.NeverStuck | internal/mail/pool.go:34-84 | Until everything is finished some goroutine or the spawning loop can go on |
| FetchPool.FlattenMessages | internal/mail/pool.go:93-111 | The messages of accounts without error, in account order |
| FetchPool.FlattenedMembers | internal/mail/pool.go:93-111 | A message is in the result exactly when an account without error delivered it |
| FetchPool.FlattenedConcat | internal/mail/pool.go:93-111 | The results are flattened one after the other |
| FetchPool.FilterAlreadyProcessed | internal/mail/pool.go:119-131 | The loop computes the filter, also for an empty set |
| FetchPool.FreshMembers | internal/mail/pool.go:119-131 | Exactly the messages with unprocessed keys remain |
| FetchPool.FreshConcat | internal/mail/pool.go:119-131 | Messages are filtered one by one, in order |
| FetchPool.AccountErrors | internal/mail/pool.go:153-161 | The labels of failed accounts, each with its last error |
| Store.NoopStore.RecordRun | internal/store/noop_store.go:40-57 | Appends the run with the next number as ID, missing start and status filled in, and changes nothing else |
| RunLaws.RunPrepared | internal/store/noop_store.go:44-56 | A run without ID, start and status gets them, one that has them keeps them |
| Store.NoopStore.FinishRun | internal/store/noop_store.go:60-80 | Finishes the first run with this ID and no other; reports whether there was one |
| Store.LatestCompletion | internal/store/noop_store.go:120-133 | The maximum over the finishes of completed runs, or none |
| Store.NoopStore.GetLastSuccessfulRunTime | internal/store/noop_store.go:120-133 | The loop computes that maximum |
| Store.NoopStore.RecordMessage | internal/store/noop_store.go:136-151 | The first record of a key stays |
| Store.NoopStore.AlreadyProcessed | internal/store/noop_store.go:154-165 | Exactly the asked keys that the ledger has |
| Store.NoopStore.RecordFlag | internal/store/noop_store.go:168-187 | A flag already recorded for the message is not added again |
| Store.WithFlagDistinct | internal/store/noop_store.go:176-186 | Recording keeps the flags free of duplicates and keeps the earlier ones in place |
| Store.NoopStore.GetPreviousRunDigestSummary | internal/store/noop_store.go:223-268 | Nothing for an unknown or unfinished run; otherwise the summary of the first of the latest completed runs with a summary that finished strictly earlier, and nothing exactly when there is none |
| RunLaws.PreviousOfTwo | internal/store/noop_store.go:245-267 | Of two completed runs the later is compared with the earlier, unless they finished together |
| Store.RunIdInjective | internal/store/noop_store.go:274-276 | Run IDs of different numbers differ |
| Store.FinishLast | internal/store/noop_store.go:67-77 | With numbered runs, finishing the latest run touches its entry alone |
| Pipeline.Pipeline.FetchWindow | internal/orchestrator/orchestrator.go:411-440 | Explicit window, or the last success (a day ago without one) capped by the maximal window |
| RunLaws.ExplicitWindow | internal/orchestrator/orchestrator.go:413-415 | An explicit window reaches back from now, whatever the store says and the cap is |
| RunLaws.ExplicitFetch | internal/orchestrator/orchestrator.go:413-415 | A run with an explicit window fetches from exactly there |
| RunLaws.DynamicWindow | internal/orchestrator/orchestrator.go:417-440 | Otherwise from the last success or 24 hours ago, but at most the configured time or 72 hours ago |
| Pipeline.Pipeline.FilterProcessed | internal/orchestrator/orchestrator.go:445-474 | Exactly the messages outside the ledger remain; all of them when the ledger cannot be read |
| Pipeline.Pipeline.RecordProcessedMessages | internal/orchestrator/orchestrator.go:955-987 | The ledger after the loop is that of the specification, failing writes included |
| Pipeline.Pipeline.RecordFlags | internal/orchestrator/orchestrator.go:995-1015 | The flags after the loop are those of the specification |
| Pipeline.Pipeline.Analyse | internal/orchestrator/orchestrator.go:254-399 | From the model request to the closing write: store, result and outgoing traffic, and the digest rendered |
| Pipeline.Pipeline.Run | internal/orchestrator/orchestrator.go:162-399 | The whole run, on every path: new store, result, requests, flags, deliveries, and the digest handed to the renderer |
| Ledger.LedgerExact | internal/orchestrator/orchestrator.go:955-987 | After any run, with any failures: old records are unchanged, and a key is new exactly when the run reached recording and the key has a valid analysis and a write that succeeded; its record carries the data of that message and the run ID |
| Ledger.LedgerDelta | internal/orchestrator/orchestrator.go:370-373 | Without failing writes a run adds exactly the analysed keys with a valid analysis if it gets past delivery in stateful mode, and none otherwise |
| RunLaws.RecordExactly | internal/orchestrator/orchestrator.go:966-985 | A new record is that of an analysed message of its key with an accepted classification, field by field |
| RunLaws.FlagsExactly | internal/orchestrator/orchestrator.go:995-1015 | After a run a keyword is recorded exactly if it was, or an accepted classification names it as a configured label |
| RunLaws.FlagsDiffer | internal/store/noop_store.go:176-186 | Over all run sequences, two recorded flags differ in account, UID or keyword |
| Ledger.RequestedExact | internal/orchestrator/orchestrator.go:239-276 | The model is asked exactly about the fetched keys outside the ledger (all of them without deduplication), in at most two requests |
| RunLaws.AskedExactly | internal/orchestrator/orchestrator.go:239-242 | The same by the options: unrecorded keys only, unless the run is forced or the ledger cannot be read |
| RunLaws.RequestsExactly | internal/orchestrator/orchestrator.go:261-267 | Every request of a run and what is in it, and exactly when there is a second one |
| RunLaws.LabelsOffered | internal/mail/classification.go:9 | The model is offered the three default labels, then the custom ones |
| Ledger.NeverAskedAgain | internal/orchestrator/orchestrator.go:239-242 | Over all run sequences: a key in the ledger is never sent to the model again by a deduplicating run, and its first record is never overwritten |
| Ledger.NeverShownAgain | internal/orchestrator/orchestrator.go:239-242 | Over all run sequences: a key in the ledger is in no digest of a later deduplicating run |
| Ledger.RecordsStay | internal/store/noop_store.go:136-151 | Over all run sequences no record is lost or changed |
| Ledger.FailedStaysEligible | internal/orchestrator/orchestrator.go:966-970 | A key without a valid analysis is not recorded, and the next run that fetches it asks about it again |
| Ledger.RunRecordedOnce | internal/orchestrator/orchestrator.go:378-399 | Every recorded run adds one entry and finishes it with exactly the terminal status, count and error it returns, unless the closing write fails |
| Ledger.FinishedForGood | internal/orchestrator/orchestrator.go:378-399 | Over all run sequences that entry keeps its status for good and is the only one with its ID |
| Ledger.StatusExactly | internal/orchestrator/orchestrator.go:310-399 | The status of every run, from the fetch results, the classification and the delivery; in particular completed with a digest exactly when that was rendered and delivered (or the run is dry), no account failed, no analysis failed and some is valid |
| Ledger.DegradedExactly | internal/orchestrator/orchestrator.go:254-322 | Degraded exactly when there were messages and the digest was not delivered, or no request was answered, or the replies deliver nothing valid |
| RunLaws.ErrorExactly | internal/orchestrator/orchestrator.go:162-365 | The error a run returns, by where it stopped |
| RunLaws.Unrecorded | internal/orchestrator/orchestrator.go:166-177 | A run has no ID exactly when it could not be recorded; then nothing is sent or counted |
| Ledger.CountsExactly | internal/orchestrator/orchestrator.go:281-284 | Returned counts: all analysed messages are classified or failed, and for distinct messages the failed analyses are those of the classifier |
| Ledger.CountsCoverExactly | internal/orchestrator/orchestrator.go:73-84 | Unclassified messages and failed analyses are equally many exactly when the classifier accounts for every message once, that is when there is a first reply that has errors or covers the request |
| Ledger.DeliveryExact | internal/orchestrator/orchestrator.go:324-365 | Flags and digest leave the program at most once each, are recorded as delivered or not, and never in a dry run |
| Ledger.FlaggedExactly | internal/orchestrator/orchestrator.go:327-329 | Only analysed messages are flagged exactly when nothing is flagged or all accepted keys were asked for |
| Ledger.WatermarkExact | internal/store/noop_store.go:120-133 | Over all run sequences the last-success time is the maximum over the completed runs |
| Ledger.WatermarkNeverBack | internal/store/noop_store.go:120-133 | It never decreases |
| Ledger.WindowStart | internal/orchestrator/orchestrator.go:417-440 | With a forward clock a dynamic window starts at the finish of the last successful run, or a day ago, but not before the cap |
| Ledger.FlagsStayDistinct | internal/store/noop_store.go:168-187 | Over all run sequences no flag is recorded twice |
| Ledger.NoSummaries | internal/store/noop_store.go:204-219 | Over all run sequences the store holds no digest summary |
| Ledger.NoPreviousDigest | internal/store/noop_store.go:223-243 | Over all run sequences: asked for the previous digest of the run under way, the store returns none |
| Limits.CompletedDespiteAccountError | internal/orchestrator/orchestrator.go:244-251 | With an account error a run ends completed exactly when something was fetched and nothing of it was new |
| Limits.AccountErrorForgotten | internal/orchestrator/orchestrator.go:244-251 | Inputs on which that happens: a known message, a failing account, any reply |
| Limits.AllFailedExactly | internal/orchestrator/orchestrator.go:213-229 | "All accounts failed" is reported exactly when some account failed and the others delivered nothing |
| Limits.AllFailedTrue | internal/orchestrator/orchestrator.go:221-229 | The count in that report is the number of fetched accounts exactly when each of them failed |
| Limits.AllFailedFalsely | internal/orchestrator/orchestrator.go:221-229 | Inputs on which the report is made, one account idle and one failing: it counts too few accounts, and so is false, exactly when they are two |
| Limits.OmittedIsNotCounted | internal/orchestrator/orchestrator.go:281-284 | A run in which a message is neither classified nor a failed analysis: two new messages, and a clean reply for one |
| Limits.UnrequestedIsFlagged | internal/orchestrator/orchestrator.go:327-329 | A run that flags a message it did not analyse: the reply names another key |
| Limits.NothingPersistedExactly | internal/orchestrator/orchestrator.go:166-176 | A run leaves the store as it was exactly when its first write fails, in every mode |
| Limits.LedgerKeptExactly | internal/orchestrator/orchestrator.go:367-373 | Recorded messages and flags are left alone in every environment exactly in stateless mode, dry run or not |
| Limits.DryRunPersists | internal/orchestrator/orchestrator.go:367-373 | For every key outside the ledger and every reply that decodes to a valid item for it, a run that is not stateless records it, dry run or not |
| Limits.CleanReplyMayOmit | internal/orchestrator/orchestrator.go:616-619 | Every reply that decodes to a valid item for one of two requested messages leaves the other in neither list |

## Left out

- Network and files: IMAP, MIME parsing, the model providers, the Telegram channel, configuration, logging and signal handling appear only as outcomes in `Env`.
- SQLite: the store modelled is the in-memory one; nothing is claimed about the SQL store.
- JSON decoding: the parser takes the decoder as a parameter and starts from its list of items.
- Rendered text: templates, prompts, truncation of excerpts (`Config.excerpt` is any function), payload hashing and the texts of errors are not modelled; errors are datatypes, and the choice between renderer and fallback renderer is folded into the one rendering outcome.
- Highlights: `buildHighlights` is not modelled beyond `Ledger.NoPreviousDigest`.
- Easy helpers: `chunkUIDs`, `Truncate`, `GroupByAccount`, `GetRun`, `ListRuns`, `WaitGroupWithTimeout`, `BoundedSemaphore`, and the loop that hands flags to the accounts (`Trace.flagged` is what it is given).
- `buildDigestData`, the older form of `buildDigestDataPartial` without analysis errors.
- Text.ToLower: lower-casing is modelled for ASCII and for the two characters whose lower case is ASCII, which decides priorities; the address lemmas hold for any lower-casing function, and the domain tallies of the digest use this one.
- Confidences are reals, so NaN is not modelled.
- Pointers: the per-account statistics that the program updates through pointers are map values updated through `AccountTable.Update`.
- Concurrency inside the store: its mutex is not modelled, since one run calls it from one goroutine.
- Goroutines of `FetchAll` take atomic steps (context check, fetch, return); `Env.fetch` is any outcome of such a fetch, and `FetchPool.FetchAllResult` says why it does not depend on the schedule.
- Sorting.SliceStable: the library sorts are modelled as an insertion sort; `Sorting.Slice` promises only what an unstable sort does.
- Not claimed: idempotence of tag stripping, absence of tags or control characters after entity decoding, and gap-free coverage of mail arriving during a run.
