# qrzlogger in Dafny

qrzlogger is a command-line tool for amateur-radio operators. The operator types a call sign. The tool looks the station up on QRZ.com and walks through a form for the contact (the QSO): frequency, mode, signal reports, power, date and time. It then uploads the contact to the operator's QRZ.com logbook as an ADIF record, and appends a status line to a local audit log.

The repository holds two revisions of the program, and they differ in small, observable ways. Each one is modelled in its own module:

- `qrzlogger.py`, the class-split rewrite, becomes module `QrzLogger`, with `FileManager.get_cty_row` in module `Cty`.
- `src/qrzlogger/__main__.py`, the single-class version 0.7.0, becomes module `QrzLoggerV07`.

Logic the two revisions share lives in modules of its own:

- `Text`: the Python string operations the code uses, over ASCII.
- `Adif`: the ADIF data specifiers `<FIELD:LEN>data … <eor>`, and a decoder used to state the round trip.
- `Logbook`: the INSERT reply classifier, the audit line, and the FETCH reply parser.
- `Callsign`: the `^\w+/` prefix rule.
- `Draft`: the ordered field/prompt/value form that both revisions edit.

The operator's keystrokes and the logbook's replies are given as input sequences. Each method that reads them returns how many it used. When the operator's input runs out (an `EOFError`), each revision reacts differently:

- In version 0.7.0 the program ends (the top-level `except EOFError: pass`).
- In the class-split revision, the command loop catches the error and the current operation is aborted.

Both `sys.exit` calls become explicit outcomes.

## Model

| member | source | states |
|---|---|---|
| Callsign.StripDxPrefix | qrzlogger.py:277-278 | `re.sub(r'^\w+/', '', s)`: either the input unchanged, or the part after a leading non-empty word run and its `/`; never longer |
| Callsign.StripPrefixOf | src/qrzlogger/__main__.py:176-177 | a non-empty word-character prefix and its `/` are removed, leaving exactly the rest |
| QrzLogger.RemoveIndicators | qrzlogger.py:267-280 | a call without `/` is returned unchanged; the result is never longer than the call |
| QrzLogger.SuffixCut | qrzlogger.py:273-278 | a call ending in `/P`, `/MM`, `/M` or `/QRP` is cut at its last `/`; then a remaining `/` triggers the prefix rule |
| QrzLogger.RemovePrefixAndSuffix | qrzlogger.py:270-280 | `DL/W1AW/P` style: prefix and suffix are both removed, leaving the bare call |
| QrzLogger.PrefixOnly | qrzlogger.py:276-278 | a call with only a prefix loses that prefix |
| QrzLogger.NotIdempotent | qrzlogger.py:276-278 | normalising is not idempotent: `DL/F/W1AW` gives `F/W1AW`, and normalising again gives `W1AW` |
| Cty.GetCtyRow | qrzlogger.py:242-260 | the nested loops return exactly `CtyRow`: the sentinel when the table is not loaded, otherwise the prefix resolution, including the `IndexError` of a short row |
| Cty.ScanSpec | qrzlogger.py:250-254 | one round over the table returns the first row, in table order, whose column-9 tokens include the candidate; a miss happens exactly when no row lists it |
| Cty.SentinelIffUnlisted | qrzlogger.py:249-260 | for rows with an alias column, the sentinel comes back exactly when no prefix of the call (length 1 to the whole call) is listed |
| Cty.LongestPrefixWins | qrzlogger.py:249-257 | a found row is the first listing of some prefix, and no longer prefix is listed anywhere |
| Adif.DecodeEncode | qrzlogger.py:438-445 | the payload decodes back to `station_callsign`, `call` and the form fields in order: every length prefix counts the characters of the value that follows |
| Adif.EncodePairsSnoc | src/qrzlogger/__main__.py:327-328 | appending one field appends exactly its data specifier |
| Logbook.Classify | qrzlogger.py:457-474 | a reply containing `STATUS=FAIL` yields no id; any id is a non-empty digit run that follows `LOGID=` in the reply |
| Logbook.LogIdSpec | qrzlogger.py:468 | the search for `LOGID=` followed by a digit finds nothing exactly when no such place exists; otherwise the result is the digit run after the first such place |
| Logbook.ClassifySpec | qrzlogger.py:457-474 | a reply yields no id exactly when it contains `STATUS=FAIL` or has no `LOGID=` followed by a digit; otherwise the id is the digit run after the first such `LOGID=` |
| Logbook.LogIdFirst | qrzlogger.py:468 | when no earlier `LOGID=` is followed by a digit, the id is the digit run after the given `LOGID=`, whatever comes later |
| Logbook.FailureWins | qrzlogger.py:458 | a failure reply yields no id, even when it also carries a log id |
| Logbook.SuccessYieldsId | qrzlogger.py:457-469 | a reply without `STATUS=FAIL` whose first `LOGID=` followed by a digit is the given one yields exactly the digits after it |
| Logbook.Submit | qrzlogger.py:457-482 | an audit line is written exactly when a non-empty reply arrived, and that line is the status label plus the payload; an id implies the reply had no `STATUS=FAIL` |
| Logbook.AuditLineParts | qrzlogger.py:434-435 | the audit line is 10 characters longer than the payload; its first 9 are `SUCCESS: ` exactly when an id was extracted; then come the payload and a newline |
| Logbook.GetQsos | qrzlogger.py:414-430 | the FETCH parse loop computes `Records` of the reply lines; no reply gives `[{}]` |
| Logbook.Records | src/qrzlogger/__main__.py:291-313 | there is one record more than there are empty lines |
| Logbook.RecordsSplit | qrzlogger.py:418-419 | an empty line closes the current record; the lines after it fill a new one |
| Logbook.FetchLine | qrzlogger.py:424-428 | an escaped line `&lt;key:len&gt;value` splits into `key` and `value` |
| Logbook.ColonInValue | qrzlogger.py:426 | the value is the text after the last `:`, so a value containing `:` loses its head |
| Logbook.CharFilterAdmits | src/qrzlogger/__main__.py:306 | the character-wise filter of version 0.7.0 admits every line the name-wise filter admits, as long as each name's last character appears in the setting |
| Logbook.GroupKeys | qrzlogger.py:421-429 | every key of a record comes from an admitted line of its group |
| QrzLogger.AskEntered | qrzlogger.py:582-595 | a pass completes exactly when every field has an answer and none is `quit` or `exit` (any case); the draft is the old one with each non-empty answer written over its field |
| QrzLogger.AskInputEnded | qrzlogger.py:582-593 | when the input runs out, the draft keeps the answers given so far |
| QrzLogger.AskQuit | qrzlogger.py:587-589 | `quit`/`exit` stops the program at the first such answer, and all earlier answers were ordinary |
| QrzLogger.FirstDraft | qrzlogger.py:566-576 | the first draft has the fields freq, rst_rcvd, rst_sent, mode, tx_pwr, qso_date, time_on, in that order |
| QrzLogger.SessionRoundTrip | qrzlogger.py:566-640 | a fresh draft seeded from the session defaults and accepted as offered (every answer empty) completes after one answer per field, and logging it hands the same defaults on |
| QrzLogger.UIManager.constructor | qrzlogger.py:488-500 | the session defaults start as the configured band's frequency, the configured mode and the configured power; there is no draft yet |
| QrzLogger.UIManager.QueryQsoData | qrzlogger.py:558-595 | the in-place edit loop computes `Ask` over the draft it starts from |
| QrzLogger.UIManager.ConfirmAndSubmitQso | qrzlogger.py:623-649 | it is logged exactly when the answer is `y`/`Y` and a log id comes back; the audit log grows by that reply's line; on success the session defaults take freq, mode and tx_pwr from the draft |
| QrzLogger.UIManager.ShowQsoForm | qrzlogger.py:608-621 | one pass, then the upload question; the draft persists, and partial edits persist only when they were made to an existing draft; the audit log grows only by the upload's line after `y`; the session defaults change only when the QSO is logged, and a first draft logged as offered keeps them; `quit` or `exit` in the form leaves the draft as it was and exits; once the form is complete, running out of input aborts and nothing exits |
| QrzLogger.ReadLogLine | qrzlogger.py:655-664 | a stripped line is blank, a tag line (starts with `<` and holds `>`), or something else |
| QrzLogger.ParseQsosFromLog | qrzlogger.py:652-669 | the generator yields exactly `LogRecords` of the lines |
| QrzLogger.LogRecordsNonEmpty | qrzlogger.py:665-669 | no empty record is ever yielded |
| QrzLogger.LogRecordsSplit | qrzlogger.py:665-667 | a blank line splits a file into two parts that are read independently |
| QrzLogger.TagLineValue | qrzlogger.py:657-664 | `<tag>value<…` gives the lower-cased tag and the stripped value up to the next `<` |
| QrzLogger.LastCharDropped | qrzlogger.py:662-663 | with no `<` after the value, `find` returns -1 and the value loses its last character |
| QrzLogger.AuditLogYieldsNothing | qrzlogger.py:657 | the audit log this program writes yields no records, because its lines start with a status label |
| QrzLoggerV07.RemoveIndicators | src/qrzlogger/__main__.py:166-180 | a call without `/` is returned unchanged; the result is never longer |
| QrzLoggerV07.OneLetterSuffix | src/qrzlogger/__main__.py:173-174 | `/P` and `/M` are removed with their slash |
| QrzLoggerV07.PrefixAndSuffix | src/qrzlogger/__main__.py:171-178 | `DL/W1AW/P` becomes `W1AW` |
| QrzLoggerV07.QrpKeepsOnlySuffix | src/qrzlogger/__main__.py:173-177 | `W1AW/QRP` becomes `QRP`: the suffix rule removes only one character after `/`, and the prefix rule then strips the call |
| QrzLoggerV07.MaritimeKeepsOnlySuffix | src/qrzlogger/__main__.py:173-177 | `W1AW/MM` becomes `MM` |
| QrzLoggerV07.RevisionsDisagreeOnQrp | src/qrzlogger/__main__.py:173-177 | for `W1AW/QRP`, the class-split revision returns `W1AW` and version 0.7.0 returns `QRP` |
| QrzLoggerV07.UpperValid | src/qrzlogger/__main__.py:516-521 | upper-casing an accepted call sign keeps it valid |
| QrzLoggerV07.GetInputCallsign | src/qrzlogger/__main__.py:507-523 | an accepted input has more than 2 characters, is alphanumeric once slashes are removed, and is not `quit`; it comes back upper-cased; every earlier input was rejected; `quit` or end of input stops the program |
| QrzLoggerV07.FirstDraft | src/qrzlogger/__main__.py:463-474 | the nine fields are qso_date, time_on, band, freq, mode, rst_rcvd, rst_sent, tx_pwr, comment, in that order; freq and comment start empty |
| QrzLoggerV07.BandFreq | src/qrzlogger/__main__.py:495-503 | the band override never changes names or prompts |
| QrzLoggerV07.AskEntered | src/qrzlogger/__main__.py:482-505 | a pass completes exactly when every field has an answer and none is `c` or `quit`; names and prompts are unchanged |
| QrzLoggerV07.AskCancelled | src/qrzlogger/__main__.py:488-489 | a cancelled pass ended at a `c`, and no earlier answer stopped it |
| QrzLoggerV07.AskUsed | src/qrzlogger/__main__.py:482-491 | a pass reads at most one answer per field; every answer before the last one read was ordinary (neither `c` nor `quit`) |
| QrzLoggerV07.AskInputRanOut | src/qrzlogger/__main__.py:482-487 | any other stop is the input running out before the last field |
| QrzLoggerV07.AskDraft | src/qrzlogger/__main__.py:482-505 | a completed pass gives `Expected`: every answered field takes its non-empty answer, and an empty frequency answer leaves the configured frequency of the band just entered |
| QrzLoggerV07.FirstPass | src/qrzlogger/__main__.py:463-505 | on the first pass the final freq is the operator's non-empty freq answer, otherwise the configured frequency of the band, otherwise empty; every other field is its answer or its default |
| QrzLoggerV07.QrzLogger.QueryQsoData | src/qrzlogger/__main__.py:454-505 | the in-place edit loop, band override included, computes `Ask` |
| QrzLoggerV07.QrzLogger.EnterAnswer | src/qrzlogger/__main__.py:492-503 | one answer is written into its field (an empty answer keeps the default), and after the band question the frequency takes the band's configured value; names and prompts never change |
| QrzLoggerV07.QrzLogger.FillForm | src/qrzlogger/__main__.py:482-505 | the field-by-field loop over the questions, with `c`, `quit`, the end of input and the band override, returns exactly what `Ask` gives from the first field |
| QrzLoggerV07.QrzLogger.BuildAdif | src/qrzlogger/__main__.py:323-329 | the `+=` loop builds exactly `Encode(station, call, fields)` |
| QrzLoggerV07.QrzLogger.SendQso | src/qrzlogger/__main__.py:316-366 | the result is the log id's digits or `null`; the audit log grows by the reply's line, and only when a reply came; one INSERT of the payload is sent |
| QrzLoggerV07.SubmitNotNull | src/qrzlogger/__main__.py:354-360 | `null` comes back exactly when no log id was extracted |
| QrzLoggerV07.RetrySpec | src/qrzlogger/__main__.py:534-545 | the retry loop stops at the first successful attempt; every earlier attempt failed and was followed by an answer other than `N`; `N` declines |
| QrzLoggerV07.RetrySucceeded | src/qrzlogger/__main__.py:534-547 | the retry loop ends in success exactly when its last attempt got a log id |
| QrzLoggerV07.RetryAllFail | src/qrzlogger/__main__.py:534-545 | with no successful reply, only `N` or the end of input ends the retries |
| QrzLoggerV07.FailingServer | src/qrzlogger/__main__.py:343 | replies that all report `STATUS=FAIL` never let an upload succeed |
| QrzLoggerV07.ConfirmSpec | src/qrzlogger/__main__.py:526-565 | False comes back only for an `N` before any `Y`, `C` or `quit`, with nothing sent; after any upload attempt the result is never False; a successful upload returns True |
| QrzLoggerV07.QrzLogger.RetryUpload | src/qrzlogger/__main__.py:534-545 | the inner loop computes `Retry`; the same payload is sent on every attempt, and each reply adds its audit line |
| QrzLoggerV07.QrzLogger.NoteRecent | src/qrzlogger/__main__.py:547-553 | after a success, the entry (call, time_on, freq) is pushed exactly when the re-fetch's first record is non-empty |
| QrzLoggerV07.QrzLogger.AskConfirm | src/qrzlogger/__main__.py:529-563 | the confirm question repeats until the upper-cased answer is `Y`, `C`, `N` or `QUIT`; that answer comes back with the number of answers read; the end of input gives none |
| QrzLoggerV07.ConfirmByAnswer | src/qrzlogger/__main__.py:529-565 | the first decisive answer decides: `Y` runs the retry loop and returns True unless the program stops, `C` returns True, `N` returns False, and `QUIT` or the end of input stops the program, with nothing sent |
| QrzLoggerV07.QrzLogger.UploadConfirmed | src/qrzlogger/__main__.py:532-556 | after `Y`: the retry loop computes `Retry`, at least one attempt is made, and the recent list changes only when the last attempt got a log id |
| QrzLoggerV07.QrzLogger.ConfirmAndSubmitQso | src/qrzlogger/__main__.py:526-565 | the outer and inner loops compute `Confirm`; the log, the requests sent and the recent list are as the attempts made dictate |
| QrzLoggerV07.PushRecent | src/qrzlogger/__main__.py:551-553 | appending and then popping the head past the limit keeps the list within the limit, with the new entry last |
| QrzLoggerV07.PushAllWindow | src/qrzlogger/__main__.py:79-80 | after any run of pushes, the list holds the last `limit` entries in arrival order (first in, first out) |
| QrzLoggerV07.RecentFields | src/qrzlogger/__main__.py:551 | the entry takes time_on and freq from fields 1 and 3 of the draft |
| QrzLoggerV07.QrzLogger.RoundProgress | src/qrzlogger/__main__.py:648-667 | a round keeps the nine draft fields; a cancelled form reads an answer, clears the draft and sends nothing; a plain `N` reads an answer, keeps the draft and sends nothing; a round whose last upload got a log id ends with True |
| QrzLoggerV07.QrzLogger.QsoPass | src/qrzlogger/__main__.py:650-667 | one round of the entry loop computes `Round` from the draft it starts with: the stored draft is the one the form pass entered; nothing is sent unless the confirm answer was `Y`, and then the log, the requests and the recent list follow from that stored draft |
| QrzLoggerV07.QrzLogger.LoopPass | src/qrzlogger/__main__.py:648-667 | one iteration of `while not done`: either the loop goes on from the next answer with the new draft, nothing sent and the same `Rounds` result ahead, or it stops with what `Rounds` gives |
| QrzLoggerV07.QrzLogger.EntryLoop | src/qrzlogger/__main__.py:645-667 | the loop computes `Rounds` from the draft it starts with, each round starting from the draft the previous one left; only the last round can send, and a successful upload never ends the program |
| QrzLoggerV07.QrzLogger.EnterQso | src/qrzlogger/__main__.py:602-667 | the QSO entry computes `Rounds` from an empty draft; a cancelled form ends with no draft and nothing sent; every upload carries the final draft; a successful upload never ends the program |

## Notes on the code

Where the code behaves differently from what its comments or its design suggest, the model follows the code:

- Normalising a call sign is not idempotent. Only one leading `\w+/` is removed per call.
- Version 0.7.0 maps `W1AW/QRP` to `QRP` and `W1AW/MM` to `MM`. The class-split revision keeps `W1AW` for both.
- ADIF lengths count characters (Python's `len` on `str`), not bytes.
- In a FETCH line, the key is the text before the first `:` and the value is the text after the last `:`.
- An audit line is written only when a non-empty reply came back, not for every attempt.
- In the class-split revision, `self.qso` is never cleared after a pass. The session defaults therefore seed only the first draft. Later drafts start from the previous QSO, including its date and time.
- In version 0.7.0, every path through `Y` returns True, including a declined retry. Only `N` returns False.
- The commented-out recent-list code at `src/qrzlogger/__main__.py:656-662` is a string literal. It has no effect.
- In `parse_qsos_from_log`, a tag line without a later `<` loses its last character. The audit log this program writes cannot be read back, because its lines start with `SUCCESS: ` or `FAILED:  `.
- `get_cty_row` and `parse_qsos_from_log` are not called anywhere in `qrzlogger.py`.

## Left out

- HTTP, XML and URL encoding (`get_session`, `get_call_data`, `send_request`): replies are given as decoded text, and a failed request is "no reply".
- `splitlines`: FETCH replies and log files are given as sequences of lines.
- Configuration parsing, default-config creation, the CTY download and the `eval` of `xml_fields`: the station call, the defaults, `bandfreqs`, the CTY rows and the field names are parameters. Keys of `bandfreqs` are taken as configparser delivers them, already lower-cased.
- Colours, tables, the banner, help text and readline history. This includes displaying the re-fetched QSO in the class-split `confirm_and_submit_qso`; the re-fetch itself has no effect on state there.
- `datetime.now`: the date and time strings are parameters.
- Python strings are modelled as ASCII. Character classes (`\w`, `isalnum`, `isdigit`), `lower` and `upper` use their ASCII meanings. `strip` removes what `str.isspace` calls whitespace among ASCII characters: space, `\t`, `\n`, `\v`, `\f`, `\r` and the separators `\x1c` to `\x1f`.
- `sys.exit` and `EOFError` become outcomes (`Exited`, `Aborted`, `QueryQuit`, `ConfirmQuit`, `CallQuit`). No process ends.
- A failed write of the audit log (an error message in the class-split revision) is not modelled. The line is always appended.
- The class-split command loop (`QRZLogger.run`, `_handle_query`, `_handle_log`) and the outer `main` loop of version 0.7.0 (call-sign lookup and display) are not modelled beyond `ShowQsoForm` and `EnterQso`.
- QrzLogger.UIManager.constructor: the `KeyError` for a configured band missing from `bandfreqs` at start-up becomes a precondition.
- Logbook.GetQsos: `re` runs with `DOTALL` on single lines. The key and value split is modelled for lines without newlines.
