# Timetable alert poller — delta detection

A model of the core of a Telegram bot that polls a university timetable endpoint and
announces timetables it has not announced before. Two near-identical pollers exist:
`bottemp.py` fetches the endpoint over HTTP, `bot.py` renders it in a browser and reads
the JSON out of the page source (falling back to the first-`[`-to-last-`]` substring).
Both share one piece of logic, modelled once here:

- every record of every program gets an identity string
  `programName_semester_title_url` (program name defaulting to `"N/A"`, record fields to `""`);
- a record is announced exactly when its identity is absent from the manager's
  seen-list (`sent_timetables`) at the moment it is examined, and the identity is
  appended at once, so a repeat later in the same batch is suppressed;
- one HTML message per new record is sent, in order; the seen-list is saved only when
  at least one record was new;
- the reset command empties the seen-list and saves it; loading falls back to an empty
  list when the state file is missing or cannot be decoded.

Modules: `Timetable` (records, identity, and `Scan`, the value-level specification of
one detection pass, with its reference definition `FreshEntries`), `Notify` (message
text, the anchor, the two delivery attempts), `Manager` (the `TimetableManager` class
holding the seen-list and the state file, the in-place detection loop `DetectNew`, the
reset), `BotTemp` and `Bot` (one polling cycle of each poller), `Strings` and
`Wrappers` (helpers).

The JSON decoder is a parameter (`parse: string -> Option<seq<Program>>`) or already
applied (`Response.json`); the HTTP response, the rendered page, the outcome of writing
the state file (`writeOk`) and whether the messaging service's first, formatted send fails are
inputs. The state file is a field of the manager (`StateFile`).

The reset handler is the same in both files (`bottemp.py:150-155`, `bot.py:172-177`),
as are `TimetableManager` (lines 36-54 of each) and the notification loop; each is
modelled once.

Where the code and its description differ, the model follows the code:

- The identity is not injective: semester `"5_a"` with title `"b"` and semester `"5"`
  with title `"a_b"` give the same identity, and a missing field gives the same identity
  as an empty one. So a record can be silently treated as already announced.
  `IdentityCollision` exhibits this; `UniqueIdInjective` proves injectivity when the
  program name, semester and title contain no underscore.
- Missing record fields default to `""` in the identity but to `"N/A"` in the message.

## Model

| member | source | states |
|---|---|---|
| `Timetable.UniqueId` | bottemp.py:89-95 | The identity of a record: program name, semester, title and url joined by `_`, record fields defaulting to `""`; its length is the four parts' lengths plus three separators |
| `Timetable.UniqueIdLayout` | bot.py:118-122 | Where each part sits in an identity: name, `_`, semester, `_`, title, `_`, url to the end |
| `Timetable.ProgramNameOf` | bottemp.py:83 | A program's name is its `programName` field, or `N/A` when that is missing |
| `Timetable.RecordsOf` | bottemp.py:84 | A program's records are its `programDataList`, or none when that is missing |
| `Timetable.Entries` | bottemp.py:82-88 | The records the nested loop visits, program by program and in list order, each paired with its program's defaulted name: every record of every program is there, and nothing else |
| `Timetable.Scan` | bottemp.py:82-100 | One detection pass as a value: a record is emitted exactly when its identity is absent from the seen-list as it stands when the record is examined, and its identity is then appended; no more records are emitted than examined (which ones is stated by `ScanEmitsFresh`) |
| `Timetable.FreshEntries` | bot.py:117-128 | The reference definition of what a pass emits: the records whose identity is neither already seen nor that of an earlier record of the batch, in source order |
| `Timetable.UniqueIdInjective` | bottemp.py:88-95 | The identity is name, semester, title and url joined by `_` (record fields defaulting to `""`): when name, semester and title hold no underscore, equal identities imply equal name and equal defaulted fields |
| `Timetable.IdentityCollision` | bot.py:117-122 | Two different records of one program (semester `5_a`/title `b` against semester `5`/title `a_b`) share an identity |
| `Timetable.ScanEmitsFresh` | bottemp.py:82-100 | The emitted records are exactly those whose identity is neither in the old seen-list nor the identity of an earlier record of the batch, in source order (program order, then list order) |
| `Timetable.ScanAppendsEmittedIds` | bottemp.py:98-100 | The identities appended are exactly the identities of the emitted records, in the same order, so the list grows by the number of records emitted |
| `Timetable.ScanCovers` | bottemp.py:82-101 | After the pass the seen-list holds its old identities plus the identity of every examined record, and nothing else |
| `Timetable.ScanAppendsDistinct` | bot.py:111-128 | Appended identities are distinct from each other and from the old contents; a duplicate-free list stays duplicate-free |
| `Timetable.ScanAllKnown` | bot.py:125-127 | A batch whose identities are all already seen emits and appends nothing |
| `Timetable.ScanIdempotent` | bottemp.py:82-101 | A second pass over the same batch, on the list the first left behind, emits nothing and appends nothing |
| `Timetable.ScanNothingNew` | bottemp.py:103-104 | A pass emits a record exactly when it appends an identity; with nothing new the seen-list is unchanged |
| `Timetable.ScanAfterReset` | bot.py:175-177 | Starting from an empty seen-list, every examined record's identity is among those emitted |
| `Timetable.ScanSummary` | bot.py:111-128 | One pass grows the list by one identity per emitted record, keeps it duplicate-free, and leaves every examined identity in it |
| `Timetable.SingleRecordExample` | bottemp.py:82-100 | One program `BTech` with one record against an empty list emits that record and appends `BTech_5_CS Timetable_http://x/a.pdf` |
| `Notify.MessageSplitsIntoLines` | bottemp.py:110-121 | The message is, line by line: the alert header, an empty line, the program name, the title, the semester (both defaulting to `N/A`) and the link |
| `Notify.HtmlLink` | bottemp.py:113 | The anchor element for a url, with the url as both target and text; it is 15 characters longer than twice the url and opens with `<a href="` |
| `Notify.LinkUrl` | bottemp.py:110 | The url shown in a message: the record's url, or `N/A` when missing |
| `Notify.MessageLines` | bot.py:138-144 | The six lines of a message: header, empty line, then each label followed by the program name, the title, the semester (both defaulting to `N/A`) and the anchor |
| `Notify.Message` | bot.py:135-144 | The message is the lines joined by line breaks; it starts with the alert header and ends with the anchor for the record's url (`N/A` when absent) |
| `Notify.HtmlLinkRoundTrip` | bottemp.py:110-113 | The anchor read back gives the url as both its target and its visible text |
| `Notify.AnnounceAll` | bottemp.py:105-126 | One message per new record, in the order the records were found |
| `Notify.SendAttempts` | bottemp.py:56-65 | Each message is first sent formatted; only when that call fails, for any reason, is the same text sent again unformatted |
| `Strings.LinesJoinLines` | bottemp.py:115-121 | Lines joined by line breaks split back into the same lines when none contains a line break |
| `Manager.LoadSentTimetables` | bottemp.py:40-47 | Loading yields the stored list, and an empty list when the file is missing or cannot be decoded |
| `Manager.TimetableManager.constructor` | bottemp.py:36-38 | A new manager's seen-list is what loading the state file yields |
| `Manager.TimetableManager.SaveSentTimetables` | bottemp.py:49-54 | A successful save overwrites the file with the seen-list, which loading then gives back; a failed one changes nothing |
| `Manager.DetectInProgram` | bottemp.py:88-101 | The inner loop over one program's records continues the pass exactly as `Scan` does over those records, updating the seen-list in place |
| `Manager.DetectNew` | bottemp.py:82-101 | The loop's emitted records and new seen-list equal `Scan`'s: old list kept as prefix, one appended identity per emitted record, duplicate-freedom kept, every examined identity present |
| `Manager.ResetData` | bottemp.py:150-155 | The seen-list becomes empty and is saved at once |
| `Manager.ResetThenEverythingIsNew` | bottemp.py:153-155 | The file a successful reset writes reloads as an empty list, and a pass from it emits every examined identity |
| `BotTemp.FetchedPrograms` | bottemp.py:75-76 | A cycle goes on with data exactly when the response has status 200 and a body that decodes, and then with that body |
| `BotTemp.CheckForNewTimetables` | bottemp.py:67-134 | Without a 200 response with decodable data nothing changes and nothing is sent; otherwise the seen-list grows as `Scan` says, the messages of the new records are sent in order, and the file is written only when something was new |
| `Bot.ExtractJsonArray` | bot.py:92-104 | The fallback candidate is the text from the first `[` to the last `]`, and there is none exactly when no `]` follows a `[` |
| `Bot.ParsePage` | bot.py:89-104 | The data is the whole page parsed when that succeeds; otherwise the extracted bracketed run parsed; none when no run exists or it does not parse |
| `Bot.CheckForNewTimetables` | bot.py:67-156 | When neither the page nor the candidate parses, the cycle returns before the seen-list is read or changed; otherwise as the HTTP cycle |

## Left out

- Network access: the HTTP session and status check, the browser driver, its reconnect and captcha click, and releasing the driver; their results are inputs.
- JSON decoding and encoding: a parameter or an already-decoded input; the state file is a datatype, so a file that decodes to something other than a list of strings, or a response or page that decodes to something other than a list of programs, is not modelled.
- JSON values other than strings in program and record fields (Python would put `None` for `null`, or the digits of a number, into the identity and the message); fields are optional strings.
- A `programDataList` that is present but `null`: the source raises there and the catch-all swallows it; the model treats only a missing list as empty.
- Message delivery: `SendAttempts` says which calls are made; their effect on the chat is not modelled, and no delivery outcome changes the seen-list.
- The five-second pause before each message, the three-second page wait, and the scheduling of periodic and initial runs.
- `encode_url` and the `quote` calls: their results are only printed.
- Command replies, `main`, logging and environment configuration.
- Overlap between a manual check and the periodic job: the model is sequential.
- The catch-all exception handler: an exception inside the detection loop (a record that is not an object, a `null` record list) or during sending (`quote` of a `null` url) leaves identities appended in memory for records never announced; the next successful save writes them to the file, so those records are never announced. The model has no such exceptions.
- Load errors other than a decoding failure (an unreadable file) propagate at start-up in the source and are not modelled.
- `Timetable.Scan`: its own contract bounds only the number of emitted records; which records are emitted is stated by `ScanEmitsFresh` and `FreshEntries`, because a quantified contract on `Scan` makes the loop proofs too costly.
- `Timetable.UniqueId`: its own contract states only the length; the position of each part is stated by `UniqueIdLayout`, because stating it on the function makes every proof that mentions an identity too costly.
- `Manager.TimetableManager.SaveSentTimetables`: a write that fails after truncating the file (leaving it undecodable) is not modelled; a failed write leaves the file as it was.
