# Training roster bot: a verified model of its core

This project models the core of a Telegram bot that keeps sign-up lists for
recurring hockey trainings. The sign-up list lives in the text of one chat
message: a template body, a `Лимит игроков: N` line, and three sections
headed `Игроки:`, `Вратари:` and `Резерв:`, each holding numbered lines.
The bot's button handlers work the same way each time:

1. split the message into lines;
2. find the player limit;
3. sort the numbered lines into sections;
4. add or remove the user's line, promoting the first reserve when a player leaves;
5. rebuild the text.

The model covers:

- **Roster text engine** (`RosterText`, `RosterFormat`, `RosterEdits`, `RosterHandlers`):
  - the parse, join, cancel, renumber and rebuild steps of the two handlers (bot.py:405-518 and 921-1025);
  - the loops themselves, as methods proved equal to specification functions;
  - the end-to-end lemmas relating the rebuilt message text to the parsed roster.
- **Announcement creation** (`RosterCreation`): the text appended to a template when a training is created (bot.py:266-287).
- **Message directory** (`MessageDirectory`): the date-keyed store of announcement messages, with filing, daily cleanup and the date cancellation command (bot.py:550-568, 640-681, 1139-1155). Also the test that recognises a training message (bot.py:613-623).
- **Administrators** (`Admins`): `is_admin`, the admin-list rewrite of the configuration file, and the `/addadmin` and `/removeadmin` commands (bot.py:26-28, 692-881).
- **Templates** (`Templates`): the `TemplatesManager` class (templates_manager.py).

Supporting modules:

- `Text` models the Python string operations the code relies on: `strip`, `in`, `lower`, `split`/`join`, `int()` and `str()` of an integer.
- `Dates` models `strptime`/`strftime` with the `%d.%m.%Y` format and the `\d{2}\.\d{2}\.\d{4}` search.

Behaviour a reader might not expect, as the code has it:

- Promotion from the reserve happens immediately, inside the cancel handler (bot.py:483-487). No offer, confirmation or timer exists.
- Cancelling a date deletes the stored messages but does not drop their bucket from the store (bot.py:656-673). Only the daily cleanup removes it.
- A numbered line that appears before any section header belongs to no section. It is dropped from the rebuilt text, not kept as preamble (bot.py:465-470, 979-984).
- Headers are recognised by substring (`"Игроки:" in line`). The entries are re-emitted only after a line exactly equal to the header (bot.py:508-516, 1015-1023).
- Joining does not renumber existing lines (bot.py:994-1025). Cancelling renumbers every section (bot.py:489-503).
- The player limit is read from the first line holding the label. Anything unparsable there gives 0, i.e. no limit (bot.py:436-442).

Two of the bugs listed under "## Findings" are corrected in the handlers: the entry recogniser (row 1) and the lookup key of date cancellation (row 2). The members that model the code as written are named there and under "## Left out".

## Model

| member | source | states |
|---|---|---|
| RosterText.AsWrittenIsEntryLine | bot.py:455 | every line the source's nine-prefix test accepts is an entry line of the corrected recogniser |
| RosterText.TenthEntryMissedAsWritten | bot.py:978 | the line `10. Петров П.` is not an entry for the code as written, but is one for the corrected recogniser |
| RosterText.TenthShape | bot.py:455 | every line starting `10.` is missed as written and recognised when corrected |
| RosterText.NumberedIsEntryLine | bot.py:998-1009 | any line `<n>.<rest>` with n ≥ 1, such as the lines join writes, is recognised as an entry |
| RosterText.NumberedLine | bot.py:492-493 | `split('.', 1)` of `<n>.<rest>` gives back the number n and the text rest |
| RosterText.ScanFromAppend | bot.py:445-472 | scanning lines a then b equals scanning a and continuing from that state over b |
| RosterText.LimitFromFirstLabelLine | bot.py:436-442 | the limit is read from the first line containing `Лимит игроков:`, whatever follows it |
| RosterText.LimitWithoutLabel | bot.py:433-442 | with no line holding the label, the limit is 0 |
| RosterText.LimitValueOfLimitLine | bot.py:439 | `Лимит игроков: N` reads back as N for every natural N |
| RosterText.ParseSortsLines | bot.py:445-472 | the non-entry lines are kept in order, and every entry line is filed under the header last seen before it |
| RosterText.SerializeWithoutExactHeaders | bot.py:506-518 | with no line exactly equal to a header, the rebuild gives back the other lines unchanged and drops every entry |
| RosterText.Without | bot.py:455-463 | removing the user's lines shortens the list iff some line contains the user's text; kept lines are original lines not containing it |
| RosterText.JoinRefusedIffListed | bot.py:988-992 | a join is refused as a duplicate iff some entry in any section contains the user's text |
| RosterText.PlayerLineSpec | bot.py:1003-1004 | the new player/goalie line carries number n and contains the user's text |
| RosterText.ReserveLineSpec | bot.py:998-999 | the new reserve line carries number n and contains the user's text |
| RosterText.JoinPlacement | bot.py:994-1010 | goalies always go to goalies; players go to reserve iff the limit is positive and reached; only the chosen section changes |
| RosterText.JoinAppendsLine | bot.py:994-1010 | join appends one line, numbered one past the section's old length and containing the user, after the unchanged old lines |
| RosterText.JoinTwiceRefused | bot.py:988-992 | a second join by the same user, in either role, is refused |
| RosterText.RenumberSpec | bot.py:489-503 | the i-th renumbered line is number i+1 followed by the text after the old line's first dot |
| RosterText.RenumberKeepsRest | bot.py:489-503 | renumbering keeps the text after each line's number |
| RosterText.RenumberNumbers | bot.py:489-503 | after renumbering, the lines are numbered 1..n with no gaps |
| RosterText.CancelNotListedIff | bot.py:474-480 | cancel reports "not signed up" iff no entry in any section contains the user's text |
| RosterText.CancelShape | bot.py:455-503 | cancel removes the user's lines; it promotes iff the user was a player and a reserve remains; section lengths change by exactly that |
| RosterText.CancelNumbers | bot.py:489-503 | after cancel, every section is numbered 1..n |
| RosterText.CancelKeepsPlayersAndGoalies | bot.py:455-503 | remaining players and goalies keep their texts and their order |
| RosterText.CancelKeepsReserves | bot.py:483-503 | the reserves keep their texts and order, shifted by one when the first is promoted |
| RosterText.PromotedLineRest | bot.py:487 | the promoted line's text is the reserve's text, stripped, with `(резерв)` removed |
| RosterText.CancelPromotes | bot.py:483-487 | on promotion the first remaining reserve becomes the last player, without its reserve mark |
| RosterText.JoinThenCancel | bot.py:405-518 | joining a new user and then cancelling gives back the original roster, renumbered, with no promotion |
| RosterText.WithoutNone | bot.py:455-463 | removing a user who is in no line changes nothing |
| RosterFormat.NoColonLine | bot.py:445-472 | a line without a colon is never a header or a limit line: it is an entry or plain text |
| RosterFormat.HeaderKinds | bot.py:446-454 | each header line opens its own section |
| RosterFormat.HeadersDistinct | bot.py:508-516 | the three headers are different lines |
| RosterFormat.EntriesOk | bot.py:445-472 | every entry of a well-formed roster is a single recognised entry line |
| RosterFormat.ParseSerialize | bot.py:445-518 | for a well-formed roster, parsing the rebuilt lines gives back the same roster |
| RosterFormat.ParseMessageText | bot.py:506-518 | for a well-formed roster, splitting and parsing the joined message text gives back the same roster |
| RosterFormat.EmitLines | bot.py:506-518 | every rebuilt line is one of the other lines or one of the entries |
| RosterEdits.JoinKeepsWellFormed | bot.py:994-1025 | a successful join keeps the roster well formed |
| RosterEdits.CancelKeepsWellFormed | bot.py:455-518 | a successful cancel keeps the roster well formed |
| RosterHandlers.ReadLimit | bot.py:436-442 | the limit loop computes the specified limit of the lines |
| RosterHandlers.SortLines | bot.py:967-986 | the sorting loop of the join handler, with the corrected entry recogniser, computes the specified scan of the lines |
| RosterHandlers.SortLine | bot.py:968-986 | one iteration of the sorting loop is one scan step |
| RosterHandlers.SortLinesWithout | bot.py:445-472 | the cancel handler's loop drops the user's entries, records which sections held them, and files the rest as the scan does |
| RosterHandlers.AnyListed | bot.py:989-990 | the duplicate test is true iff some line contains the user's text |
| RosterHandlers.RenumberSection | bot.py:489-503 | the renumbering loop computes the specified renumbering |
| RosterHandlers.Rebuild | bot.py:506-518 | the rebuild loop computes the specified serialisation |
| RosterHandlers.ExpandLine | bot.py:507-518 | one rebuild iteration emits a header with its section, or the line alone |
| RosterHandlers.HandleJoin | bot.py:921-1025 | the join handler's outcome (unregistered, no record, duplicate, placed with the new text) is the specified one |
| RosterHandlers.Place | bot.py:994-1010 | the placement branch computes the specified join |
| RosterHandlers.HandleCancel | bot.py:405-518 | the cancel handler's outcome (no record, not signed up, cancelled with the new text) is the specified one |
| RosterHandlers.PromoteAndRenumber | bot.py:483-503 | promotion happens iff the user was a player and reserves remain; every section is then renumbered |
| RosterHandlers.CancelOfSorted | bot.py:445-503 | the handler's sorted lines, flags and promotion give exactly the specified cancel |
| RosterHandlers.JoinOnWellFormed | bot.py:921-1025 | on a well-formed message, join's reply and new text are the roster join serialised, and stay well formed |
| RosterHandlers.JoinTwiceOnMessage | bot.py:988-992 | pressing join twice on the message text: the second press is refused |
| RosterHandlers.CancelOnWellFormed | bot.py:405-518 | on a well-formed message, cancel reports "not signed up" iff the user is unlisted; otherwise the new text is the roster cancel serialised |
| RosterHandlers.JoinThenCancelOnMessage | bot.py:405-518 | join then cancel on the message text gives back the original message, renumbered |
| RosterCreation.ParseLimitInput | bot.py:267-273 | a limit is accepted iff `int()` parses the input to a value ≥ 0, and then it is that value |
| RosterCreation.LimitInputOfNat | bot.py:267-273 | the decimal text of every natural number is accepted as that limit |
| RosterCreation.CreationLines | bot.py:283-287 | the created text splits into the template's lines, then an empty line, the limit line, an empty line, the list title and the three headers |
| RosterCreation.LimitLinePlain | bot.py:287 | the limit line is plain text holding the limit label |
| RosterCreation.CreatedOtherLines | bot.py:283-287 | the created roster's non-entry lines are plain lines plus each header exactly once |
| RosterCreation.CreatedLimit | bot.py:283-287 | the created message reads back the limit it was created with |
| RosterCreation.CreatedAnnouncement | bot.py:283-287 | the created text parses to a well-formed roster with empty sections |
| RosterCreation.FirstJoinOnCreated | bot.py:994-1005 | the first player to join a fresh announcement becomes player 1 |
| Dates.BeforeOrder | bot.py:651 | date comparison is a strict total order |
| Dates.Strptime | bot.py:648 | a parsed date is a valid calendar date |
| Dates.FindDateKey | bot.py:553 | a found key has the shape DD.MM.YYYY |
| Dates.FindDateKeyLeftmost | bot.py:553 | the search finds nothing iff no position matches; otherwise it gives the leftmost match |
| Dates.FindDateKeyOfKey | bot.py:553 | a key searched for in itself finds itself |
| Dates.StrptimeFormat | bot.py:618 | parsing a formatted date gives the date back |
| Dates.FormatStrptime | bot.py:1146 | formatting a key that parses gives back the key |
| Dates.FormatDateInjective | bot.py:618 | different dates format differently |
| Dates.SpacedDayAccepted | bot.py:648 | ` 1.02.2026` parses: `%d` accepts a space before a one-digit day |
| Dates.SpacedMonthRefused | bot.py:648 | `01. 2.2026` is refused: `%m` has no space form, so the handler answers with the format error |
| Dates.ShortFormAccepted | bot.py:647-648 | `1.2.2026` parses to 1 February 2026, whose formatted key is `01.02.2026` |
| MessageDirectory.FiledPlacement | bot.py:550-568 | a message is appended to the bucket of the first date in its text; other buckets are unchanged; a text without a date is not filed |
| MessageDirectory.FiledKeepsByDate | bot.py:553-562 | filing keeps every key a DD.MM.YYYY date found in its messages |
| MessageDirectory.FiledKeysShaped | bot.py:553-562 | every key of the store has the DD.MM.YYYY shape |
| MessageDirectory.PrunedKeeps | bot.py:1139-1155 | cleanup keeps exactly the keys that do not parse or are not before today, with their buckets unchanged |
| MessageDirectory.PrunedIdempotent | bot.py:1139-1155 | cleaning up twice on the same day equals cleaning up once |
| MessageDirectory.PrunedLater | bot.py:1139-1155 | a cleanup on a later day subsumes an earlier one |
| MessageDirectory.PrunedKeepsByDate | bot.py:1139-1155 | cleanup keeps the store keyed by date |
| MessageDirectory.FiledThenPruned | bot.py:1139-1155 | a message for today or later survives cleanup |
| MessageDirectory.DeletionsBound | bot.py:660-667 | the deleted count never exceeds the bucket size |
| MessageDirectory.DeletionsNone | bot.py:660-667 | when every deletion fails, none are counted |
| MessageDirectory.DeletionsAll | bot.py:660-667 | when every distinct message can be deleted, all are counted |
| MessageDirectory.LookupKey | bot.py:656 | the corrected lookup key is a DD.MM.YYYY key that parses back to the date |
| MessageDirectory.LookupMissedAsWritten | bot.py:647-656 | `1.2.2026` is accepted as a date but, used as typed, finds no messages; the corrected key finds the `01.02.2026` bucket |
| MessageDirectory.UnshapedKeyEmpty | bot.py:656 | a key that is not ten characters long has no messages |
| MessageDirectory.LookupKeyFinds | bot.py:656 | the corrected key finds the bucket of any stored key naming the same date |
| MessageDirectory.CreatedIsTrainingMessage | bot.py:613-623 | an announcement built from a template mentioning "тренировка" and the date is recognised as that date's training message |
| MessageDirectory.CancelDateDeletesAll | bot.py:669-672 | when every message of the date can be deleted, the reply reports no partial deletion |
| MessageDirectory.TrainingDirectory.StoreMessage | bot.py:550-568 | the store becomes the old store with the message filed |
| MessageDirectory.TrainingDirectory.Cleanup | bot.py:1139-1155 | the store becomes the old store pruned at today |
| MessageDirectory.TrainingDirectory.DeleteMessages | bot.py:656-664 | counts the deletions that succeed out of the bucket's size |
| MessageDirectory.TrainingDirectory.ProcessCancelDate | bot.py:640-681 | non-admins are refused; an unparsable date is a format error; a date not after today is refused; otherwise the deletions, looked up under the corrected key, and the sheet result are reported |
| Admins.Without | bot.py:817-818 | the filtered list holds exactly the old ids other than the removed one |
| Admins.WithoutSameLength | bot.py:821-822 | the length is unchanged iff the id was absent, which is the "not found" test |
| Admins.WithoutNoDuplicates | bot.py:817-818 | removing keeps the list free of duplicates |
| Admins.IntToString | bot.py:721 | an id's text is non-empty, has no surrounding blanks and no comma |
| Admins.IdListRoundTrip | bot.py:711-721 | parsing the `, `-joined ids gives back the same list |
| Admins.AddedIsAdmin | bot.py:714-718 | an added id is an admin, and every admin stays one |
| Admins.RemovedIsNotAdmin | bot.py:817-822 | a removed id that is not a configuration admin stops being an admin; others are unaffected |
| Admins.AddKeepsNoDuplicates | bot.py:714-718 | appending an absent id keeps the list free of duplicates |
| Admins.AdminRegistry.UpdateAdminIds | bot.py:692-740 | an id already listed succeeds with no change; otherwise it is appended iff the file is written |
| Admins.AdminRegistry.RemoveAdminFromConfig | bot.py:798-844 | succeeds iff the id was listed and the file is written, and then the list is filtered |
| Admins.AdminRegistry.AddAdminCommand | bot.py:743-777 | an id is added iff the sender is an admin, replied to someone else, not yet admin or configuration admin, and the file is written |
| Admins.AdminRegistry.RemoveAdminCommand | bot.py:847-881 | an id is removed iff the sender is an admin, replied to someone else, the target is a listed non-configuration admin, and the file is written |
| Templates.Drop | templates_manager.py:27-31 | the remaining names are the old names except the deleted one |
| Templates.DropDistinct | templates_manager.py:27-31 | deleting keeps the names distinct |
| Templates.AppendDistinct | templates_manager.py:7-12 | adding an absent name keeps the names distinct |
| Templates.GetAsWritten | templates_manager.py:21-22 | the lookup as written succeeds iff a "default" template exists |
| Templates.Get | templates_manager.py:21-22 | the corrected lookup gives the named template, else "default", else nothing |
| Templates.GetMissesAsWritten | templates_manager.py:22 | without "default", an existing template is not found as written but is found by the corrected lookup |
| Templates.GetAnyCase | templates_manager.py:21-22 | any letter case of a name reaches the same template |
| Templates.DefaultAnyCase | templates_manager.py:28 | `DEFAULT` and `Default` lower to the protected name |
| Templates.GetAgreesIfDefault | templates_manager.py:21-22 | where "default" exists, the two lookups agree |
| Templates.AddThenGet | templates_manager.py:7-12 | after adding, the name finds the new text in any case |
| Templates.DeleteThenGet | templates_manager.py:27-31 | after deleting, the name falls back to "default", which deleting never removes |
| Templates.StoredKeyFindsItself | templates_manager.py:21-22 | a stored key finds its own text |
| Templates.EditThenGet | templates_manager.py:14-19 | editing changes what that name reads and nothing else |
| Templates.TemplatesManager.AddTemplate | templates_manager.py:7-12 | refused iff the lower-cased name exists; otherwise stored under it, appended to the order |
| Templates.TemplatesManager.EditTemplate | templates_manager.py:14-19 | refused iff the lower-cased name is missing; otherwise only that text changes |
| Templates.TemplatesManager.GetTemplate | templates_manager.py:21-22 | the lookup as written, which agrees with the corrected one where "default" exists |
| Templates.TemplatesManager.ListTemplates | templates_manager.py:24-25 | exactly the stored names, each once, in insertion order |
| Templates.TemplatesManager.DeleteTemplate | templates_manager.py:27-31 | refused for "default" in any case and for unknown names; otherwise exactly that template is removed |
| Text.JoinSplit | bot.py:424 | joining the split lines with `\n` gives back the text |
| Text.SplitJoin | bot.py:424 | splitting joined lines that hold no `\n` gives back the lines |
| Text.ParseIntOfNat | bot.py:439 | `int()` of the decimal text of n is n |
| Text.NatToStringInjective | bot.py:491-493 | different numbers print differently |
| Text.LowerIdempotent | templates_manager.py:9-10 | lower-casing twice is lower-casing once |

## Left out

- RosterHandlers.SortLines: every member that parses the message uses the corrected entry recogniser of the first "## Findings" row, not the code's `1.`…`9.` prefix test. Those members are RosterText.Classify, RosterHandlers.SortLine, RosterHandlers.SortLinesWithout, RosterHandlers.HandleJoin and RosterHandlers.HandleCancel. The code's own behaviour is captured by RosterText.IsEntryLineAsWritten and RosterText.TenthEntryMissedAsWritten.
- MessageDirectory.TrainingDirectory.ProcessCancelDate: looks messages up under the corrected key of the second "## Findings" row (MessageDirectory.LookupKey), not under the typed text as bot.py:656 does. The code's own lookup is MessageDirectory.LookupKeyAsWritten, and MessageDirectory.LookupMissedAsWritten shows an input where the two differ.
- Telegram I/O is not modelled: replies, callback answers, message edits, keyboards and the next-step registration. Each handler's effect on the chat is its outcome value.
- The spreadsheet (`gsheets`) is replaced by parameters. Whether the user is registered, their stored record, the attendance update and the sheet's cancellation result are inputs.
- Reading and writing `config.py` is replaced by the `written` flag of the admin methods, which says whether the rewrite succeeds. The regular-expression search and substitution in the file text is not modelled.
- Template loading and saving go to the configuration module and are not part of this model. The loaded dictionary is a constructor parameter.
- The clock is not modelled: "today" is a parameter of cleanup and date cancellation. The 24-hour timer that re-runs cleanup is left out.
- Deleting a chat message is not modelled. Which deletions succeed is a set of deletable message references.
- The creation dialogue's state machine (`training_states`: template choice, date input, confirmation) is not modelled, apart from the text it builds. `str.format` of the template is a parameter: the template body after substitution.
- Scans of chat history and everything else in bot.py outside the handlers named above are not part of this model. That includes registration, attendance and template commands as chat plumbing. gsheets.py is not part of this model.
- Unicode: `lower()` is modelled for ASCII and basic Cyrillic (А–Я, Ё), and `\d`/`int()` for ASCII digits only.
- Dates.FormatDate: assumes 4-digit years; how `strftime('%Y')` pads years below 1000 is platform-dependent and not modelled.
- Dates.Strptime: models `%d.%m.%Y` with a one- or two-digit day (or a space and a non-zero digit), a one- or two-digit month, a four-digit year and calendar validation. Non-ASCII digits, which `strptime` also accepts, are not modelled.
- Exceptions the source catches and reports generically (a message with no text, a failed edit) are not modelled. Exceptions that carry meaning are modelled as outcomes: a bad date, a bad limit, a missing record.
- Concurrency: handlers are modelled one event at a time, as the bot processes them.

## Findings

| source | as written | input that shows it | evidently intended | confidence | as-written member | corrected member |
|---|---|---|---|---|---|---|
| bot.py:455 | entry lines (also bot.py:978) are recognised only by the prefixes `1.`…`9.` | a roster with ten players: the line `10. Петров П.` is treated as plain text, so the player is not counted against the limit, can sign up twice and cannot cancel | any number followed by a dot starts an entry | not executed | RosterText.TenthEntryMissedAsWritten | RosterText.AsWrittenIsEntryLine |
| bot.py:647-656 | the typed date text is used as the store key | `/canceltrain` with `1.2.2026`: `strptime` accepts it, but the messages are filed under `01.02.2026`, so nothing is deleted | look up the key formatted from the parsed date | not executed | MessageDirectory.LookupMissedAsWritten | MessageDirectory.LookupKeyFinds |
| templates_manager.py:22 | `templates.get(name, templates['default'])` evaluates the fallback first | with no `default` template, `get_template('match')` raises KeyError although `match` exists | fall back to `default` only when the name is missing | not executed | Templates.GetMissesAsWritten | Templates.GetAgreesIfDefault |
