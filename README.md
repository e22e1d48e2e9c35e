# Fire alert notifier, modelled in Dafny

`fire_notifier.py` polls a public page of fire alerts. On each pass it reads
the page's alert cards into records of the form (location, category, time), in page order.
It takes the first record as the most recent one. It drops that record if:
- a search term is set and does not occur in the location (case
  ignored);
- its category is not in the table of dangerous categories `WARN_ALARMS`;
- an alert with the same time is already in its JSON file of sent alerts.

Otherwise it sends a three-line push notification: the category, the location
and the time. It records the alert in the file only when the push service
accepts it.

The model has five modules:

- `Results`: the `Option` and `Result` datatypes.
- `PyStr`: the Python string operations the program uses, on ASCII text.
  These are `isspace`, `strip`, `upper`, `lower`, `split(sep)`, `split()`,
  `replace(old, "")`, `in` and `join`. Each one is defined as a function
  and characterised by lemmas, for example split then join gives the text
  back, and strip removes only whitespace at the ends.
- `Alerts`: `str.capitalize`, `clean_text`, `capitalize_per_word` and
  `get_fire_alerts`. Inside `get_fire_alerts`, reading one card is modelled
  with every exception it can raise as an explicit error. The category that
  the loop variable `alert_type` carries from card to card is modelled
  explicitly. The loop is a method, `GetFireAlerts`, proved equal to the
  function `FireAlerts`.
- `Classify`: `WARN_ALARMS` and the search-term test.
- `Service`: the alert file as a value and one pass of the main loop as a
  function (`Poll`). A run of passes is another function (`Run`). The class
  `FireNotifier` holds the search term and the file. Its methods
  `CheckFireAlertInDb`, `AddFireAlertToDb`, `PollOnce` and `Serve` are
  proved equal to those functions. Lemmas over `Poll` and `Run` state what
  the service promises. A pass makes the push request exactly when the first
  alert is new, matches and is dangerous, and stores the alert exactly when
  the push service also accepts it. The file only grows. Stored times stay
  distinct. No time is notified twice.

The network answers are parameters:
- the page request is a `Fetch`: a page of cards, a not-ok status, or a
  raised exception;
- whether the push service accepts a notification is a `bool`.

### Behaviour of the program worth knowing

- A page whose status is not ok makes `get_fire_alerts` return an empty
  list. The main loop then raises `IndexError` at `fire_alerts[0]`, which
  ends the program (`PollCrashes`). An empty page does the same, and so does
  a page request that raises.
- A card whose first paragraph does not have exactly one colon reuses the
  category of the card before it. On the first card this raises
  `UnboundLocalError`, provided the card's location can be read and its
  second paragraph has "As of "; otherwise the `IndexError` of line 153 or
  157 comes first (`ReadCard`, `Step`, `ExtractAllFirstNeedsType`).
- A card that cannot be read makes the whole call raise, so no alert of that
  page is returned (`FireAlertsAllOrNothing`). This happens when a single
  colon has no '!' before it, or when the second paragraph has no "As of ".
  Conversely, a page whose cards can all be read and whose first card names
  a category is always read in full (`FireAlertsOk`).
- The search term is a single substring, matched ignoring case. A comma in
  it is an ordinary character (`CommaIsLiteral`).
- The table lists "2ND ALARM", so a category spelled "SECOND ALARM" is not
  dangerous (`NotDangerous`).
- With a single colon, the location is the text between the first '!' and
  the next '!' (or the colon), not the text before the first '!'
  (`LocationSpec`).

## Model

| member | source | states |
|---|---|---|
| PyStr.IsSpace | fire_notifier.py:129-133 | the characters `strip()` and `split()` treat as whitespace: tab, newline, vertical tab, form feed, carriage return, 0x1C-0x1F and space |
| PyStr.UpperChar | fire_notifier.py:166-168 | upper-casing a character changes only lower-case letters, leaves no lower-case letter, and keeps whitespace whitespace |
| PyStr.LowerChar | fire_notifier.py:199 | lower-casing a character changes only upper-case letters, leaves no upper-case letter, and keeps whitespace whitespace |
| PyStr.CaseFolding | fire_notifier.py:199 | lower and upper ignore the other case mapping applied first, and each is idempotent |
| PyStr.Upper | fire_notifier.py:166-168 | `upper` keeps the length, maps every character, and leaves no lower-case letter |
| PyStr.Lower | fire_notifier.py:199 | `lower` keeps the length and maps every character |
| PyStr.LowerOfUpper | fire_notifier.py:199 | comparing in lower case cannot tell an upper-cased text from the original |
| PyStr.UpperKeepsOut | fire_notifier.py:166 | upper-casing adds no character that is not a letter |
| PyStr.UpperOfUpperText | fire_notifier.py:166-168 | upper-casing text that is already upper case changes nothing |
| PyStr.LeadingSpace | fire_notifier.py:129 | counts exactly the run of whitespace that starts the text |
| PyStr.TrailingSpace | fire_notifier.py:129 | counts exactly the run of whitespace that ends the text |
| PyStr.Strip | fire_notifier.py:129 | `strip()` leaves no whitespace at either end |
| PyStr.StripSpec | fire_notifier.py:129 | `strip()` gives a contiguous slice of the text, and everything outside it is whitespace |
| PyStr.StripKeepsOut | fire_notifier.py:159 | stripping brings in no character that was absent |
| PyStr.StripStripped | fire_notifier.py:159 | stripping text with no whitespace at either end changes nothing |
| PyStr.StripIdempotent | fire_notifier.py:159-162 | stripping twice is stripping once |
| PyStr.Contains | fire_notifier.py:199 | `pat in s`: the pattern occurs at some position of the text |
| PyStr.Find | fire_notifier.py:149 | a position that `find` reports is an occurrence of the pattern |
| PyStr.FindSpec | fire_notifier.py:149 | `find` reports the first occurrence, and reports none only when there is no occurrence at all |
| PyStr.Position | fire_notifier.py:149 | the first occurrence of the pattern, or the length of the text when there is none |
| PyStr.ContainsFind | fire_notifier.py:199 | `pat in s` holds exactly when `find` finds the pattern |
| PyStr.OccursChars | fire_notifier.py:199 | every character of an occurring pattern occurs in the text |
| PyStr.Join | fire_notifier.py:133 | `sep.join(parts)`: the parts in order with the separator between neighbours |
| PyStr.Split | fire_notifier.py:149 | `split(sep)` gives at least one piece, and more than one exactly when the separator occurs |
| PyStr.SplitJoin | fire_notifier.py:149 | joining the pieces of `split(sep)` with `sep` gives the text back |
| PyStr.SplitFirst | fire_notifier.py:150 | the first piece is a prefix free of the separator, followed by the separator or the end |
| PyStr.SplitHead | fire_notifier.py:153 | the first piece is the text up to the first separator |
| PyStr.SplitTail | fire_notifier.py:157 | the pieces after the first one are the pieces of the text after the first separator |
| PyStr.FindChar | fire_notifier.py:149 | a one-character pattern is found exactly when the character occurs, at exactly its positions |
| PyStr.SplitWithout | fire_notifier.py:149 | text without the separator character is a single piece |
| PyStr.FindAfter | fire_notifier.py:153 | the first separator character after a prefix that lacks it is at the end of that prefix |
| PyStr.SplitAtFirst | fire_notifier.py:153 | splitting on a character peels off the text before its first occurrence |
| PyStr.SplitThree | fire_notifier.py:214 | three lines without the separator, joined by it, split back into those three lines |
| PyStr.Count | fire_notifier.py:152 | the number of occurrences of a character is zero exactly when it is absent |
| PyStr.CountSplit | fire_notifier.py:152 | splitting on a character gives one piece more than its number of occurrences |
| PyStr.SplitCharStep | fire_notifier.py:149 | a leading separator character starts an empty piece, and any other leading character leaves the piece count unchanged |
| PyStr.FindCharStep | fire_notifier.py:149 | searching for a character either stops at the first character or goes on one further |
| PyStr.Erase | fire_notifier.py:148 | `replace(pat, "")` never lengthens the text |
| PyStr.EraseIsJoinOfSplit | fire_notifier.py:148 | `replace(pat, "")` is the pieces of `split(pat)` joined with nothing |
| PyStr.DropChar | fire_notifier.py:129 | deleting a character removes all its occurrences and brings in no other character |
| PyStr.EraseChar | fire_notifier.py:129 | deleting one character agrees with the general `replace(pat, "")` |
| PyStr.DropCharEnds | fire_notifier.py:129 | deleting a character that is at neither end keeps both end characters |
| PyStr.DropCharLast | fire_notifier.py:129 | deleting a character that is not the last one keeps the last character |
| PyStr.DropCharAbsent | fire_notifier.py:129 | deleting an absent character changes nothing |
| PyStr.DropSpaceStripped | fire_notifier.py:129 | deleting a whitespace character from stripped text keeps it stripped |
| PyStr.WordLength | fire_notifier.py:133 | the word that starts the text ends at whitespace or at the end of the text |
| PyStr.Words | fire_notifier.py:133 | `split()` gives non-empty pieces without whitespace |
| PyStr.WordLengthOfWord | fire_notifier.py:133 | a word followed by whitespace or nothing is read whole |
| PyStr.WordsOfConcat | fire_notifier.py:133 | a word followed by whitespace is the first piece of `split()` |
| PyStr.WordsOfJoin | fire_notifier.py:133 | `split()` of words joined by single spaces gives those words back |
| PyStr.JoinOfWords | fire_notifier.py:133 | words joined by single spaces contain no other whitespace and none at the ends |
| Alerts.CleanText | fire_notifier.py:128-129 | `clean_text` leaves no newline, tab or carriage return, and no whitespace at either end |
| Alerts.CleanTextIsReplace | fire_notifier.py:129 | `clean_text` is strip followed by the three `replace` calls |
| Alerts.CleanTextIdempotent | fire_notifier.py:128-129 | cleaning clean text changes nothing |
| Alerts.Capitalize | fire_notifier.py:133 | `capitalize` upper-cases the first character, lower-cases the rest, and keeps a word a word |
| Alerts.CapitalizeIdempotent | fire_notifier.py:133 | capitalising twice is capitalising once |
| Alerts.CapitalizeAll | fire_notifier.py:133 | every word is capitalised, in order |
| Alerts.CapitalizePerWord | fire_notifier.py:132-133 | the words of the result are the capitalised words of the text, joined by single spaces, with no newline and no whitespace at the ends |
| Alerts.CapitalizePerWordIdempotent | fire_notifier.py:132-133 | applying `capitalize_per_word` twice is applying it once |
| Alerts.InfoLine | fire_notifier.py:147-148 | the first paragraph, cleaned, with every "->" deleted |
| Alerts.NamesType | fire_notifier.py:152 | the card states its category: its first paragraph splits into exactly two parts at colons |
| Alerts.TimeLine | fire_notifier.py:156 | the second paragraph, cleaned |
| Alerts.InfoParts | fire_notifier.py:149 | splitting the first paragraph at colons gives at least one part |
| Alerts.Location | fire_notifier.py:147-166 | a location that can be read is upper case |
| Alerts.NamedType | fire_notifier.py:149-154 | a card yields its own category exactly when its first paragraph has one colon |
| Alerts.Time | fire_notifier.py:156-168 | a time that can be read is upper case |
| Alerts.ReadCard | fire_notifier.py:146-168 | a card that can be read gives an upper-case location and time, and names its category exactly when it has one colon |
| Alerts.Step | fire_notifier.py:152-170 | finishing a card fails (line 161) exactly when neither the card nor an earlier card gave a category; otherwise the record keeps the card's location and time and the carried category is stripped and upper-cased |
| Alerts.NamesTypeByCount | fire_notifier.py:149-152 | a card names its category exactly when its cleaned first paragraph has one colon |
| Alerts.LocationFails | fire_notifier.py:152-153 | reading the location fails exactly when there is one colon and no '!' before it |
| Alerts.TimeFails | fire_notifier.py:156-157 | reading the time fails exactly when the second paragraph has no "As of " |
| Alerts.LocationSpec | fire_notifier.py:147-166 | with one colon, the location is the text between the first '!' and the next '!' or the colon; otherwise it is the text before the first colon; either way stripped, without "FIRE ALERT!" and upper-cased |
| Alerts.NamedTypeSpec | fire_notifier.py:149-154 | a named category is all the text after the single colon, holding no colon |
| Alerts.TimeSpec | fire_notifier.py:156-168 | the time is the text between the first "As of " and the next one or the end, stripped and upper-cased |
| Alerts.TimeOneLine | fire_notifier.py:156-162 | a stored time has no newline |
| Alerts.ExtractAll | fire_notifier.py:145-172 | a loop that completes gives one record per card, and every card was read |
| Alerts.ExtractAllFields | fire_notifier.py:146-170 | record k holds the location and time card k was read with, and card k's own category when it names one |
| Alerts.ExtractAllFirstNeedsType | fire_notifier.py:152-161 | with no category carried in, the loop completes only if the first card names one |
| Alerts.ExtractAllReusesType | fire_notifier.py:152-161 | a later card that names no category gets the category of the record before it |
| Alerts.ExtractAllOk | fire_notifier.py:146-172 | the loop completes when every card was read and, with no category carried in, the first card names one |
| Alerts.ReadAll | fire_notifier.py:146 | the page gives one reading per card |
| Alerts.FireAlerts | fire_notifier.py:136-172 | `get_fire_alerts`: a raised request is an error, a not-ok status gives no alert, and a page gives its cards read in order with the category carried, or the first error a card raises |
| Alerts.FireAlertsOk | fire_notifier.py:146-172 | a page is read exactly when every card's location and time can be read and its first card names a category |
| Alerts.FireAlertsRecords | fire_notifier.py:136-172 | a page gives record k from card k: its location and time, and its own category when it names one |
| Alerts.FireAlertsOneLine | fire_notifier.py:136-172 | no time that `get_fire_alerts` gives contains a newline |
| Alerts.FireAlertsFirstType | fire_notifier.py:146-161 | a page is read only if its first card names a category |
| Alerts.FireAlertsReuseType | fire_notifier.py:146-161 | on a page, a card that names no category repeats the category of the previous record |
| Alerts.FireAlertsAllOrNothing | fire_notifier.py:146-172 | one card whose location or time cannot be read makes the whole page fail |
| Alerts.GetFireAlerts | fire_notifier.py:136-172 | the loop, with `alert_type` carried across cards, computes `FireAlerts` |
| Classify.IsDangerous | fire_notifier.py:53-69 | `alert_type in WARN_ALARMS`: exact membership in the 15-entry table, in source order |
| Classify.NotDangerous | fire_notifier.py:32-69 | the four categories left out of the table, and "SECOND ALARM" spelled out, are not dangerous |
| Classify.WarnAlarmsUpper | fire_notifier.py:53-69 | every entry of the table is upper case |
| Classify.DangerousUpToCase | fire_notifier.py:203 | a category equal to an entry up to case is dangerous once upper-cased |
| Classify.MatchesSearchTerm | fire_notifier.py:199 | the alert passes the search filter when no term is set or the lower-cased term occurs in the lower-cased location |
| Classify.LiteralMatches | fire_notifier.py:199 | a term that occurs verbatim in the location matches |
| Classify.SearchIgnoresCase | fire_notifier.py:199 | upper-casing the location or the term does not change whether they match |
| Classify.CommaIsLiteral | fire_notifier.py:199 | a term with a comma does not match a location without one |
| Service.InStore | fire_notifier.py:99-110 | an alert counts as sent when the file exists and some stored alert has the same time; location and category are not compared |
| Service.Added | fire_notifier.py:113-125 | after adding, the file exists, lists the old alerts followed by the new one, and counts the new one as stored |
| Service.AddedKeepsDistinct | fire_notifier.py:113-125 | adding an alert whose time is not stored keeps the stored times distinct |
| Service.UnstoredTimeDiffers | fire_notifier.py:106-108 | an alert not counted as stored differs in time from every stored alert |
| Service.AddedKeepsStored | fire_notifier.py:122 | adding never forgets a stored alert |
| Service.Message | fire_notifier.py:213-215 | the notification text: capitalised category, capitalised location and time, separated by newlines |
| Service.MessageLines | fire_notifier.py:213-215 | the notification splits into exactly three lines: the capitalised category, the capitalised location and the time |
| Service.Poll | fire_notifier.py:190-220 | one pass: crash on an error or no alert, otherwise skip on the search term, the category or a stored time, otherwise push and store the alert only when accepted |
| Service.PollSends | fire_notifier.py:190-220 | a pass makes the push request exactly when the first alert matches the term, is dangerous and has a new time; the request carries that alert and its message; it is sent exactly when also accepted; a refused request leaves the file unchanged |
| Service.PollStore | fire_notifier.py:207-220 | the file changes only when a notification is accepted, and then only by appending that alert |
| Service.PollCrashes | fire_notifier.py:136-191 | a pass ends the program exactly when `get_fire_alerts` raised or gave no alert, which includes a not-ok page |
| Service.PollMessage | fire_notifier.py:196-215 | a sent notification has three lines, the time on the last |
| Service.SentOnce | fire_notifier.py:207-218 | after a notification is sent, the same page does not send it again |
| Service.PollKeepsDistinct | fire_notifier.py:207-218 | a pass keeps the stored times distinct |
| Service.Run | fire_notifier.py:188-220 | a run has at most one outcome per pass |
| Service.RunStopsAtCrash | fire_notifier.py:188-191 | only the last pass of a run can end the program, and a run cut short ended that way |
| Service.RunStoreGrows | fire_notifier.py:188-220 | the file only grows: what it listed before a run it lists in the same order afterwards |
| Service.RunKeepsDistinct | fire_notifier.py:188-220 | a run keeps the stored times distinct |
| Service.RunSendsOnlyNew | fire_notifier.py:207-218 | every alert sent in a run has a time that was not stored when the run began |
| Service.RunNeverResends | fire_notifier.py:188-220 | any two alerts sent in a run have different times |
| Service.FireNotifier.CheckFireAlertInDb | fire_notifier.py:99-110 | the scan with early return finds a stored alert with the same time exactly when one exists |
| Service.FireNotifier.AddFireAlertToDb | fire_notifier.py:113-125 | the file becomes `Added` of the old file: created with the alert alone, or with the alert appended |
| Service.FireNotifier.PollOnce | fire_notifier.py:189-220 | one pass gives the outcome and the new file that `Poll` prescribes |
| Service.FireNotifier.Serve | fire_notifier.py:188-220 | the loop over the passes gives the outcomes and the final file that `Run` prescribes |

## Left out

- Network I/O (`requests.get`, `requests.post`): the answers are parameters.
  The page is a `Fetch`, and a notification is accepted or not. An exception
  raised by `requests.post` is not modelled. The Pushover form fields
  (token, user, sound, priority, retry, expire, ttl) are not modelled either.
- HTML parsing with BeautifulSoup. A card is given as the text of its first
  two paragraphs. The `IndexError` raised by a card with fewer than two `<p>`
  elements is not modelled.
- File I/O and JSON encoding of the alert file. The file is a value, `None`
  while it does not exist. A file that cannot be read or decoded is not
  modelled.
- Logging, the `.env` configuration, the creation of the `db` directory and
  the start-up assertions on the Pushover credentials.
- `time.sleep(DELAY)` and the endless `while True`. `Serve` runs a finite
  list of passes, and the lemmas about `Run` hold for every such list.
- Text is ASCII. Python's Unicode case mapping, `isspace` and `capitalize`
  beyond ASCII are not modelled.
- Alerts.CleanText: it is defined by deleting single characters rather than with the general `replace`. `CleanTextIsReplace` proves the two agree.
