# PyPodGen feed builder, modelled in Dafny

`pd.py` turns a directory of audio files into a podcast RSS document. It works in three steps:

1. It keeps the directory entries whose suffix is one of `.mp3`, `.m4a`, `.ogg` or `.aac`.
2. It reads each file's tags and skips the file when album, title, album artist, artist or track number is missing.
3. It fills three string templates: a channel header taken from the first file it adds, one `<item>` per added file, and a closer.

Each item's publish date is made up from the track number: 2009-01-01 10:10:10 plus that many days and that many hours. Its duration is printed as the clock time that many seconds after `datetime.min`.

The model has one module per part of `pd.py`:

- `Config`: the extensions, the MIME table, the base URL, the artwork name and `fakeDate`.
- `FeedDir`: the extension filter.
- `Tag`: the skip rule.
- `FeedGen`: the three templates.
- `Pipeline`: the body of `main`.

It also has three support modules:

- `Text`: `rstrip`, `replace`, `str(int)` and zero padding.
- `Calendar`: the part of `datetime` the program uses, meaning proleptic Gregorian dates, adding seconds with overflow past the year 9999, and `strftime`.
- `Wrappers`: `Option` and `Result`.

The templates, the filter and the skip rule are pure functions. `main` is the method `Pipeline.GenerateFeed`, a loop over the files with the loop variables `perTrack`, `count` and `feedOut`.

Inputs and outputs of `GenerateFeed`:

- **Input:** the directory listing. Each entry has a name, a size and what the tag reader made of the file: it raised, or it returned the tags.
- **Output:** either the document, or the reason the program stops without writing one. The reasons are:
  - no audio files;
  - no complete track;
  - a file whose tags could not be read;
  - a track that `perTrack` could not render because of a missing duration or a date past the year 9999.

How the loop is proved:

- The loop is specified by `Pipeline.Run`, a fold of one step per file over the file list.
- `Pipeline.RunMeaning` proves that fold equal to a description read from the front (`Pipeline.Expected`):
  - the first failing file decides the outcome;
  - otherwise, when no file is added, the program stops with "no valid tracks";
  - otherwise the document is the header of the first added file, then the items of all added files in listing order, then the closer.

The model follows `pd.py`'s code in these details:

- **Skip rule, trimming.** A field counts as present when `str(x).rstrip().replace("None", "")` is not empty. Only trailing whitespace is removed, so `" None"` is present.
- **Skip rule, "None".** Every copy of `None` is deleted, so `"NoneNone"` is missing. Text brought together by a deletion is not searched again, so `"NoNonee"` is present (`Tag.DeletionNotRescanned`).
- **No escaping.** Values go into the templates verbatim, without XML escaping.
- **Header spaces.** The header template's trailing spaces are removed by `rstrip(" ")`.
- **Missing values.** `TextOf` writes a missing value as `None`, as `str()` does. The skip rule then treats that text as missing (`Tag.PresentText`), so a `None` never reaches the document (`Pipeline.AddedItem`).

## Model

| member | source | states |
|---|---|---|
| Text.RStrip | pd.py:81 | the result is a prefix of the input, every dropped character is whitespace, and the last kept character is not |
| Text.RStripUnique | pd.py:111 | any prefix with those three properties is the result of `rstrip`, so the result is unique |
| Text.DeleteAll | pd.py:81 | `replace(pat, "")` never lengthens the text, and it leaves nothing exactly when the text is copies of `pat` back to back |
| Text.DeleteAllAbsent | pd.py:81 | a text in which `pat` starts nowhere is left unchanged |
| Text.NatToString | pd.py:132-134 | `str(n)` is a non-empty string of decimal digits whose value is `n`, with no leading zero except for 0 |
| Text.Fixed | pd.py:54 | `%04d`-style padding gives exactly `w` digits whose value is `n` |
| Text.Pad2 | pd.py:54 | `%d`, `%H`, `%M` and `%S` give two digits whose value is `n` |
| Calendar.InstantOrder | pd.py:51-53 | comparing two datetimes by seconds since `datetime.min` is the same as comparing their fields from year down to second |
| Calendar.InstantInjective | pd.py:51-53 | two valid datetimes at the same instant are the same datetime |
| Calendar.InstantBelowLimit | pd.py:53 | a valid datetime is at most `datetime.max` exactly when its instant is below `Limit` |
| Calendar.MonthDay | pd.py:53 | the day of the year is split into a valid month and day |
| Calendar.YearMonthDay | pd.py:53 | counting days from the first of January gives a valid date whose ordinal is the expected one |
| Calendar.Advance | pd.py:53 | adding seconds without an upper bound gives a valid datetime no earlier in years |
| Calendar.AdvanceInstant | pd.py:53 | `Advance` moves the instant by exactly the seconds added |
| Calendar.AddSeconds | pd.py:53 | `datetime + timedelta` succeeds exactly when the result is below `Limit`, and then it is in range and exactly `delta` seconds later |
| Calendar.MinInstant | pd.py:116 | `datetime.min` is in range and is instant 0 |
| Calendar.TimeOfDay | pd.py:135 | a datetime's time of day is its instant modulo one day, split into hours, minutes and seconds |
| Calendar.ClockFields | pd.py:135 | hours modulo 24, minutes and seconds of a count of seconds are those of its time of day |
| Calendar.Weekday | pd.py:54 | the weekday lies in 0..6; the body is `(toordinal() + 6) % 7`, Monday being 0, and the Thursday, Friday and Wednesday examples of `Config` pin it down |
| Calendar.DayName | pd.py:54 | English day abbreviations are three letters long |
| Calendar.MonthName | pd.py:54 | English month abbreviations are three letters long |
| Calendar.MonthNumberOfName | pd.py:54 | each month abbreviation reads back as its month number |
| Calendar.HourMinuteSecond | pd.py:135 | `%H:%M:%S` is eight characters with colons at positions 2 and 5 |
| Calendar.HourMinuteSecondReadsBack | pd.py:135 | the three numbers read back from `%H:%M:%S` are the ones written |
| Calendar.Clock | pd.py:135 | `strftime("%H:%M:%S")` has the same fixed shape |
| Calendar.ClockReadsBack | pd.py:135 | the hour, minute and second read back from it are the datetime's |
| Calendar.Stamp | pd.py:54 | `strftime("%a, %d %b %Y %H:%M:%S GMT")` is 29 characters long |
| Calendar.StampReadsBack | pd.py:54 | the stamp starts with the day name, and the datetime reads back from it |
| Config.ExtsHaveAudioType | pd.py:38-41 | every recognised extension has a MIME type, and no extension is listed twice |
| Config.BaseInstant | pd.py:51 | 2009-01-01 10:10:10 is 63366401410 seconds after `datetime.min` |
| Config.FakeMoment | pd.py:50-53 | the base plus `i` days and `i` hours exists exactly when `i <= 2801905`; it is then in range, in 2009 or later, and `i * 90000` seconds after the base |
| Config.FakeDate | pd.py:50-54 | `fakeDate(i)` gives a 29-character text exactly when the sum does not overflow; the text starts with the `%a` name of that moment's weekday, and the moment reads back from the rest |
| Config.FakeDateZero | pd.py:50-54 | `fakeDate(0)` is "Thu, 01 Jan 2009 10:10:10 GMT" |
| Config.FakeDateOne | pd.py:50-54 | `fakeDate(1)` is "Fri, 02 Jan 2009 11:10:10 GMT" |
| Config.FakeMomentLeapDay | pd.py:50-53 | episode 1108 falls on Wednesday 2012-02-29 at 14:10:10, across three year ends and a leap day |
| Config.FakeDateIncreasing | pd.py:50-53 | a larger episode number is published strictly later |
| Tag.PresentText | pd.py:81 | `Tag.TextOf`, which is `str(x)` of an optional text (a missing value becomes "None"), passes the presence test exactly when the field is not missing, meaning it has a value that is not just copies of "None" plus trailing whitespace |
| Tag.Present | pd.py:81 | `bool(str(x).rstrip().replace("None", ""))` is false exactly when the stripped text is nothing but copies of "None" |
| Tag.PresentNumber | pd.py:77-81 | `Tag.NumberText`, which is `str(x)` of an optional track number ("None" when absent, its decimal digits otherwise), passes the presence test exactly when the number exists |
| Tag.Skip | pd.py:77-84 | a file is skipped exactly when album, title, album artist or artist is missing, or the track number is absent |
| Tag.NoneCopiesAbsent | pd.py:81 | "None", "NoneNone" and "None" followed by whitespace count as missing |
| Tag.BlankAbsent | pd.py:81 | empty and blank texts count as missing |
| Tag.LeadingSpaceKept | pd.py:81 | " None" counts as present, because only trailing whitespace is stripped |
| Tag.DeletionNotRescanned | pd.py:81 | "NoNonee" becomes "Noe" and counts as present |
| Tag.SkipIgnoresDuration | pd.py:77-84 | changing the duration never changes whether a file is skipped |
| FeedDir.RFind | pd.py:68 | the last index holding the character, or -1 when there is none |
| FeedDir.Suffix | pd.py:68 | `PurePath.suffix` is empty exactly when the name is empty, ends with a dot, or has no dot after its first character; otherwise it is the name's ending from its last dot, at least two characters long, with no other dot, and shorter than the name |
| FeedDir.SuffixIsExt | pd.py:68 | a recognised extension is a name's suffix exactly when the name ends with it and has something in front of it |
| FeedDir.Matches | pd.py:67-68 | the inner `for ext` loop keeps copies of the entry only, and keeps some exactly when the entry's suffix is one of the extensions |
| FeedDir.Files | pd.py:67-68 | every file the comprehension yields comes from the listing and has a recognised extension as its suffix |
| FeedDir.MatchesExts | pd.py:67-68 | the inner loop over extensions keeps an entry once if its suffix is recognised, and otherwise not at all |
| FeedDir.MatchesOnce | pd.py:67-68 | the inner loop keeps an entry exactly once when it is an audio file, and otherwise drops it |
| FeedDir.FilesAreAudio | pd.py:67-68 | the comprehension yields exactly the audio files of the listing, each once, in listing order |
| FeedDir.FilesHaveAudioType | pd.py:67-68 | every file kept has a suffix that the MIME table knows, so the lookup at line 163 cannot fail |
| FeedDir.KeptAreAudio | pd.py:67-68 | every kept entry comes from the listing and is an audio file |
| FeedDir.KeepAudioEmpty | pd.py:67-68 | nothing is kept exactly when no entry of the listing is an audio file |
| FeedDir.FilesDistinct | pd.py:67-68 | a listing without repeated names gives a file list without repeated names |
| FeedGen.Header | pd.py:96-111 | the header is the template lines joined; `rstrip(" ")` removes the template's final eight spaces and nothing else |
| FeedGen.HeaderFields | pd.py:96-111 | the header starts with the XML declaration, ends with a line break, and contains the title element, the author element and the artwork link, verbatim |
| FeedGen.ItemText | pd.py:119-136 | an item is never empty |
| FeedGen.ItemFields | pd.py:119-136 | the item contains the title twice, the enclosure's url, type and length attributes, the quoted link as guid, the author, the duration, the episode number and the publish date, each verbatim |
| FeedGen.CloserText | pd.py:89-93 | `FeedGen.closer` is a line break, `</channel>` indented by four spaces, `</rss>`, an empty line and four spaces |
| FeedGen.DurationText | pd.py:116-118 | a duration renders exactly when it is below `Limit`; it is then eight characters that read back as hours modulo 24, minutes and seconds |
| FeedGen.ClockAfter | pd.py:116-118 | `(start + timedelta(seconds=s)).strftime("%H:%M:%S")` gives a text exactly when the sum does not overflow, and it reads back as the sum's hour, minute and second |
| FeedGen.DurationTextIsDatetime | pd.py:116-118 | `FeedGen.DatetimeDuration`, the clock time `s` seconds after `datetime.min` as `pd.py` computes it, equals that direct computation for every `s` |
| FeedGen.ClockAfterZero | pd.py:116-118 | counting `s` seconds from any instant-zero datetime gives the same text |
| FeedGen.Elapsed | pd.py:116-118 | `s` seconds after instant zero is representable exactly when `s` is below `Limit`, and it then shows `s` as hours modulo 24, minutes and seconds |
| FeedGen.ElapsedInstant | pd.py:116-118 | `s` seconds after instant zero is instant `s` |
| FeedGen.DurationClock | pd.py:135 | a datetime at instant `s` shows `s` as hours modulo 24, minutes and seconds |
| FeedGen.DurationExample | pd.py:135 | 3725 seconds render as "01:02:05" |
| FeedGen.DurationDayDropped | pd.py:116-118 | 90000 seconds render as "01:00:00", because the day is dropped |
| FeedGen.PerTrack | pd.py:115-136 | a missing duration, a duration past `datetime.max` and a date past the year 9999 each raise their own error; otherwise an item is rendered, and it is non-empty |
| FeedGen.PerTrackFields | pd.py:115-136 | a rendered item links the file at url plus file name, repeats the link in quotes as guid, shows the duration as `HH:MM:SS`, and takes episode and publish date from the same track number |
| Pipeline.StepOf | pd.py:152-166 | a file is skipped exactly when its tags were read and the skip rule holds; an added file had readable tags and gives a non-empty item; a failure is an unreadable file or a render error |
| Pipeline.FeedUrl | pd.py:149 | the feed's URL is the base URL, then the directory name, then a slash |
| Pipeline.FoldNext | pd.py:151-171 | the loop over one more file is one more turn |
| Pipeline.Next | pd.py:152-171 | one turn stops exactly when its file failed; otherwise it only appends to `perTrack`, counts exactly the added file, and leaves the header alone once one is set |
| Pipeline.Fold | pd.py:151-171 | a loop that did not stop has seen no failing file and has counted at most one per file |
| Pipeline.FoldHalted | pd.py:152-166 | once a file has raised, later files change nothing |
| Pipeline.Turn | pd.py:152-171 | one loop turn updates `perTrack`, `count` and `feedOut` exactly as the step for the file says, or stops with its reason |
| Pipeline.AddFile | pd.py:157-171 | a complete file's item is appended, the file is counted, and the header is set only when the count becomes 1 |
| Pipeline.GenerateFeed | pd.py:143-179 | `main`'s result is `Run` of the listing |
| Pipeline.Run | pd.py:143-179 | a written document needs at least one audio file and ends with the closer, after something non-empty |
| Pipeline.FoldMeaning | pd.py:147-171 | after any number of files the loop holds the first failure, or else the joined items of the added files, how many there are, and the header of the first of them |
| Pipeline.ItemsJoinEmpty | pd.py:175 | non-empty items join to nothing exactly when there are none |
| Pipeline.RunMeaning | pd.py:143-179 | the result is, in this order: no audio files; the first failing file's reason; no valid tracks when nothing was added; otherwise the first added file's header, then all items in listing order, then the closer |
| Pipeline.RunNoAudio | pd.py:143-145 | the program stops for want of audio files exactly when no listing entry is an audio file |
| Pipeline.FoldFailed | pd.py:152-166 | a stopped loop stopped with the reason of one of its files |
| Pipeline.FoldCount | pd.py:166-175 | `perTrack` is empty exactly when `count` is 0 |
| Pipeline.FirstHeaderIsFirst | pd.py:168-171 | the header is the one offered by the first added file |
| Pipeline.HeaderKept | pd.py:168-171 | once a file has been added, later files never change the header |
| Pipeline.AddedItem | pd.py:157-171 | an added file had complete tags; its item links `url` plus the file name, uses that link quoted as guid, and takes duration, episode and publish date from its own tags; its header names its album and album artist |

## Left out

- Argument parsing and the directory check (pd.py:17-33) are not modelled. The directory's name is an input.
- The directory listing is an input, in the order `iterdir` returns it. Resolving the path and the output path (pd.py:61-65) are not modelled.
- File sizes are inputs, standing for `stat().st_size`.
- The tag reader is not modelled. Each file comes with its outcome: the reader raised, or it returned album, title, album artist, artist, track and duration.
- The track number is a non-negative integer. A tag reader that returns it as text (such as "3/12") is not modelled.
- The duration is a whole number of seconds, already truncated as `int(duration)` does. Floating-point durations are not modelled.
- Floating point in `fakeDate`: `timedelta(days=float(i), hours=float(i))` is computed with exact integers, so precision loss for huge `i` is not modelled. Those `i` overflow in any case.
- The console messages and the final count message are not modelled. `sys.exit()` becomes the `Halted` outcome, with its reason.
- Writing `feed.xml` (pd.py:183-184) is not modelled: `GenerateFeed` returns the document.
- Exceptions other than the modelled ones are not modelled. These include an `OSError` from `stat` or from opening the output file.
- `rstrip()` with no argument strips all Unicode whitespace; the model strips only the ASCII characters that `str.isspace` accepts.
- `%a` and `%b` use the English names of the C locale. Other locales are not modelled.
- Pipeline.StepOf: the header is computed for every added file. `pd.py` computes it only for the first one, but it is a pure function of that file's tags, so the document is the same. `GenerateFeed` still computes it only when `count` becomes 1.
- FeedGen.DurationText: the duration is computed by formula. `FeedGen.DurationTextIsDatetime` proves it equal to the `datetime.min + timedelta` computation, which `FeedGen.DatetimeDuration` keeps.
