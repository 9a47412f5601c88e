# HoopsFactory downloader — a Dafny model of its core

The HoopsFactory downloader logs in to the HoopsFactory website with a
headless browser. It filters the video page to last Wednesday's court
session, keeps the recordings that start between 12:00 and 13:30, and
downloads each one into a folder named after that Wednesday (`YYYYMMDD`).
This project models the decisions it makes along the way and proves what
they guarantee:

- `Wednesday` (`wednesday.dfy`): `get_previous_wednesday`. Which day is "the
  previous Wednesday" of a given day, and how that date is rendered as the
  folder name.
- `FileNames` (`filenames.dfy`): how a video title becomes a file name (the
  two regular-expression substitutions, the strip and the `.mp4` suffix).
- `VideoList` (`video_list.dfy`): `get_video_links`. The card-scraping
  script run in the page, which returns records with the card's position as
  `index`, then the time-of-day filter.
- `Download` (`download.dfy`): `download_video`'s fallback chain. It tries a
  direct HTTP fetch, then a browser download, then a scripted click. The
  per-video loop of `download_videos` is modelled here too.
- `RunLoop` (`run_loop.dfy`): `download_videos`'s retry loop. There are at
  most three attempts, and each opens a browser and closes it in `finally`.
  The browser is made visible for the last attempt.
- `Text` (`text.dfy`) and `Wrappers` (`wrappers.dfy`): decimal digits,
  character filtering and trimming shared by the above, and `Option`.

The model has no I/O. The current day, the page's cards, and whether each
network or browser step would succeed are all inputs. The model decides what
the program does with them: which videos it lists, which strategies it tries
with which arguments, how many attempts it makes, which browser calls it
makes, and what it returns.

## Model

| member | source | states |
|---|---|---|
| Wednesday.Weekday | main.py:125 | `date.weekday()` of a day ordinal is one of seven values, Monday being 0 |
| Wednesday.DaysBack | main.py:125-132 | the offset is between 1 and 7, is 7 exactly when today is a Wednesday, and always lands on a Wednesday |
| Wednesday.PreviousWednesday | main.py:117-134 | the result is a Wednesday strictly before today and at most a week back; it is a full week back iff today is a Wednesday; no Wednesday lies between it and today |
| Wednesday.SameWeekSameAnswer | main.py:124-132 | on any day that is not a Wednesday, the next day gives the same previous Wednesday |
| Wednesday.ChangesOnThursday | main.py:124-132 | on a Wednesday the answer is a week back, and on the Thursday after it is that Wednesday: with the row above, the folder changes once a week, on Thursdays |
| Text.Digits | main.py:134 | a zero-padded field has exactly the requested width and only decimal digits |
| Wednesday.DateStamp | main.py:134 | `strftime("%Y%m%d")` of a four-digit-year date is eight decimal digits |
| Wednesday.StampRoundTrip | main.py:134 | reading the stamp back gives the original year, month and day |
| Wednesday.StampInjective | main.py:134 | different dates give different folder names |
| Text.Filter | main.py:386 | deleting the characters outside a class never lengthens the text and leaves only characters of the class |
| Text.Trim | main.py:386 | stripping never lengthens the text and leaves no whitespace at either end |
| Text.TrimKeepsClass | main.py:386 | stripping keeps every remaining character of the input's class |
| FileNames.Collapse | main.py:387 | replacing runs of `-` and whitespace by `_` never lengthens the text and leaves no separator |
| FileNames.CollapseWordChars | main.py:386-387 | text made only of `[\w\s-]` collapses to word characters only |
| FileNames.CollapseCons | main.py:387 | a character that is not a separator is copied |
| FileNames.CollapseLeadingRun | main.py:387 | a leading run of separators becomes one `_` |
| FileNames.CollapseAppend | main.py:387 | the substitution is local: text cut after a non-separator collapses piece by piece |
| FileNames.CollapseJoin | main.py:387 | `x + (sep + y)` collapses to `Collapse(x) + "_" + Collapse(y)`: each maximal run of `-` and whitespace becomes exactly one `_` between the collapsed text on either side |
| FileNames.CollapseJoinWords | main.py:387 | two separator-free words around a run of separators are joined by a single `_` |
| FileNames.CollapseKeepsAlnums | main.py:387 | the substitution keeps every letter and digit, in order, and adds none |
| FileNames.CollapseWithoutSeparators | main.py:387 | text without `-` or whitespace is left unchanged |
| FileNames.Stem | main.py:386-387 | the sanitised title is no longer than the title and is made of word characters only |
| FileNames.FileName | main.py:388 | the file name is the sanitised title followed by `.mp4`, with only word characters before the suffix |
| FileNames.StemKeepsAlnums | main.py:386-387 | sanitising keeps exactly the title's letters and digits, in order |
| FileNames.StemOfWordString | main.py:386-387 | a title of word characters only is its own sanitised form |
| FileNames.StemIdempotent | main.py:386-387 | sanitising a sanitised title changes nothing |
| VideoList.Throws | main.py:315-320 | the script throws only on a card with both a download link and a title (its href is missing, so `split` fails) |
| VideoList.Yields | main.py:315-326 | a card yields a record iff it has a link and a title, does not throw, and has a non-empty `path` value or video src |
| VideoList.RecordOf | main.py:316-333 | the record holds the card's position, its href, its `path` value and video src, and its title without surrounding whitespace; it always has a direct URL candidate |
| VideoList.Extracted | main.py:310-335 | the script returns at most one record per card |
| VideoList.ExtractedRecords | main.py:310-335 | a card gives a record iff it has a download link with an href, a title, and a non-empty `path` or video src; each record is built from the card at its `index`, with the trimmed title; indices strictly increase; every such card is represented |
| VideoList.ExtractCards | main.py:306-339 | the script fails iff some card with link and title has no href; otherwise it returns the records above |
| VideoList.MatchAt | main.py:347 | a match of `(\d{1,2})h(\d{2})` starts with a digit and has hour and minute below 100 |
| VideoList.MatchAtReads | main.py:347-350 | the matched text is the hour in two digits (or one, for an hour below 10), `h`, and the minute in two digits |
| VideoList.MatchAtClock | main.py:347-350 | `HHhMM` at a position is matched there and read as that hour and minute |
| VideoList.MatchAtShortClock | main.py:347-350 | `HhMM` with a one-digit hour is matched and read as that hour and minute, the two-digit reading having failed on the `h` |
| VideoList.FindClock | main.py:347 | `re.search` finds a matching position, and no position before it matches; without a match, no position matches |
| VideoList.TimeValueMeaning | main.py:347-351 | `TimeValue` (the time read from a title) is absent iff the pattern matches nowhere; otherwise it is `hour * 100 + minute` of the leftmost match |
| VideoList.InTimeWindowMeaning | main.py:348-362 | `InTimeWindow`, the filter's keep decision: a title is kept iff the pattern matches nowhere in it or its leftmost match reads a time from 12:00 to 13:30 |
| VideoList.Filtered | main.py:342-365 | the filter never lengthens the list, and every kept title has no time or a time in 12:00-13:30 |
| VideoList.FilterByTime | main.py:342-365 | the filter loop returns exactly the filtered list |
| VideoList.ListVideos | main.py:292-372 | `get_video_links` returns `[]` when the script fails, and the time-filtered records otherwise |
| VideoList.FilteredIsSubsequence | main.py:342-365 | the filtered list is an order-preserving subsequence of the input |
| VideoList.FilteredMembers | main.py:342-365 | a record is kept iff it is in the input and its title passes |
| VideoList.FilteredIdempotent | main.py:342-365 | filtering twice is the same as filtering once |
| VideoList.FilteredKeepsIndexOrder | main.py:342-365 | filtering keeps the card indices strictly increasing |
| VideoList.ListedVideosAreDownloadable | main.py:310-365 | every listed video comes from a distinct card, in page order, passes the filter and has a direct URL candidate |
| VideoList.LeadingClock | main.py:347-351 | a title opening with `HHhMM` is judged by that time |
| VideoList.WindowBoundaries | main.py:352-358 | 12h00 and 13h30 are kept; 11h59 and 13h31 are dropped |
| VideoList.NoClockKept | main.py:359-362 | a title in which the pattern matches nowhere is kept |
| VideoList.DatedTitle | main.py:345-351 | in a title of the site's form `DD/MM/YYYY HHhMM` the date never matches and the time is read from `HHhMM` |
| VideoList.DatedTitles | main.py:345-358 | "14/06/2025 12h00" is kept and "14/06/2025 11h00" is dropped |
| VideoList.MiddleThreeSurvive | main.py:310-365 | of five listable cards, only the three whose titles are in the window are returned, in page order |
| VideoList.FiveCardScenario | main.py:310-365 | cards titled 11h00, 12h00, 12h45, 13h15 and 14h00 give the records of the 12h00, 12h45 and 13h15 cards |
| Download.DirectSource | main.py:400-402 | a direct URL is used iff `directUrl` or `videoSrc` is non-empty, preferring `directUrl` |
| Download.TargetPath | main.py:386-397 | the download target lies directly inside the date folder (no `/` in its name), named after the title and ending in `.mp4` |
| Download.DownloadVideo | main.py:374-485 | the result is true iff the folder is created and some applicable strategy works, i.e. iff some attempted strategy succeeded; strategies are tried in the order fetch, browser, click, each only after the previous ones failed, with the right URL, target path and card index; the fetch is tried iff there is a direct URL; the browser download iff the fetch was skipped or failed; the click iff the browser download was also tried and failed |
| Download.CountSucceeded | main.py:543-547 | no more videos succeed than were listed |
| Download.DownloadAll | main.py:543-547 | the loop counts exactly the videos whose download succeeds |
| Download.AllFetchesWork | main.py:400-420 | when every folder can be created and every direct fetch works, every video is downloaded |
| Download.ListedVideosFetchDirectFirst | main.py:326 | every listed video has a direct URL, so its download starts with the direct fetch |
| RunLoop.AttemptsFrom | main.py:497-562 | attempts continue until one completes or the third is made, and none before the last completed |
| RunLoop.AttemptsMade | main.py:497-562 | a run makes between one and three attempts |
| RunLoop.RunSucceeds | main.py:511-562 | the run succeeds iff one of the three possible attempts completes, or none of the first two completes and the third finds no videos |
| RunLoop.HeadlessFor | main.py:499-503 | the first two attempts use the starting mode; the third is visible |
| RunLoop.Downloader.constructor | main.py:47 | the downloader starts with the given headless flag and no browser calls |
| RunLoop.Downloader.SetupBrowser | main.py:53-77 | a browser is launched in the current mode |
| RunLoop.Downloader.CloseBrowser | main.py:106-115 | the browser is closed |
| RunLoop.Downloader.DownloadVideos | main.py:487-564 | the result is true iff the last attempt completed or, being the third, found no videos; the browser calls are one launch and one close per attempt; the headless flag is switched off iff the third attempt was made from a headless start |
| RunLoop.AttemptsMadeIs | main.py:497-562 | the run makes exactly `n` attempts when the first `n - 1` do not complete and the `n`-th completes or is the third |
| RunLoop.SessionsShape | main.py:505-564 | the `k`-th attempt launches a browser in its mode and closes it before the next launch |
| RunLoop.HeadlessSwitch | main.py:499-503 | the mode changes only for the third attempt, and only if the run started headless |
| RunLoop.EarlyStopMeansCompleted | main.py:530-553 | a run that stops before the third attempt stopped because an attempt completed, and it succeeds |
| RunLoop.FailureMeansThreeFailedAttempts | main.py:511-562 | a failed run made three attempts, none completed, and the third failed login, failed filters or raised |
| RunLoop.ThreeFailedLogins | main.py:497-516 | three failed logins from a headless start: three sessions, the last visible, and the run fails |

## Left out

- Browser automation is not modelled: Playwright start-up, `login`, `select_filters`, `wait_for_visible`, page navigation, waits and sleeps. How each attempt ends is an input (`RunLoop.AttemptEnd`), one entry per possible attempt. At least three entries are required because the model does not generate them.
- I/O in the download path is not modelled: `mkdir`, the `requests` fetch and file write, the browser download and the click script. Whether each would succeed is an input (`Download.Outcomes`).
- RunLoop.Downloader.DownloadVideos: the `Completed` outcome does not run `Download.DownloadAll`, and the success count is only logged, so it is not linked to the result. A `setup_browser` that raises still counts as a launch. `close_browser` is assumed not to raise.
- `datetime.now()` is not modelled; today is a day-ordinal parameter. Wednesday.DateStamp renders a given civil date rather than converting the ordinal to a calendar date. It covers four-digit years only, which is where `%Y` gives four digits.
- `URLSearchParams` decoding of the href is not modelled. The `path` value it yields is part of the card input (`VideoList.Anchor`).
- FileNames.Stem: `\w`, `\s` and `str.strip` are modelled on ASCII only. Python's Unicode letters, digits and spaces are all treated as characters to delete.
- VideoList.MatchAt: `\d` is modelled as the ASCII digits only. Python also matches other Unicode decimal digits.
- The filter's `except` branch (main.py:363-365) is not modelled. The only code in the `try` is the regular-expression search and `int()` of ASCII digit groups, which cannot raise in this model.
- Download.DownloadVideo: the click strategy (main.py:450-471) re-opens `/videos` without re-applying the filters, so the card at the recorded position on that page may not be the video's card. The model records only that the click targets the recorded position (`Download.WellAimed`); it does not model which card is there.
- An empty list on the third attempt makes `download_videos` return true. The model keeps this as written (`RunLoop.RunSucceeds`).
- The command-line entry point `main` is not modelled: argument parsing, environment variables, logging, the exit codes, and the duplicated `asyncio.run(main())`.
