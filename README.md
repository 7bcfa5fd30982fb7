# A Dafny model of PublicPythonProjects' small automation scripts

This project models the decision logic of five Python scripts and proves properties about it.

- **The two tray indicators** (`appindicator.py`, `appindicator2.py`). Each watches one process named in a settings file. The icon shows a red arrow while the process is down and a green arrow while it is up, and each newly seen pid is announced. The menu can kill every instance of the process, or exit. The first indicator polls once a second. The second waits for an inotify event on the executable or on a quit file, then re-checks.
- **The discussion creator** (`auto_discussion_for_jekyl_blog_post.py`). It reads credentials from a password-manager entry. It lists the posts of a Jekyll blog and the first 100 discussions of a GitHub category over GraphQL. It then creates one discussion, titled `blog/<slug>/`, for each post that lacks one.
- **The key-phrase tagger** (`add_keyphrases_to_jekyll_blog_post.py`). It opens a markdown post and decides whether to replace its tags. It then stores the extracted key phrases as PascalCase tags.
- **The Mastodon archiver** (`mastodon_archiver.py`). It builds the ordered list of `mastodon-archive` commands for every configured account. The destructive `--confirmed` flag is passed only when asked for.
- **svg2png** (`svg2png.py`). It converts every `.svg` of the current folder to a `.png` of the same name, never overwriting an existing file.

Modules:
- `PyText` (`pytext.dfy`): the Python string and regex behaviour the scripts rely on. This covers `str.replace`, `int()` over ASCII digits, list indexing, `str.isspace`, and the patterns `.md$`, `.svg$` and a plain dotted path searched anywhere. In these patterns `.` matches any character except a newline, and `$` also matches before a final newline.
- `CommandLine` (`getopt.dfy`): Python's `getopt.getopt`.
- `Processes`, `Tray`, `Indicator`, `Indicator2`: the indicators.
- `Discussion`, `Keyphrases`, `Mastodon`, `Svg2Png`: the other four scripts.

State that the scripts change in place is modelled as classes with `modifies` clauses. These are the tray icon (`Indicator.App`, `Indicator2.App2`), the process table (`Processes.ProcessTable`), the loaded post (`Keyphrases.Post`) and the folder (`Svg2Png.Folder`). Each loop becomes a method that is proved equal to a specification function, and the properties are proved about that function.

The outside world becomes inputs:
- the process table seen at each poll;
- the file events that arrive while watching;
- whether Exit was clicked;
- the password manager's output lines;
- the names found in the GraphQL replies;
- the files that exist;
- the accounts of the settings file;
- the directory listing;
- the user's answer to the overwrite prompt.

Effects on the outside world become results:
- the icon and notification calls, in order;
- the processes killed;
- the GraphQL requests sent;
- the shell commands run;
- the files created.

## Model

| member | source | states |
|---|---|---|
| PyText.DropPrefix | auto_discussion_for_jekyl_blog_post/auto_discussion_for_jekyl_blog_post.py:156 | `s[11:]`: empty past the end, else the characters from position 11 on |
| PyText.ReplaceAbsent | auto_discussion_for_jekyl_blog_post/auto_discussion_for_jekyl_blog_post.py:135 | `str.replace` leaves a text without the target unchanged |
| PyText.ReplaceKeepsPrefix | auto_discussion_for_jekyl_blog_post/auto_discussion_for_jekyl_blog_post.py:135 | a prefix that cannot start an occurrence is kept and the replacement goes on in the rest |
| PyText.ReplaceAtStart | auto_discussion_for_jekyl_blog_post/auto_discussion_for_jekyl_blog_post.py:135 | an occurrence at the start is replaced and scanning resumes after it |
| PyText.StripStartSpec | appindicator/appindicator.py:203 | the whitespace `int()` skips at the front: it removes the leading whitespace and nothing else |
| PyText.StripEndSpec | appindicator/appindicator.py:203 | the same for the trailing whitespace |
| PyText.ParseIntOfIntToString | appindicator/appindicator.py:203 | `int(str(k)) == k` for every integer |
| PyText.ParseIntNeedsDigit | appindicator/appindicator.py:203 | a text without an ASCII digit makes `int()` raise |
| PyText.PyIndex | appindicator/appindicator.py:215 | list indexing succeeds exactly for `-n <= k < n`, and negative indices count from the end |
| PyText.DotSearchFrom | appindicator/appindicator2.py:88 | the position-by-position search finds a match exactly when one exists |
| PyText.DotSearchSelf | appindicator/appindicator2.py:88 | a newline-free text read as a pattern matches wherever it occurs literally |
| PyText.DotSuffixEnd | add_keyphrases_to_jekyll_blog_post/add_keyphrases_to_jekyll_blog_post.py:115 | `re.search('.'+lit+'$')`: the leftmost match end if there is a match, else that no position matches |
| PyText.DotSuffixSub | svg2png/svg2png.py:74 | `re.sub('.'+lit+'$', repl, s)`: without a match `s` is unchanged; otherwise every match overlaps the leftmost, so there is exactly one replacement, and `s` splits into a head, a non-newline character, `lit` and a tail that is empty or one newline, with the result the head, `repl` and the tail |
| PyText.UpToNewline | appindicator/appindicator.py:117 | the `(.*)` group: the longest newline-free prefix |
| PyText.UpToNewlineOfLine | appindicator/appindicator.py:117 | a text without a newline is captured whole |
| CommandLine.ShortHasArg | appindicator/appindicator.py:189 | a letter is known exactly when `shortopts` declares it |
| CommandLine.LongHasArgs | appindicator/appindicator.py:189 | a long option resolves to a declared name it prefixes; an exact name wins over a longer one, and `name=` takes an argument |
| CommandLine.DoLongs | appindicator/appindicator.py:189 | a parsed long option is a declared one and consumes at most the remaining arguments |
| CommandLine.DoShorts | appindicator/appindicator.py:189 | each parsed short option is a declared letter |
| CommandLine.GetOptDeclared | appindicator/appindicator.py:189-192 | getopt returns only declared options |
| CommandLine.GetOptFreeArgsSuffix | appindicator/appindicator.py:189 | the free arguments are a suffix of the input |
| CommandLine.GetOptEmpty | mastodon_archiver/mastodon_archiver.py:75-79 | no arguments give no options and no error |
| CommandLine.GetOptShortWithArg | add_keyphrases_to_jekyll_blog_post/add_keyphrases_to_jekyll_blog_post.py:97 | `-i value` gives exactly the pair `("-i", value)` |
| Processes.Matching | appindicator/appindicator.py:81-89 | the scan keeps exactly the processes named `process`, or `process.exe` where that is accepted |
| Processes.MatchPositions | appindicator/appindicator.py:81-89 | the matching positions, strictly increasing, are exactly the accepted entries |
| Processes.MatchingInOrder | appindicator/appindicator.py:81-89 | the kept processes are the table entries at those positions: enumeration order, each once |
| Processes.Find | appindicator/appindicator.py:90-93 | None exactly when nothing matches; otherwise the non-empty list of matches |
| Processes.FindProcs | appindicator/appindicator.py:79-93 | the loop behind the `found` flag returns `Find`, so only matching processes of the table |
| Processes.Without | appindicator/appindicator.py:171 | a kill removes exactly the processes with that pid |
| Processes.WithoutAll | appindicator/appindicator.py:168-172 | a pass removes exactly the processes whose pid it killed |
| Processes.PassClearsMatches | appindicator/appindicator.py:167-174 | after a pass kills every match, a rescan of that table finds nothing |
| Processes.KillPassesNoMatch | appindicator/appindicator.py:163-164 | with no match nothing is killed and the table is unchanged |
| Processes.KillPassesClears | appindicator/appindicator.py:167-174 | the loop ends only when a rescan finds no match |
| Processes.KillPassesFirstPass | appindicator/appindicator.py:166-172 | the pids of the first scan are the first killed, in scan order |
| Processes.KillPassesNoRespawn | appindicator/appindicator.py:166-174 | with no new processes, exactly the first scan's pids are killed, in one pass |
| Processes.KillPassesSpares | appindicator/appindicator.py:167-174 | a process whose pid was never killed survives |
| Processes.ProcessTable.Kill | appindicator/appindicator.py:171 | the table loses exactly the processes with that pid |
| Processes.KillPass | appindicator/appindicator.py:168-173 | one pass kills every scanned pid and appends them to `procs` in order |
| Processes.KillAll | appindicator/appindicator.py:162-174 | None with the table untouched exactly when the first scan finds nothing; otherwise the table and the killed pids of `KillPasses` |
| Processes.KillPassesUntilSucceeding | appindicator/appindicator2.py:160-174 | when no scan raises, the second indicator's loop is the first indicator's `KillPasses` |
| Processes.KillPassesUntilRaises | appindicator/appindicator2.py:244-251 | a rescan that raises after the first pass ends the loop: only the first scan's pids are killed and reported, and the processes that joined keep running |
| Processes.KillPassesUntilFirstPass | appindicator/appindicator2.py:244-250 | the first scan's pids are the first killed, in scan order, whatever the rescans do |
| Processes.KillAllUntil | appindicator/appindicator2.py:239-251 | None with the table untouched exactly when the first scan raises or finds nothing; otherwise the table and the killed pids of `KillPassesUntil`, where a raising rescan ends the loop |
| Tray.TitleName | appindicator/appindicator.py:117 | the title yields a name exactly when it starts with `appindicator-`; the name is the rest, up to a newline |
| Tray.TitleNameRoundTrip | appindicator/appindicator.py:117 | the title built in `main` gives back its process name, cut at a newline |
| Tray.LastIndexOf | appindicator/appindicator.py:161 | the last quote of a label, or None when there is none |
| Tray.LabelName | appindicator/appindicator.py:161 | the greedy `.*'(.*)'` capture never holds a quote or a newline |
| Tray.LabelNameRoundTrip | appindicator/appindicator.py:161 | the "Kill All" label of a name without quote or newline gives the name back |
| Tray.LabelNameWithQuote | appindicator/appindicator.py:161 | a name holding a quote gives back only its part after the last quote |
| Tray.RememberSpec | appindicator/appindicator.py:129-135 | the list grows by exactly the fresh pids: each new, announced once, drawn from the scan; afterwards every scanned pid is remembered |
| Tray.RememberAgain | appindicator/appindicator.py:129-131 | remembered pids scanned again announce nothing and change nothing |
| Tray.Notices | appindicator/appindicator.py:133-135 | one notification per fresh pid, in order, and none without notification support |
| Tray.FirstStop | appindicator/appindicator.py:196-206 | the first option that ends the loop (`-h`, or an `-i` that is not an integer) |
| Tray.LastItemAt | appindicator/appindicator.py:200-202 | the last `-i`/`--in`, the one whose value stays in `input_item_number` |
| Tray.ChooseProcess | appindicator/appindicator.py:188-218 | a getopt error or no options exit 2; `-h` exits 0, and a non-integer `-i` before it exits 2; the last `-i` picks the entry with Python indexing; a missing `-i` or an index outside `[-n, n)` exits 2 |
| Indicator.ScanPids | appindicator/appindicator.py:119 | the pids of the matches; None exactly when nothing matches |
| Indicator.Detect | appindicator/appindicator.py:119-136 | no match leaves the status down and the pids known; a match leaves it up |
| Indicator.DetectImageOnChange | appindicator/appindicator.py:120-128 | the icon is redrawn exactly when the status changes, red for down and green for up, before any notification |
| Indicator.DetectAnnounces | appindicator/appindicator.py:126-135 | a poll that finds the process announces exactly the pids not seen since it came up, each once, then remembers all of them |
| Indicator.DetectAgain | appindicator/appindicator.py:126-136 | polling again with the same pids does nothing at all |
| Indicator.RunStep | appindicator/appindicator.py:116-137 | the run over the ticks is one poll per tick plus, after a click, what `exit_main` does |
| Indicator.ExitEffects | appindicator/appindicator.py:148-150 | a click hides the icon, sets the exit event and stops the icon, in that order |
| Indicator.RememberConcat | appindicator/appindicator.py:129-131 | remembering over two polls equals remembering over both pid lists at once |
| Indicator.UpTwiceNoRepeat | appindicator/appindicator.py:126-136 | while up, two polls announce each pid not seen before exactly once, and nothing else |
| Indicator.App.constructor | appindicator/appindicator.py:221-229 | the title and kill label are built from the process name; the icon is not yet shown and no exit is pending |
| Indicator.App.SetImage | appindicator/appindicator.py:103-105 | the image is set and the icon becomes visible |
| Indicator.App.DetectOnce | appindicator/appindicator.py:117-136 | one poll does exactly what `Detect` says, to the status, the pid list and the effects |
| Indicator.App.Announce | appindicator/appindicator.py:129-135 | the inner loop remembers and announces as `Remember` and `Notices` say |
| Indicator.App.Setup | appindicator/appindicator.py:114-139 | nothing happens when the exit event is set or the title has no name; otherwise it polls until the first tick with an Exit click, with the effects of `Run` |
| Indicator.App.PollAt | appindicator/appindicator.py:117-137 | one pass of the loop moves the state and the effects from the run over the first `i` ticks to the run over `i + 1` |
| Indicator.App.PollUntilExit | appindicator/appindicator.py:116-137 | the loop stops after the first clicked tick or at the end of the ticks, with the effects of `Run` over the ticks used |
| Indicator.App.Poll | appindicator/appindicator.py:117-137 | one pass: a `Detect` step, then the wait, during which a click sets the exit event |
| Indicator.App.ExitMain | appindicator/appindicator.py:148-150 | hides the icon, sets the exit event, stops the icon |
| Indicator.App.KillAll | appindicator/appindicator.py:161-177 | no name in the label or no match change nothing; otherwise the processes are killed as `KillPasses` says and one notification lists the pids |
| Indicator2.ScanPids | appindicator/appindicator2.py:160-174 | exact-name matches only; None when nothing matches or the enumeration raised |
| Indicator2.ToggleEffects | appindicator/appindicator2.py:208-222 | at most one image call, then one notification per reported pid when supported |
| Indicator2.ToggleAfterExit | appindicator/appindicator2.py:205-224 | with the exit event set, the status comes back unchanged and nothing is done |
| Indicator2.ToggleFound | appindicator/appindicator2.py:213-223 | from any status but up, a match gives up and the green icon, and reports each distinct pid once |
| Indicator2.ToggleLost | appindicator/appindicator2.py:207-211 | no match gives down, and the icon turns red only on a change |
| Indicator2.ToggleUpAlternates | appindicator/appindicator2.py:213-227 | a match while up hits the unbound `procs`, so None is returned with no effect; the next cycle goes up afresh and reports every pid again |
| Indicator2.SetImageSpec | appindicator/appindicator2.py:184-190 | the icon becomes visible; `FOUND` and the exit event are untouched |
| Indicator2.ExitMainSpec | appindicator/appindicator2.py:296-309 | with the quit file present: touch it, hide, set exit, stop; without it the open raises first and nothing changes |
| Indicator2.FirstWake | appindicator/appindicator2.py:82-101 | the first event that wakes the notifier: any file event, or an Exit click that touches an existing quit file |
| Indicator2.WatchSpec | appindicator/appindicator2.py:131-148 | a returning watch sets the exit event exactly when the waking event was an Exit click |
| Indicator2.RunCycles | appindicator/appindicator2.py:271-280 | at most one cycle per input cycle; nothing runs once the exit event is set |
| Indicator2.ExitNeedsQuitFile | appindicator/appindicator2.py:296-309 | without the quit file the exit event is never set: all cycles run unless a watch blocks |
| Indicator2.ExitClickStops | appindicator/appindicator2.py:271-287 | with the quit file, an Exit click during the first wait ends the loop after that cycle |
| Indicator2.WatchSetsFound | appindicator/appindicator2.py:82-119 | a watch that returns leaves `FOUND` at 1; it blocks exactly when no event wakes it |
| Indicator2.QuitFileNotLogged | appindicator/appindicator2.py:88 | events on the quit file itself are never logged |
| Indicator2.App2.constructor | appindicator/appindicator2.py:335-343 | the title, the label and the quit-file path `<home>/.appindicator.quit`; `FOUND` is 0 and no exit is pending |
| Indicator2.App2.HandleEvent | appindicator/appindicator2.py:82-101 | any event sets `FOUND` to 1; it is logged exactly when the quit path, read as a pattern, is not found in the event path |
| Indicator2.App2.HandleReadCallback | appindicator/appindicator2.py:114-119 | the notifier stops exactly when `FOUND` is 1 |
| Indicator2.App2.SetImage | appindicator/appindicator2.py:184-190 | the state becomes `SetImageSpec` of the old state |
| Indicator2.App2.ExitMain | appindicator/appindicator2.py:296-309 | the state becomes `ExitMainSpec` of the old state |
| Indicator2.App2.StopWatching | appindicator/appindicator2.py:146-148 | the `finally` of `watch`: the notifier is stopped once the exit event is set |
| Indicator2.App2.Watch | appindicator/appindicator2.py:131-148 | the state and the blocking flag are those of `WatchSpec` |
| Indicator2.App2.ToggleAppIcon | appindicator/appindicator2.py:204-227 | the new status and the effects are those of `Toggle` and `ToggleEffects` |
| Indicator2.App2.Scan | appindicator/appindicator2.py:160-174 | `find_procs` fails exactly when `ScanPids` is None, and otherwise returns processes with those pids |
| Indicator2.App2.Announce | appindicator/appindicator2.py:216-222 | the inner loop remembers and announces as `Remember` and `Notices` say |
| Indicator2.App2.Setup | appindicator/appindicator2.py:266-287 | a title without a name changes nothing; otherwise the icon turns red and the cycles run as `RunCycles` says; the `finally` runs `exit_main` only once the loop has ended with the exit event set, not when a watch blocks or the input cycles run out first |
| Indicator2.App2.Cycle | appindicator/appindicator2.py:273-280 | one cycle: reset `FOUND`, watch, toggle, wait, as `CycleSpec` says |
| Indicator2.App2.ToggleAndWait | appindicator/appindicator2.py:277-280 | after the watch: the toggle's icon and notification calls, then `exit_main` when Exit is clicked during the wait |
| Indicator2.ResumesStep | appindicator/appindicator2.py:271-280 | one more cycle either ends the run (a watch that blocks) or leaves the rest of the run to the remaining cycles |
| Indicator2.App2.KillAll | appindicator/appindicator2.py:230-257 | no name in the label, a first scan that raises or finds nothing change nothing; otherwise the processes are killed as `KillPassesUntil` says (exact-name matching, a raising rescan ends the loop) and one notification lists the pids killed so far |
| Discussion.Split | auto_discussion_for_jekyl_blog_post/auto_discussion_for_jekyl_blog_post.py:90-91 | `split('=')` gives at least one field, and no field holds the separator |
| Discussion.SplitJoin | auto_discussion_for_jekyl_blog_post/auto_discussion_for_jekyl_blog_post.py:90-91 | joining the fields again gives the line back |
| Discussion.SplitFirst | auto_discussion_for_jekyl_blog_post/auto_discussion_for_jekyl_blog_post.py:90 | field 0 is the text before the first `=` |
| Discussion.SplitNone | auto_discussion_for_jekyl_blog_post/auto_discussion_for_jekyl_blog_post.py:91 | a line without `=` is a single field |
| Discussion.Defaults | auto_discussion_for_jekyl_blog_post/auto_discussion_for_jekyl_blog_post.py:72-78 | the seven module-level names, all empty |
| Discussion.BindingTruncates | auto_discussion_for_jekyl_blog_post/auto_discussion_for_jekyl_blog_post.py:90-91 | `key=value=more` binds `key` to `value`: the value stops at the second `=` |
| Discussion.BindingNeedsEquals | auto_discussion_for_jekyl_blog_post/auto_discussion_for_jekyl_blog_post.py:91 | a later line raises exactly when it has no `=` |
| Discussion.FirstIndex | auto_discussion_for_jekyl_blog_post/auto_discussion_for_jekyl_blog_post.py:90 | the first `=` of a line |
| Discussion.SettingsLastWins | auto_discussion_for_jekyl_blog_post/auto_discussion_for_jekyl_blog_post.py:84-93 | the last line that binds a name decides its value |
| Discussion.SettingsToken | auto_discussion_for_jekyl_blog_post/auto_discussion_for_jekyl_blog_post.py:87-92 | the token is line 0 unless a later line binds `github_token` |
| Discussion.SettingsDefault | auto_discussion_for_jekyl_blog_post/auto_discussion_for_jekyl_blog_post.py:72-92 | a name no line binds keeps its empty default |
| Discussion.SettingsFail | auto_discussion_for_jekyl_blog_post/auto_discussion_for_jekyl_blog_post.py:84-93 | the loop fails exactly when some later line has no `=` or binds the counter `i` |
| Discussion.CounterBindingFails | auto_discussion_for_jekyl_blog_post/auto_discussion_for_jekyl_blog_post.py:92-93 | a later line `i=1` leaves a string in `i`, so `i = i + 1` raises and the run ends |
| Discussion.SettingsStopsAt | auto_discussion_for_jekyl_blog_post/auto_discussion_for_jekyl_blog_post.py:84-93 | once a prefix of the lines fails, the whole run fails |
| Discussion.ReadSettings | auto_discussion_for_jekyl_blog_post/auto_discussion_for_jekyl_blog_post.py:84-93 | the counting loop computes `Settings` |
| Discussion.Authorize | auto_discussion_for_jekyl_blog_post/auto_discussion_for_jekyl_blog_post.py:105-107 | Authorization becomes `token <github_token>`; every other header is the caller's, or absent |
| Discussion.ExpectedTitle | auto_discussion_for_jekyl_blog_post/auto_discussion_for_jekyl_blog_post.py:156-158 | every title starts with `blog/` and ends with `/` |
| Discussion.TitleOfPost | auto_discussion_for_jekyl_blog_post/auto_discussion_for_jekyl_blog_post.py:156-158 | `<11-char date><slug>?md` becomes `blog/<slug>/` whatever the character before `md` is |
| Discussion.TitleWithoutSuffix | auto_discussion_for_jekyl_blog_post/auto_discussion_for_jekyl_blog_post.py:156-158 | a rest that does not match `.md$` is kept whole |
| Discussion.Titles | auto_discussion_for_jekyl_blog_post/auto_discussion_for_jekyl_blog_post.py:152-159 | one title per post, in order |
| Discussion.ExpectedTitles | auto_discussion_for_jekyl_blog_post/auto_discussion_for_jekyl_blog_post.py:153-159 | the append loop computes `Titles` |
| Discussion.Missing | auto_discussion_for_jekyl_blog_post/auto_discussion_for_jekyl_blog_post.py:211-212 | no more titles than expected |
| Discussion.MissingCounts | auto_discussion_for_jekyl_blog_post/auto_discussion_for_jekyl_blog_post.py:211-212 | a title is created as often as it is expected, unless a discussion has it, in which case never |
| Discussion.HoleMismatch | auto_discussion_for_jekyl_blog_post/auto_discussion_for_jekyl_blog_post.py:135 | one placeholder never matches another |
| Discussion.ReplaceFills | auto_discussion_for_jekyl_blog_post/auto_discussion_for_jekyl_blog_post.py:135 | one `.replace` of a placeholder fills exactly that placeholder when no text or value holds `<` |
| Discussion.FillClean | auto_discussion_for_jekyl_blog_post/auto_discussion_for_jekyl_blog_post.py:135 | filling with a `<`-free value keeps the template `<`-free |
| Discussion.RenderFill | auto_discussion_for_jekyl_blog_post/auto_discussion_for_jekyl_blog_post.py:135 | filling one placeholder, then rendering, equals rendering with that binding first |
| Discussion.Substitution | auto_discussion_for_jekyl_blog_post/auto_discussion_for_jekyl_blog_post.py:135 | the `.replace` chain equals direct substitution of every placeholder |
| Discussion.PostsQueryClean | auto_discussion_for_jekyl_blog_post/auto_discussion_for_jekyl_blog_post.py:125-134 | the posts query template has no stray `<` |
| Discussion.DiscussionsQueryClean | auto_discussion_for_jekyl_blog_post/auto_discussion_for_jekyl_blog_post.py:166-184 | the discussions query template has no stray `<` |
| Discussion.CreateMutationClean | auto_discussion_for_jekyl_blog_post/auto_discussion_for_jekyl_blog_post.py:216-223 | the mutation template has no stray `<` |
| Discussion.MutationLookups | auto_discussion_for_jekyl_blog_post/auto_discussion_for_jekyl_blog_post.py:224 | each of the four placeholders is bound to its own value |
| Discussion.MutationRender | auto_discussion_for_jekyl_blog_post/auto_discussion_for_jekyl_blog_post.py:216-224 | the rendered mutation puts the repository, category, body and title in their places |
| Discussion.CreateQueryFilled | auto_discussion_for_jekyl_blog_post/auto_discussion_for_jekyl_blog_post.py:214-224 | with no `<` in the settings or the title, the mutation sent is the template with the four values in place |
| Discussion.PostsRender | auto_discussion_for_jekyl_blog_post/auto_discussion_for_jekyl_blog_post.py:125-135 | the rendered posts query puts the owner and the blog repository in their places |
| Discussion.PostsQueryFilled | auto_discussion_for_jekyl_blog_post/auto_discussion_for_jekyl_blog_post.py:125-135 | with no `<` in the owner or the repository name, the posts query sent is the template with both values in place |
| Discussion.DiscussionsLookups | auto_discussion_for_jekyl_blog_post/auto_discussion_for_jekyl_blog_post.py:185 | each of the three placeholders is bound to its own value |
| Discussion.DiscussionsRender | auto_discussion_for_jekyl_blog_post/auto_discussion_for_jekyl_blog_post.py:166-185 | the rendered discussions query puts the owner, the discussion repository and the category in their places |
| Discussion.DiscussionsQueryFilled | auto_discussion_for_jekyl_blog_post/auto_discussion_for_jekyl_blog_post.py:166-185 | with no `<` in the three settings, the discussions query sent is the template with the three values in place |
| Discussion.Creations | auto_discussion_for_jekyl_blog_post/auto_discussion_for_jekyl_blog_post.py:211-230 | one authorized mutation per missing title, in order |
| Discussion.CreateMissing | auto_discussion_for_jekyl_blog_post/auto_discussion_for_jekyl_blog_post.py:211-232 | the loop sends `Creations` of the missing titles |
| Discussion.Sync | auto_discussion_for_jekyl_blog_post/auto_discussion_for_jekyl_blog_post.py:84-232 | the top level computes `Script` |
| Discussion.Flow | auto_discussion_for_jekyl_blog_post/auto_discussion_for_jekyl_blog_post.py:138-230 | after the settings, a run ends with exit status 2 or completes; every request carries the same headers; a complete run is the two listings, then the creations |
| Discussion.ScriptAuthorizes | auto_discussion_for_jekyl_blog_post/auto_discussion_for_jekyl_blog_post.py:99-119 | with readable settings every request carries exactly `Authorization: token <token>` |
| Discussion.ScriptCreates | auto_discussion_for_jekyl_blog_post/auto_discussion_for_jekyl_blog_post.py:138-230 | a complete run sends the two listings, then one mutation per missing title, for that title |
| Discussion.ScriptIdempotent | auto_discussion_for_jekyl_blog_post/auto_discussion_for_jekyl_blog_post.py:152-212 | once the discussions reply lists every expected title, a run only lists |
| Keyphrases.MarkdownAnyDot | add_keyphrases_to_jekyll_blog_post/add_keyphrases_to_jekyll_blog_post.py:115 | any character but a newline before `md` passes the check |
| Keyphrases.MarkdownEnds | add_keyphrases_to_jekyll_blog_post/add_keyphrases_to_jekyll_blog_post.py:115 | an accepted path ends in `md`, or in `md` and a newline |
| Keyphrases.LastInput | add_keyphrases_to_jekyll_blog_post/add_keyphrases_to_jekyll_blog_post.py:108-110 | the path of the last `-i`; None exactly when there is none |
| Keyphrases.ReadOptsOpens | add_keyphrases_to_jekyll_blog_post/add_keyphrases_to_jekyll_blog_post.py:104-117 | a post is opened only if no `-h` came and every path was markdown; it is the last path given |
| Keyphrases.LaunchOne | add_keyphrases_to_jekyll_blog_post/add_keyphrases_to_jekyll_blog_post.py:97-117 | `-i path` opens the path exactly when it is markdown, else exits 2 |
| Keyphrases.LaunchNothing | add_keyphrases_to_jekyll_blog_post/add_keyphrases_to_jekyll_blog_post.py:101-103 | no arguments exit 2 |
| Keyphrases.ChoosePost | add_keyphrases_to_jekyll_blog_post/add_keyphrases_to_jekyll_blog_post.py:95-117 | the option loop computes `Launch` |
| Keyphrases.Length | add_keyphrases_to_jekyll_blog_post/add_keyphrases_to_jekyll_blog_post.py:130 | `len()` raises TypeError exactly for null, booleans and numbers |
| Keyphrases.RetagDecision | add_keyphrases_to_jekyll_blog_post/add_keyphrases_to_jekyll_blog_post.py:127-136 | retag exactly when there are no tags, the tags have no length, or there are some tags and the answer starts with `y`/`Y` |
| Keyphrases.EmptyTagsKept | add_keyphrases_to_jekyll_blog_post/add_keyphrases_to_jekyll_blog_post.py:130 | empty tags are never replaced |
| Keyphrases.AnswerAnchored | add_keyphrases_to_jekyll_blog_post/add_keyphrases_to_jekyll_blog_post.py:136 | only a leading `y` counts |
| Keyphrases.TitleFrom | add_keyphrases_to_jekyll_blog_post/add_keyphrases_to_jekyll_blog_post.py:171 | `str.title()` keeps the length |
| Keyphrases.TitleAt | add_keyphrases_to_jekyll_blog_post/add_keyphrases_to_jekyll_blog_post.py:171 | a letter is upper case exactly when it starts a run of letters; other characters are kept |
| Keyphrases.TitleSplits | add_keyphrases_to_jekyll_blog_post/add_keyphrases_to_jekyll_blog_post.py:171 | a non-letter separates words that are titled independently |
| Keyphrases.TitleIdempotent | add_keyphrases_to_jekyll_blog_post/add_keyphrases_to_jekyll_blog_post.py:171 | titling twice changes nothing more |
| Keyphrases.WithoutSpaces | add_keyphrases_to_jekyll_blog_post/add_keyphrases_to_jekyll_blog_post.py:171 | no whitespace is left, and a text without whitespace is kept |
| Keyphrases.WithoutSpacesConcat | add_keyphrases_to_jekyll_blog_post/add_keyphrases_to_jekyll_blog_post.py:171 | removing whitespace distributes over concatenation |
| Keyphrases.Pascal | add_keyphrases_to_jekyll_blog_post/add_keyphrases_to_jekyll_blog_post.py:171 | a tag has no whitespace and is no longer than its phrase |
| Keyphrases.PascalJoins | add_keyphrases_to_jekyll_blog_post/add_keyphrases_to_jekyll_blog_post.py:171 | words separated by whitespace are titled and joined |
| Keyphrases.Transformed | add_keyphrases_to_jekyll_blog_post/add_keyphrases_to_jekyll_blog_post.py:169-172 | one PascalCase tag per phrase, in order |
| Keyphrases.TransformKeyphrases | add_keyphrases_to_jekyll_blog_post/add_keyphrases_to_jekyll_blog_post.py:169-172 | the append loop computes `Transformed` |
| Keyphrases.TagList | add_keyphrases_to_jekyll_blog_post/add_keyphrases_to_jekyll_blog_post.py:176 | the stored tag list has one entry per tag |
| Keyphrases.Post.constructor | add_keyphrases_to_jekyll_blog_post/add_keyphrases_to_jekyll_blog_post.py:121 | the loaded front matter and content |
| Keyphrases.Post.SetTags | add_keyphrases_to_jekyll_blog_post/add_keyphrases_to_jekyll_blog_post.py:176 | only the `tags` key changes |
| Keyphrases.Retag | add_keyphrases_to_jekyll_blog_post/add_keyphrases_to_jekyll_blog_post.py:127-176 | retagged exactly as `RetagDecision` says; the tags then become the transformed phrases, and nothing else changes |
| Keyphrases.RetagAgain | add_keyphrases_to_jekyll_blog_post/add_keyphrases_to_jekyll_blog_post.py:127-136 | after a retag the next run retags exactly when some tag was stored and the answer is yes |
| Keyphrases.StripFences | add_keyphrases_to_jekyll_blog_post/add_keyphrases_to_jekyll_blog_post.py:143 | the result is never longer than the text |
| Keyphrases.FencesRemoved | add_keyphrases_to_jekyll_blog_post/add_keyphrases_to_jekyll_blog_post.py:143 | with two non-overlapping fences, everything from the first fence to the end of the last goes, and no fence is left |
| Keyphrases.NoFenceLeft | add_keyphrases_to_jekyll_blog_post/add_keyphrases_to_jekyll_blog_post.py:143 | cutting from the first fence to the end of the last leaves no fence |
| Keyphrases.FencesKept | add_keyphrases_to_jekyll_blog_post/add_keyphrases_to_jekyll_blog_post.py:143 | without two non-overlapping fences the text is unchanged |
| Mastodon.ReadOptsSpec | mastodon_archiver/mastodon_archiver.py:81-87 | the run goes on exactly when no `-h` is given (otherwise it exits 0), and it is confirmed exactly when some `-c`/`--confirm` is |
| Mastodon.OptionsNone | mastodon_archiver/mastodon_archiver.py:75-80 | no options mean a dry run |
| Mastodon.ChooseMode | mastodon_archiver/mastodon_archiver.py:74-87 | the option loop computes `Options` |
| Mastodon.SettingsPath | mastodon_archiver/mastodon_archiver.py:91-93 | `../mastodon.json` exactly when it exists, else `./mastodon.json` |
| Mastodon.Shape | mastodon_archiver/mastodon_archiver.py:113-168 | every command ends with its account's user |
| Mastodon.AccountCommands | mastodon_archiver/mastodon_archiver.py:116-167 | one command per account per phase, three for media |
| Mastodon.PhaseCommands | mastodon_archiver/mastodon_archiver.py:113-117 | a phase issues `n` times its width in commands |
| Mastodon.PhaseAt | mastodon_archiver/mastodon_archiver.py:113-168 | within a phase, account `i`'s commands sit together, accounts in configuration order |
| Mastodon.ConcatLength | mastodon_archiver/mastodon_archiver.py:111-168 | the phases one after another issue as many commands as they issue together |
| Mastodon.ConcatAt | mastodon_archiver/mastodon_archiver.py:111-168 | each phase's commands come, in their order, right after all earlier phases' commands |
| Mastodon.PlanSize | mastodon_archiver/mastodon_archiver.py:104-168 | the run issues `9n + 1` commands |
| Mastodon.PlanAt | mastodon_archiver/mastodon_archiver.py:104-168 | the layout: `-h` first, then archive, media, expire statuses, favourites and mentions, html, report, each over all accounts in order |
| Mastodon.AccountCommandEnds | mastodon_archiver/mastodon_archiver.py:116-167 | every command ends with a space and the user |
| Mastodon.UnwordsWithout | mastodon_archiver/mastodon_archiver.py:116-167 | a command holds `--confirmed` only if one of its words does |
| Mastodon.AccountCommandFlag | mastodon_archiver/mastodon_archiver.py:137-151 | a command holds `--confirmed` exactly when it is an expire command of a confirmed run |
| Mastodon.PlanFlag | mastodon_archiver/mastodon_archiver.py:130-154 | in the plan, the flag is in exactly the expire phases' commands of a confirmed run |
| Mastodon.PlanPosition | mastodon_archiver/mastodon_archiver.py:104-168 | every position after the first belongs to one phase, one account and one command |
| Mastodon.PlanFlagAnywhere | mastodon_archiver/mastodon_archiver.py:104-168 | a command holds the flag exactly when the run is confirmed and it lies in positions `[4n+1, 7n+1)`, after all archiving and media commands |
| Mastodon.NoFallback | mastodon_archiver/mastodon_archiver.py:91-101 | an existing `../mastodon.json` that fails to load ends the run, with no fallback |
| Mastodon.RunDry | mastodon_archiver/mastodon_archiver.py:71-168 | a run without `-c` never passes `--confirmed` |
| Mastodon.RunPhase | mastodon_archiver/mastodon_archiver.py:113-117 | one account loop issues `PhaseCommands` |
| Mastodon.RunPhases | mastodon_archiver/mastodon_archiver.py:111-168 | the seven loops in turn issue the phases' commands one phase after another (`Concat`) |
| Mastodon.Archiver | mastodon_archiver/mastodon_archiver.py:63-168 | `main` exits and issues commands as `Run` says |
| Svg2Png.OutputOfSvg | svg2png/svg2png.py:73-74 | a name ending in `.svg` gets that suffix replaced by `.png` |
| Svg2Png.OutputAnyDot | svg2png/svg2png.py:74 | the unescaped dot: any character but a newline before `svg` is replaced too |
| Svg2Png.OutputNotSvg | svg2png/svg2png.py:73-74 | an output is never itself considered, and never equals its input |
| Svg2Png.OutputInjective | svg2png/svg2png.py:74 | distinct inputs have distinct outputs |
| Svg2Png.Svgs | svg2png/svg2png.py:71-73 | exactly the listing entries ending in `.svg` are considered |
| Svg2Png.Expected | svg2png/svg2png.py:71-87 | the reference: one event per considered entry, in order, created exactly when its output did not exist before the run |
| Svg2Png.OutputFresh | svg2png/svg2png.py:74 | an entry's output is the output of no other entry |
| Svg2Png.RunIsExpected | svg2png/svg2png.py:71-87 | with distinct entries, the loop is the reference, so one conversion never causes another entry to be skipped; afterwards the folder holds every output |
| Svg2Png.NeverOverwrites | svg2png/svg2png.py:75-87 | whatever the listing, a created output did not exist before, none is created twice, and no file disappears |
| Svg2Png.ReportedExists | svg2png/svg2png.py:75-85 | every reported output exists after the run |
| Svg2Png.Folder.Convert | svg2png/svg2png.py:71-87 | the loop's events and the new folder are those of `Run` |

## Left out

- Tray icon drawing, menus, notifications and image loading are recorded as effects only (`ShowImage`, `NotifyDetected`, `HideIcon` and so on).
- The text of notifications and log lines is left out. In the second indicator the message is a tuple, because of a stray comma; that is not modelled.
- psutil enumeration and `kill()` are modelled as a table of `(pid, name)` records in which a kill removes the entry. The processes that appear between passes are an input.
- In the second indicator's `toggle_app_icon`, an exception raised by `process_iter` is an absent table. In its `kill_all`, it is a scan that raises (`firstRaises`, `Rescan.raises`).
- Indicator.App.KillAll, Indicator2.App2.KillAll: a `kill()` that raises (a process that already exited) is not modelled; a kill always removes the entry.
- Timing is not modelled: `time.sleep`, `exit_event.wait(1)`, the one-second polling period, and the thread that runs `setup` beside the tray's own loop. The polls and the cycles are finite input lists, and a click on Exit is an input of the wait in which it lands.
- In the second indicator, the inotify notifier is modelled only by the first event that wakes it. The blocking loop with no such event is the `blocked` result.
- A cycle that is not `armed` stands for an exception raised in `watch` before the notifier's loop starts, such as one from `WatchManager()` or `Notifier()`; the `finally` then runs at once. A `which()` that finds no executable does not disarm the cycle: `add_watch` reports a failed path through its return value instead of raising, so the loop still runs on the quit-file watch alone. That is an armed cycle whose events never name the executable, which blocks unless an Exit click wakes it with the quit file present (`Indicator2.FirstWake`, `Indicator2.WatchSetsFound`).
- `KeyboardInterrupt` and `SystemExit` during `setup` are not modelled.
- The second indicator's `main` and `start_main` match the first indicator's `main` and are modelled once (`Tray.ChooseProcess`).
- Reading `appindicator.json` is not modelled: its process names are an input. A settings entry without a `Name` key is not modelled.
- Discussion: the `pass` subprocess, the slicing of its output with `[3:-10]` and the split on the two characters backslash-n are not modelled. The entry's lines are the input.
- Discussion: the HTTP calls, the reply JSON and the rate-limit printing (date and float arithmetic) are not modelled. A listing reply is an optional list of names. Only the two fields read inside a `try` lead to the `Exit2` outcome when missing: `entries` of the posts reply (auto_discussion_for_jekyl_blog_post.py:144-149) and `totalCount` of the discussions reply (:194-199). A missing `nodes` (:201), an entry without `name` (:156) or a discussion without `title` (:204) raises an uncaught exception that ends the run with status 1; those replies are not modelled, and with `totalCount` present the discussions reply is taken to hold its `nodes`.
- Discussion: `locals()[key] = value` at module level assigns any module-level name. Binding the loop's counter `i` is modelled: `i = i + 1` then raises and the run ends (`Discussion.CounterBindingFails`). The seven settings names are read as modelled.
- Discussion.Sync, Discussion.ScriptAuthorizes, Discussion.ScriptCreates, Discussion.ScriptIdempotent: a line that rebinds another name the script reads later is kept as a stored value that is never read. In the program such a binding breaks the run: `requests` or `real_requests_post` make the first request raise before it is sent; `print`, `len`, `str`, `re`, `logging` and `sys` break a later step.
- Keyphrases: `frontmatter.load` and `frontmatter.dump`, writing the file, the markdown-to-text conversion and KeyBERT are not modelled. The key phrases are an input.
- Keyphrases: of the clean-up substitutions, only the code-fence one is modelled (`StripFences`). The text it produces only feeds KeyBERT, which is left out.
- PyText.ParseInt: only the ASCII digits `0`-`9` are digits. Python's `int()` also accepts every other Unicode decimal digit (`int('٣') == 3`), so an `-i` value written in such digits selects an entry in the program and exits 2 in the model (`Tray.ChooseProcess`), and `PyText.ParseIntNeedsDigit` covers only texts without ASCII digits.
- Keyphrases.TitleFrom: `str.title()` is modelled for ASCII letters only. Other cased Unicode letters are treated as non-letters.
- Keyphrases: `input()` for the overwrite question is the `answer` input. The question is asked only when there are tags.
- Mastodon: `os.system` is not run. The model is the list of command strings.
- Mastodon: `os.system` does not raise on a failing command, so the `try` around `mastodon-archive -h` never takes its `except`. That branch is not modelled.
- Mastodon: `input()` and the JSON load are folded into one input, the settings files that load. A path missing from `loads` means loading failed, which exits 0.
- Mastodon: the accounts are assumed to be a well-formed list of objects with a `user` key.
- Mastodon.PlanFlag, Mastodon.AccountCommandFlag, Mastodon.PlanFlagAnywhere, Mastodon.RunDry: assume no user name holds `--confirmed`, since such a name would carry the flag into any command.
- Svg2Png: svglib, reportlab and fitz rendering are not modelled; a conversion is the creation of its output file. Errors while rendering are not modelled.
- Svg2Png: the listing's entries are assumed distinct, as `os.listdir` returns them, for `RunIsExpected`. `NeverOverwrites` holds for any listing.
- Svg2Png: `os.path.isfile` is membership in the folder's set of files. A directory that has an output's name is not in the set.
- `DotSearch` reads the quit-file path as a pattern whose only metacharacter is `.`. Other metacharacters in a home directory's path are not modelled.
- captcha_generator is not part of this model.
- Logging and printing are not modelled.

## Notes on the code as written

- `appindicator2.py` `toggle_app_icon`: when the status is already `'up'` and the process is found, the loop reads `procs` before it is assigned. The resulting `UnboundLocalError` is caught, logged, and `None` is returned. The next cycle therefore starts from `None`, goes `'up'` again, sets the green icon and announces every pid again. While the process runs, pids are announced on every other cycle (`Indicator2.ToggleUpAlternates`).
- `appindicator2.py` `EventHandler`: `FOUND` is set for events on the quit file too, not only for the watched executable.
- `appindicator2.py`: the program never creates the quit file. Without it, `exit_main` raises at its first step and the exit event is never set (`Indicator2.ExitNeedsQuitFile`).
- `appindicator2.py`: a menu Exit runs `exit_main`, and the `finally` of `setup` then runs it a second time.
- `appindicator.py` and `appindicator2.py`: `main` reads every option in order. An `-h` after a valid `-i` still exits 0, and a non-integer `-i` exits 2 at once.
- The `.md$` and `.svg$` patterns have an unescaped dot. `notes_md` is accepted as a markdown path and gives the same discussion title as `notes.md`.
- `auto_discussion_for_jekyl_blog_post.py`: the discussions query asks for `discussions(first: 100, after: null, ...)` and never follows a cursor. In a category with more than 100 discussions, only the first page is compared. A post whose discussion is not on that page counts as missing on every run, and a duplicate discussion is created for it each time. The model's `discussions` input is the list of titles in that one reply, so `Discussion.ScriptIdempotent` holds only when that page lists every expected title.
- `mastodon_archiver.py`: the statuses command has two spaces before the user in a dry run (`--pace  user`). The favourites and mentions commands glue the flag to `--pace` (`--pace --confirmed`, with no space in the dry run).
