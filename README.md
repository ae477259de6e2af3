# Online temple: a verified model of the fortune-stick logic

The app lets a visitor pick a deity, shake a bamboo cylinder until a stick falls, and read the
fortune poem written on it. This project models in Dafny the logic behind that flow and proves
properties about it:

- **the draw state machine** of the game scene (`GameScene.dfy`): a `Scene` class with the
  fields `isShaking`, `stickState` and `btnState`, one method per event, and pending timer
  callbacks held as explicit queues;
- **the session** of the application shell (`App.dfy`): a `Session` class with the selected
  deity key, the drawn result and the modal flag, and the derived view;
- **the result modal** (`ResultModal.dfy`): the render guard, the level colour rule, the
  download file name and the `isSaving`/`isSaved` flags of the save button (`SaveButton` class);
- **the offline scrapers** that fill the fortune database:
  - the Mazu scraper (`ScrapeMazu.dfy`): URL absolutisation, de-duplication through a `Map`
    keyed by URL, poem and explanation clean-up, skip-on-failure accumulation, and the
    bracket-balancing scan and splice that rewrites the database file;
  - the Guanyin and Guandi scrapers (`ScrapeGuanyin.dfy`, `ScrapeGuandi.dfy`);
  - the list pipeline both of those share (`ScrapeCommon.dfy`): filter by tag and index range,
    keep the first link per index, in-place sort by index on an `array`;
  - the JavaScript string operations they rely on (`Text.dfy`): `trim`, `indexOf`, character
    class `replace`, `/\s+/g` collapsing, `parseInt` and number formatting.

Each stateful method is specified by a pure function of the old state
(`State() == AfterStart(old(State()))`). The lemmas are stated over those functions and over
`Run`, which replays a sequence of events. Loops are proved against recursive specification
functions (`CollectLinks` against `KeptLinks`, `DedupByIndex` against `FirstPerIndex`,
`FindDataEnd` against `ClosingEnd`, the detail loops against `MazuEntries` and `Mapped`).

Inputs that come from outside the code are parameters:

- `Math.random()` is a real `r` with `0 <= r < 1`;
- a detail page that fails to load is `None` from the function-typed parameter `fetch`;
- the regular-expression captures of the page text are optional strings inside the page records;
- the outcome of the image library is a `SaveOutcome`;
- `JSON.stringify` is the parameter `stringify`.

Where the description of the app and the code differ, the model follows the code:

- The game scene has no "throw the divination blocks" confirmation phase.
- It has no guard against a stale timer. For the game scene on its own, a deity change during a
  shake resets the button, but the pending callbacks still fire and report the stick drawn from
  the old deity's data, whatever the data and the random number
  (`GameScene.DeityChangeKeepsPendingDraw`). In the application this change cannot happen on a
  scene that is shown: the scene is rendered only while a deity is selected
  (src/App.jsx:45-49), and a new deity is chosen from the menu after going back, which removes
  the scene. What the application does reach is the late report after going back
  (`App.DrawAfterBackOpensOverMenu`).
- `reset` leaves `isShaking` untouched, so a reset during a shake does not stop that shake.

## Model

| member | source | states |
|---|---|---|
| GameScene.ButtonActionOf | src/components/GameScene.jsx:117-131 | the start button exists exactly in `start`, the reset button exactly in `reset`, and `drawing` offers no action (its button is disabled) |
| GameScene.ShakeDelayMs | src/components/GameScene.jsx:25 | the shake delay `2000 + r*1000` lies in [2000, 3000) for every `r` in [0, 1) |
| GameScene.ScaleBelow | src/components/GameScene.jsx:20 | `r * len` lies in [0, len) for `r` in [0, 1) and a non-empty list |
| GameScene.DrawIndex | src/components/GameScene.jsx:20 | `floor(r * len)` is a valid index of a non-empty list |
| GameScene.DrawIndexReachesAll | src/components/GameScene.jsx:20 | every index of the list is drawn for some `r` in [0, 1), so no stick is unreachable |
| GameScene.Draw | src/components/GameScene.jsx:20-21 | the draw yields a stick exactly when the data is non-empty, and that stick is an element of the data |
| GameScene.DrawSingleton | src/components/GameScene.jsx:20-21 | a one-stick list always yields that stick |
| GameScene.Initial | src/components/GameScene.jsx:4-6 | definition of the mounted scene: not shaking, stick hidden, button 'start', nothing pending or reported; NeverTwoShakes starts from it |
| GameScene.AfterStart | src/components/GameScene.jsx:8-25 | definition of `startDrawing` on the scene state: a no-op while shaking, otherwise shaking, button 'drawing' and one shake callback pending for the current data; specified through Scene.StartDrawing, StepKeepsOneShake and StepFollowsPhases |
| GameScene.AfterShake | src/components/GameScene.jsx:14-24 | definition of the first callback: shaking stops, the stick drops, the oldest shake callback becomes a drop callback with the same captured data; specified through Scene.OnShakeTimer and StepFollowsPhases |
| GameScene.AfterDrop | src/components/GameScene.jsx:19-24 | definition of the second callback: one draw from the captured data is reported and the button offers 'reset'; specified through Draw, Scene.OnDropTimer and StepAccounting |
| GameScene.AfterReset | src/components/GameScene.jsx:28-31 | reset sets `stickState` to hidden and `btnState` to start and changes nothing else (not `isShaking`, not the pending callbacks) |
| GameScene.AfterDeityChange | src/components/GameScene.jsx:33-36 | definition: the new data is rendered and `reset` runs; specified by DeityChangeKeepsPendingDraw (a draw already scheduled still reports from the old data) |
| GameScene.AfterClick | src/components/GameScene.jsx:117-131 | definition: the rendered button's handler, chosen by ButtonActionOf (start runs `startDrawing`, the disabled 'drawing' button does nothing, reset runs `reset`); specified through Scene.ClickButton |
| GameScene.Enabled | src/components/GameScene.jsx:14-25 | definition: a timer event can happen only while a callback of its kind is pending, with its random value in [0, 1); clicks and deity changes always can |
| GameScene.Step | src/components/GameScene.jsx:8-36 | definition: one event applied to the scene; specified by StepKeepsOneShake, StepAccounting and StepFollowsPhases |
| GameScene.CanRun | src/components/GameScene.jsx:8-36 | definition: every event of the sequence is possible when it comes; the precondition of the Run lemmas |
| GameScene.Run | src/components/GameScene.jsx:8-36 | definition: the events applied in order; specified by RunKeepsOneShake, RunAccounting, RunFollowsPhases and NeverTwoShakes |
| GameScene.StepKeepsOneShake | src/components/GameScene.jsx:9 | every event keeps the invariant "at most one shake callback pending, and none unless shaking" |
| GameScene.RunKeepsOneShake | src/components/GameScene.jsx:9 | the same invariant holds after any sequence of events |
| GameScene.NeverTwoShakes | src/components/GameScene.jsx:9 | from the initial scene, no sequence of events ever has two shakes in flight |
| GameScene.StepAccounting | src/components/GameScene.jsx:22-23 | one event never removes a report, and reports plus draws in flight grow by exactly one when the event starts a draw |
| GameScene.RunAccounting | src/components/GameScene.jsx:22-23 | over any run, `onDrawComplete` is called once per started draw: earlier reports are kept, and reports plus draws in flight equal the draws started |
| GameScene.StepFollowsPhases | src/components/GameScene.jsx:8-26 | without a deity change, each event moves the scene along ready → shaking → falling → shown → ready; the shake timer fires only while shaking and the drop timer only while falling |
| GameScene.RunFollowsPhases | src/components/GameScene.jsx:8-31 | without a deity change, every reachable scene is in one of the phases, at most one draw is in flight, and the button shows "drawing" exactly while one is |
| GameScene.DeityChangeKeepsPendingDraw | src/components/GameScene.jsx:8-36 | for any old and new data and any random number, a deity change during a shake installs the new data and resets the button, yet the pending callbacks still run and report the stick drawn from the old data |
| GameScene.Scene.constructor | src/components/GameScene.jsx:4-6 | the scene starts not shaking, stick hidden, button start, nothing pending; this equals a reset of the initial state |
| GameScene.Scene.StartDrawing | src/components/GameScene.jsx:8-11 | while shaking nothing changes; otherwise `isShaking` becomes true and `btnState` drawing, `stickState` is kept, and one shake callback is scheduled |
| GameScene.Scene.OnShakeTimer | src/components/GameScene.jsx:14-16 | the first callback clears `isShaking`, sets the stick dropping, keeps the button and schedules the drop callback |
| GameScene.Scene.OnDropTimer | src/components/GameScene.jsx:19-24 | the second callback reports `data[floor(r*len)]` (an element of the data when it is non-empty), appends it to the reports and sets the button to reset |
| GameScene.Scene.Reset | src/components/GameScene.jsx:28-31 | reset sets hidden/start and leaves `isShaking` and both pending queues as they were |
| GameScene.Scene.OnDeityChange | src/components/GameScene.jsx:34-36 | a new deity installs its data and runs reset |
| GameScene.Scene.ClickButton | src/components/GameScene.jsx:117-131 | a click runs `startDrawing` on the start button, `reset` on the reset button, and nothing on the disabled drawing button |
| App.CurrentDeity | src/App.jsx:32 | the current deity is the database entry of the key when a non-empty key is set and present, and missing otherwise |
| App.KeySet | src/App.jsx:32 | definition of JavaScript truthiness of `currentDeityKey` (null and the empty string are false); used by CurrentDeity, ViewOf and ShowBack |
| App.CurrentDeityMissingIffNoKey | src/App.jsx:32 | with a database of real keys, the current deity is missing exactly when no key is selected |
| App.ViewOf | src/App.jsx:45-49 | the menu is shown exactly when no key is set; otherwise the scene for the current deity is shown |
| App.ShowBack | src/App.jsx:43 | definition of `showBack={!!currentDeityKey}`; specified by BackButtonWithScene (the back button shows exactly with the scene) |
| App.BackButtonWithScene | src/App.jsx:43-49 | the back button is shown exactly when the game scene is, and hidden exactly when the menu is |
| App.AfterSelectDeity | src/App.jsx:13-15 | selecting a deity sets the key and keeps the result and the modal flag |
| App.AfterBack | src/App.jsx:17-21 | going back clears the key, the result and the modal flag together, giving the initial session |
| App.AfterDrawComplete | src/App.jsx:23-26 | a completed draw stores its result and opens the modal, keeping the key |
| App.AfterCloseModal | src/App.jsx:28-30 | closing the modal clears its flag and keeps the result and the key |
| App.BackIdempotent | src/App.jsx:17-21 | going back twice gives the same session as going back once |
| App.CloseThenReopen | src/App.jsx:23-30 | closing twice equals closing once, and closing then completing the same draw again restores the state right after the draw |
| App.DrawAfterBackOpensOverMenu | src/App.jsx:17-26 | a draw completing after going back opens the modal over the menu, with no deity |
| App.InitialSession | src/App.jsx:9-11 | definition of the three initial `useState` values (no key, no result, modal closed); App.Session.constructor establishes it |
| App.Session.constructor | src/App.jsx:9-11 | the session starts with no key, no result and the modal closed |
| App.Session.HandleSelectDeity | src/App.jsx:13-15 | the handler's new state is that of `AfterSelectDeity` |
| App.Session.HandleBack | src/App.jsx:17-21 | the handler's new state is that of `AfterBack` |
| App.Session.HandleDrawComplete | src/App.jsx:23-26 | the handler's new state is that of `AfterDrawComplete` |
| App.Session.HandleCloseModal | src/App.jsx:28-30 | the handler's new state is that of `AfterCloseModal` |
| ResultModal.ModalFollowsSession | src/components/ResultModal.jsx:9 | the modal renders after a draw with a result, not after an empty draw, and not after closing or going back |
| ResultModal.Renders | src/components/ResultModal.jsx:9 | definition: the modal renders only when open and holding a result; specified by ModalFollowsSession |
| ResultModal.LevelClass | src/components/ResultModal.jsx:11-19 | gray exactly when the level contains 下, red exactly when it contains 吉 but not 下, amber exactly when it contains neither |
| ResultModal.LevelClassExamples | src/components/ResultModal.jsx:11-19 | 下吉 and 下下 are gray, 大吉 and 上吉 red, 中平 and the empty level amber |
| ResultModal.NameText | src/components/ResultModal.jsx:36 | definition of `${deityName}` in a template literal (an absent name prints "undefined"); used by FileName and WindowTitle |
| ResultModal.FileName | src/components/ResultModal.jsx:36 | definition of the download name; specified by FileNameCarriesTitle and FileNameInjective |
| ResultModal.FileNameCarriesTitle | src/components/ResultModal.jsx:36 | the download name is the deity name, 靈籤_, the title and .png, in that order |
| ResultModal.FileNameInjective | src/components/ResultModal.jsx:36 | for one deity, different titles give different file names |
| ResultModal.WindowTitle | src/components/ResultModal.jsx:61 | definition of the fallback window's page title; SaveEffectOf states it is the title shown when a window opens |
| ResultModal.SaveEffectOf | src/components/ResultModal.jsx:26-73 | a download with that file name exactly when the primary path succeeds; the window, titled with the deity name and the result title, exactly when the primary fails and the fallback succeeds with a window; nothing visible exactly when the fallback succeeds but no window opens; an alert exactly when both fail |
| ResultModal.AfterSaveClick | src/components/ResultModal.jsx:22-24 | a click without the element or while saving changes nothing; otherwise `isSaving` becomes true and `isSaved` is kept |
| ResultModal.AfterSaveSettled | src/components/ResultModal.jsx:45-76 | after any attempt `isSaving` is false; `isSaved` becomes true when either path produced an image and is unchanged when both failed |
| ResultModal.AfterClose | src/components/ResultModal.jsx:79-82 | closing clears `isSaved` and keeps `isSaving` |
| ResultModal.SaveButtonShown | src/components/ResultModal.jsx:128-140 | definition: the footer shows the save button until an image was saved; specified by SaveRoundTrip |
| ResultModal.SaveRoundTrip | src/components/ResultModal.jsx:21-77 | a click followed by its settling leaves nothing running, and the button stays exactly when it was shown and both paths failed |
| ResultModal.NoSecondAttempt | src/components/ResultModal.jsx:22 | a second click while an attempt runs changes nothing |
| ResultModal.SaveButton.constructor | src/components/ResultModal.jsx:5-6 | both flags start false |
| ResultModal.SaveButton.HandleSaveImage | src/components/ResultModal.jsx:21-24 | the flags become `AfterSaveClick`, and an attempt starts exactly when the element exists and none is running |
| ResultModal.SaveButton.SaveSettled | src/components/ResultModal.jsx:26-76 | the flags become `AfterSaveSettled` and the visible effect is `SaveEffectOf` the outcome |
| ResultModal.SaveButton.HandleClose | src/components/ResultModal.jsx:79-82 | `isSaved` is cleared and the session's modal is closed through its handler |
| Text.TrimStart | scripts/scrapeGuanyin.js:24 | the result is a suffix of the input, only whitespace was dropped, and it does not start with whitespace |
| Text.TrimEnd | scripts/scrapeGuanyin.js:24 | the result is a prefix of the input, only whitespace was dropped, and it does not end with whitespace |
| Text.Trim | scripts/scrapeGuanyin.js:24 | `trim()` gives a text that neither starts nor ends with whitespace and is no longer than the input |
| Text.TrimSlice | scripts/scrapeGuanyin.js:24 | `trim()` keeps a contiguous slice of the input and cuts away only white space on either side |
| Text.TrimAvoids | scripts/scrapeGuandi.js:116 | trimming introduces no character that was absent |
| Text.SliceAvoids | scripts/scrapeGuandi.js:116 | a slice of a text without some class of characters is without them too |
| Text.TrimOfTrimmed | scripts/scrapeGuandi.js:116 | trimming a trimmed text changes nothing |
| Text.TrimIdempotent | scripts/scrapeGuanyin.js:24 | trimming twice equals trimming once |
| Text.IndexOf | scripts/scrapeMazu.js:126-131 | `indexOf(pat, from)` returns the first position at or after `from` where the pattern occurs, or nothing when there is none |
| Text.ReplaceChars | scripts/scrapeGuanyin.js:106 | a `/[..]/g` replacement keeps the length and replaces exactly the characters of the class |
| Text.DeleteChars | scripts/scrapeGuanyin.js:106 | a `/[..]/g` deletion leaves no character of the class, never lengthens the text, and on one character gives nothing for a class member and that character otherwise |
| Text.ReplaceClears | scripts/scrapeGuanyin.js:106 | replacing a class by a character outside it leaves no character of the class |
| Text.ReplaceKeepsOut | scripts/scrapeGuandi.js:117 | replacing by a character outside another class brings none of that class in |
| Text.DeleteKeepsOut | scripts/scrapeGuanyin.js:106 | deleting a class brings no character in |
| Text.DeleteKeepsOthers | scripts/scrapeGuanyin.js:106 | a character outside the deleted class, such as the line breaks of the poem, is in the result exactly when it was in the input |
| Text.DeleteCharsAppend | scripts/scrapeGuanyin.js:106 | deleting from a concatenation is concatenating the deletions, which with the one-character case determines the result |
| Text.DeleteCharsKeeps | scripts/scrapeGuanyin.js:106 | every character outside the class survives, in order, at the position given by what survives before it |
| Text.DeleteReplaceCommute | scripts/scrapeMazu.js:91 | replacing commas by line breaks and then deleting full stops is deleting the full stops first and replacing afterwards |
| Text.ReplaceAppend | scripts/scrapeGuanyin.js:135 | a global replacement of a concatenation is the concatenation of the replacements |
| Text.ReplaceAbsent | scripts/scrapeGuanyin.js:135 | replacing a class that does not occur changes nothing |
| Text.DeleteAbsent | scripts/scrapeMazu.js:91 | deleting a class that does not occur changes nothing |
| Text.Join | scripts/scrapeMazu.js:71 | joining one block gives that block, and with several blocks the separator follows the first |
| Text.JoinSnoc | scripts/scrapeMazu.js:71 | joining one more block appends the separator and that block to the join of the others, so no block is dropped |
| Text.JoinLength | scripts/scrapeMazu.js:71 | the join is exactly as long as all blocks plus one separator between each two |
| Text.Squeeze | scripts/scrapeGuanyin.js:135 | the non-whitespace text of a string contains no whitespace |
| Text.Collapse | scripts/scrapeGuanyin.js:135 | `/\s+/g` to a space leaves no two adjacent whitespace characters, keeps emptiness, and starts with a space when the input starts with whitespace and with the same character otherwise |
| Text.CollapseLast | scripts/scrapeGuanyin.js:135 | the collapsed text ends with a space when the input ends with whitespace and with the same character otherwise |
| Text.TrimStartAppend | scripts/scrapeGuanyin.js:135 | leading white space of a text ending in a non-space character is cut from that text alone |
| Text.TrimStartRun | scripts/scrapeGuanyin.js:135 | a run of white space before a text not starting with white space is cut away whole |
| Text.CollapseAppend | scripts/scrapeGuanyin.js:135 | collapsing works piece by piece across a cut after a non-space character |
| Text.CollapseRun | scripts/scrapeGuanyin.js:135 | a whole run of white space, of any length, becomes exactly one plain space |
| Text.SingleSpacedCons | scripts/scrapeGuanyin.js:135 | a single space or a non-space in front of a single-spaced text keeps it single-spaced |
| Text.SqueezeAppend | scripts/scrapeGuanyin.js:135 | the non-whitespace text of a concatenation is the concatenation of theirs |
| Text.SqueezeTrimStart | scripts/scrapeGuanyin.js:124 | trimming the start loses no non-whitespace text |
| Text.CollapseKeepsText | scripts/scrapeGuanyin.js:135 | collapsing whitespace loses no non-whitespace text and reorders nothing |
| Text.DigitValue | scripts/scrapeGuanyin.js:30 | a digit's value is below ten |
| Text.DigitChar | scripts/scrapeGuanyin.js:35 | the digit written for a value below ten reads back as that value |
| Text.FormatDecimal | scripts/scrapeGuanyin.js:35 | a number is written as a non-empty digit string without leading zero |
| Text.ParseFormat | scripts/scrapeGuanyin.js:30-35 | `parseInt` of the written number gives the number back |
| Text.FormatInjective | scripts/scrapeGuanyin.js:35 | different numbers are written differently |
| Text.ParseDecimal | scripts/scrapeGuanyin.js:30 | definition of `parseInt(d, 10)` on a digit run; specified by ParseFormat (parsing a printed number gives the number back) |
| Text.TrailingDigits | scripts/scrapeGuanyin.js:29 | `/(\d+)$/` takes the longest digit suffix of the text |
| Text.DigitRun | scripts/scrapeGuanyin.js:104 | `\d+` after a tag takes the maximal run of digits |
| ScrapeCommon.FindTagged | scripts/scrapeGuanyin.js:27 | the search for "tag then digits" finds the leftmost position where it occurs, or reports that it occurs nowhere |
| ScrapeCommon.RemoveTagged | scripts/scrapeGuanyin.js:104 | definition of `replace(/TAG\d+/, '')` at the leftmost match found by FindTagged; specified by RemoveTrailingTag |
| ScrapeCommon.RemoveTrailingTag | scripts/scrapeGuanyin.js:104 | removing the tag and its number from "poem, tag, number" leaves the poem, whenever no match of the tag starts inside the poem |
| ScrapeCommon.NoTagBeforeFromFirstChar | scripts/scrapeGuanyin.js:104 | a text without the tag's first character has no match of the tag inside it, a sufficient condition for RemoveTrailingTag |
| ScrapeCommon.BaseTitle | scripts/scrapeGuanyin.js:35 | definition of the standard title `第${index}籤`; specified by BaseTitleInjective |
| ScrapeCommon.BaseTitleInjective | scripts/scrapeGuanyin.js:35 | different indices give different titles 第N籤 |
| ScrapeCommon.LinkIndex | scripts/scrapeGuanyin.js:29-30 | definition: the trailing digit run parsed in base 10, 0 when there is none; specified by LinkIndexOfNumbered |
| ScrapeCommon.LinkIndexOfNumbered | scripts/scrapeGuanyin.js:29-30 | a text that ends in a printed number after a non-digit gives back exactly that number |
| ScrapeCommon.KeepLink | scripts/scrapeGuanyin.js:24-39 | an anchor is kept exactly when it has an href, its trimmed text holds the tag with a number, and its trailing number is in 1..100; the kept link has that url, text, index and the title 第N籤 |
| ScrapeCommon.KeptLinks | scripts/scrapeGuanyin.js:23-41 | no more links than anchors, each with an index in 1..100 and the standard title |
| ScrapeCommon.WellTitledSnoc | scripts/scrapeGuanyin.js:32-38 | appending a link with index 1..100 and title 第N籤 keeps the list well titled |
| ScrapeCommon.CollectLinks | scripts/scrapeGuanyin.js:23-41 | the anchor loop pushes exactly the kept links in page order |
| ScrapeCommon.IndicesSnoc | scripts/scrapeGuanyin.js:46-50 | appending a link adds its index to the set of indices |
| ScrapeCommon.FirstPos | scripts/scrapeGuanyin.js:47 | the first position of an index holds it and no earlier position does |
| ScrapeCommon.FirstPerIndex | scripts/scrapeGuanyin.js:44-51 | definition: the first link seen for each index, in the order first seen; specified by FirstPerIndexIndices, FirstPerIndexFirstSeen, FirstPerIndexOrder and FirstPerIndexSpec |
| ScrapeCommon.FirstPerIndexIndices | scripts/scrapeGuanyin.js:44-51 | de-duplication keeps one link per index and loses no index |
| ScrapeCommon.FirstPosSnoc | scripts/scrapeGuanyin.js:47 | appending a link does not move the first position of an index already present |
| ScrapeCommon.FirstPerIndexFirstSeen | scripts/scrapeGuanyin.js:44-51 | each kept link is the first link that carried its index |
| ScrapeCommon.FirstPerIndexOrder | scripts/scrapeGuanyin.js:44-51 | the kept links come in the order their indices first appeared |
| ScrapeCommon.FirstPerIndexSpec | scripts/scrapeGuanyin.js:44-51 | de-duplication keeps one link per index, loses no index, keeps the first link seen for each index, and keeps the order of first appearance |
| ScrapeCommon.DedupByIndex | scripts/scrapeGuanyin.js:44-51 | the `Set` and `push` loop computes exactly that de-duplication |
| ScrapeCommon.SwapKeepsMultiset | scripts/scrapeGuanyin.js:54 | exchanging two neighbours only permutes the links |
| ScrapeCommon.SwapStep | scripts/scrapeGuanyin.js:54 | swapping an out-of-place link with a larger predecessor keeps the rest of the prefix ordered |
| ScrapeCommon.SortedExceptDone | scripts/scrapeGuanyin.js:54 | once the moving link is no smaller than its predecessor, the prefix is ordered by index |
| ScrapeCommon.InsertDown | scripts/scrapeGuanyin.js:54 | one insertion pass extends the ordered prefix by one link and only permutes the array |
| ScrapeCommon.SortByIndex | scripts/scrapeGuanyin.js:54 | the in-place sort leaves the array ordered by index and a permutation of its old contents |
| ScrapeCommon.DistinctCountsOnce | scripts/scrapeGuanyin.js:44-54 | a list with distinct indices holds each link at most once |
| ScrapeCommon.RepeatCountsTwice | scripts/scrapeGuanyin.js:54 | a link at two positions is counted twice in the list's multiset |
| ScrapeCommon.SortedPermutationIncreasing | scripts/scrapeGuanyin.js:54 | sorting a list with distinct indices gives strictly increasing indices |
| ScrapeCommon.FirstPerIndexWellTitled | scripts/scrapeGuanyin.js:35-51 | de-duplication keeps every link's index range and standard title |
| ScrapeCommon.PermutationKeepsLinks | scripts/scrapeGuanyin.js:54 | a permutation keeps the set of indices and the standard titles |
| ScrapeCommon.UniqueSortedLinks | scripts/scrapeGuanyin.js:23-54 | the list pipeline yields strictly increasing indices, exactly the first link per index of the kept links, every index that was kept, all titled 第N籤 with N in 1..100 |
| ScrapeCommon.FirstListedAt | scripts/scrapeGuanyin.js:88 | at one position, the alternation picks the first listed keyword that occurs there |
| ScrapeCommon.FindKeyword | scripts/scrapeGuanyin.js:88 | the match is at the leftmost position where any keyword occurs, with the first listed keyword there, or none occurs anywhere |
| ScrapeCommon.KeywordLevel | scripts/scrapeGuanyin.js:88-91 | the level is a listed keyword or empty, empty exactly when no keyword occurs in the page text, and otherwise the keyword of the leftmost match, the first listed one at that position |
| ScrapeCommon.CleanExplain | scripts/scrapeGuanyin.js:134-136 | the cleaned explanation has no line break and no two adjacent whitespace characters, stays trimmed, and is empty exactly when the input is |
| ScrapeCommon.SpacedKeepsSpace | scripts/scrapeGuanyin.js:135 | turning line breaks into spaces keeps the length and keeps each character white space or not |
| ScrapeCommon.CollapseAcrossRun | scripts/scrapeGuanyin.js:135 | a white-space run between two pieces of text collapses to one space with each piece collapsed on its own |
| ScrapeCommon.CleanExplainRun | scripts/scrapeGuanyin.js:134-136 | each white-space run between two pieces, line breaks included, becomes exactly one space, and each piece is cleaned on its own |
| ScrapeCommon.CleanExplainSingle | scripts/scrapeGuanyin.js:134-136 | a single non-space character is clean already |
| ScrapeCommon.CleanExplainKeepsWordBreak | scripts/scrapeGuanyin.js:134-136 | "a", a line break, "b" is cleaned to "a b": the words are neither joined nor further apart |
| ScrapeCommon.SqueezeReplaceNewlines | scripts/scrapeGuanyin.js:135 | turning line breaks into spaces loses no non-whitespace text |
| ScrapeCommon.CleanExplainKeepsText | scripts/scrapeGuanyin.js:134-136 | the clean-up keeps all non-whitespace text, in order |
| ScrapeCommon.CleanExplainIdempotent | scripts/scrapeGuanyin.js:134-136 | cleaning twice equals cleaning once |
| ScrapeCommon.SingleSpacedTail | scripts/scrapeGuanyin.js:135 | a suffix of a single-spaced text is single-spaced |
| ScrapeCommon.CollapseSingleSpaced | scripts/scrapeGuanyin.js:135 | collapsing a single-spaced text changes nothing |
| ScrapeCommon.Mapped | scripts/scrapeGuanyin.js:66-159 | a detail loop that pushes one entry per link, placeholder or not, yields as many entries as links |
| ScrapeCommon.MappedPointwise | scripts/scrapeGuanyin.js:66-159 | the entry at each position is built from the link at that position and its page |
| ScrapeMazu.AbsoluteUrl | scripts/scrapeMazu.js:29 | an href starting with `http` is kept, any other gets `BASE_URL` in front, and the result always starts with `http` |
| ScrapeMazu.AbsoluteUrlIdempotent | scripts/scrapeMazu.js:29 | absolutising twice equals absolutising once |
| ScrapeMazu.KeptMazuLinks | scripts/scrapeMazu.js:23-33 | no more links than anchors, each with an absolute URL and a trimmed title |
| ScrapeMazu.AllHrefsKept | scripts/scrapeMazu.js:27 | when every anchor has an href, every anchor gives a link |
| ScrapeMazu.CollectMazuLinks | scripts/scrapeMazu.js:23-33 | the anchor loop pushes exactly those links in page order |
| ScrapeMazu.WellFormedLinksSnoc | scripts/scrapeMazu.js:27-32 | appending a link with an absolute URL and a trimmed title keeps every link well formed |
| ScrapeMazu.KeysSnoc | scripts/scrapeMazu.js:36 | setting one more value adds exactly its key to the keys present |
| ScrapeMazu.KeyPos | scripts/scrapeMazu.js:36 | the `Map` lookup finds a position holding the key, or the key is absent from the map |
| ScrapeMazu.LastKeyPos | scripts/scrapeMazu.js:36 | the last position of a key holds it and no later position does |
| ScrapeMazu.FirstKeyPos | scripts/scrapeMazu.js:36 | the first position of a key holds it and no earlier position does |
| ScrapeMazu.MapSet | scripts/scrapeMazu.js:36 | definition of `Map.set`: an existing key keeps its place and takes the new value, a new key goes last; specified by MapSetShape, MapSetDistinct and MapSetEntries |
| ScrapeMazu.MapValues | scripts/scrapeMazu.js:36 | definition: the values of a `Map` after setting each element in order; specified by MapValuesKeys, MapValuesDistinct, MapValuesLast and MapValuesOrder |
| ScrapeMazu.MapSetShape | scripts/scrapeMazu.js:36 | one `Map.set` adds its key to the keys, keeps every old key in its place, and appends only a key that was absent |
| ScrapeMazu.MapSetDistinct | scripts/scrapeMazu.js:36 | one `Map.set` keeps the keys distinct |
| ScrapeMazu.MapSetEntries | scripts/scrapeMazu.js:36 | after one `Map.set` the value under its key is the new one and every other value is unchanged in its place |
| ScrapeMazu.MapValuesKeys | scripts/scrapeMazu.js:36 | the map holds exactly the keys of the inserted values, with no more entries than values |
| ScrapeMazu.MapValuesDistinct | scripts/scrapeMazu.js:36 | the map holds one value per key |
| ScrapeMazu.LastKeyPosSnoc | scripts/scrapeMazu.js:36 | appending a value with another key does not move the last position of a key |
| ScrapeMazu.FirstKeyPosSnoc | scripts/scrapeMazu.js:36 | appending a value does not move the first position of a key already present |
| ScrapeMazu.FirstKeyOrderSnoc | scripts/scrapeMazu.js:36 | appending a value keeps the first-appearance order of two keys already present and puts a new key after every old one |
| ScrapeMazu.MapValuesLast | scripts/scrapeMazu.js:36 | each value held is the last one inserted under its key |
| ScrapeMazu.InFirstSetOrderSnoc | scripts/scrapeMazu.js:36 | a step that keeps every old key in place and appends only a new key keeps the values in the order their keys were first set |
| ScrapeMazu.MapValuesOrder | scripts/scrapeMazu.js:36 | `values()` iterates in the order each key was first set, not the order it was last set |
| ScrapeMazu.UniqueByUrl | scripts/scrapeMazu.js:36 | definition: MapValues keyed by URL; specified by UniqueByUrlSpec |
| ScrapeMazu.UniqueByUrlSpec | scripts/scrapeMazu.js:36 | URL de-duplication leaves one entry per URL and loses none, no more entries than links, each the last link with its URL, ordered by first appearance |
| ScrapeMazu.CleanMazuPoem | scripts/scrapeMazu.js:90-92 | an empty poem or one with a line break is kept; a one-line poem loses every full stop and has every comma turned into a line break, and no comma or full stop remains |
| ScrapeMazu.CleanMazuPoemLines | scripts/scrapeMazu.js:90-92 | on a one-line poem every character other than a full stop survives in order, a comma as a line break, and the result holds nothing else |
| ScrapeMazu.CleanMazuPoemIdempotent | scripts/scrapeMazu.js:90-92 | cleaning the poem twice equals cleaning it once |
| ScrapeMazu.RemoveMarker | scripts/scrapeMazu.js:87 | without 解曰 the text is unchanged; otherwise the first 解曰 is cut out together with exactly one following colon (full-width or ASCII) when there is one, and the text before and after is kept |
| ScrapeMazu.CleanMazuExplain | scripts/scrapeMazu.js:87 | without the 解曰 marker the explanation is just trimmed, and a non-empty explanation comes out trimmed |
| ScrapeMazu.LeadingMarkerStripped | scripts/scrapeMazu.js:87 | a leading 解曰 without a colon is removed and the rest trimmed |
| ScrapeMazu.LeadingMarkerColonStripped | scripts/scrapeMazu.js:87 | a leading 解曰： or 解曰: is removed with its colon and the rest trimmed |
| ScrapeMazu.MazuEntryFields | scripts/scrapeMazu.js:58-100 | an entry's title is the trimmed heading, else the link's title; its level is empty; its poem is the cleaned raw poem; its explanation is trimmed |
| ScrapeMazu.MazuEntry | scripts/scrapeMazu.js:58-100 | definition of the entry pushed at line 95; specified by MazuEntryFields |
| ScrapeMazu.TrimAll | scripts/scrapeMazu.js:71 | every poem block is trimmed, one result per block, in order |
| ScrapeMazu.RawPoem | scripts/scrapeMazu.js:66-74 | no poem element gives the empty poem; no blocks gives the trimmed text; one block gives that block trimmed, or the trimmed text when the block trims to nothing; two or more blocks give the trimmed blocks joined by newlines, which is never empty, so the fallback is not taken |
| ScrapeMazu.Skipping | scripts/scrapeMazu.js:48-107 | the skip-on-failure accumulation never yields more entries than links |
| ScrapeMazu.SkippingAllFetched | scripts/scrapeMazu.js:48-107 | when every page is read nothing is skipped: one entry per link, each built from that link and its page, in link order |
| ScrapeMazu.MazuEntries | scripts/scrapeMazu.js:48-107 | the Mazu detail loop is the skip-on-failure accumulation of `MazuEntry`, so there are never more entries than unique links |
| ScrapeMazu.MazuEntriesAllFetched | scripts/scrapeMazu.js:48-107 | when every page loads, there is exactly one entry per link, in link order |
| ScrapeMazu.ScrapeDetails | scripts/scrapeMazu.js:48-107 | the detail loop computes exactly those entries |
| ScrapeMazu.ClosingEnd | scripts/scrapeMazu.js:135-141 | the scan end lies within the text, the count stays at least 1 before it, and it is the end of the text or the count is 0 there |
| ScrapeMazu.FindDataEnd | scripts/scrapeMazu.js:135-141 | the `while` loop stops where `ClosingEnd` says, between `dataStart+7` and the end of the text, so it terminates |
| ScrapeMazu.DepthOfPrefix | scripts/scrapeMazu.js:137-140 | the count after part of a bracket-balanced text is 1 plus the balance of that part |
| ScrapeMazu.Depth | scripts/scrapeMazu.js:135-141 | definition: the bracket depth after scanning a prefix from the opened `[`; specified by DepthOfPrefix, ClosingEnd and FindDataEnd |
| ScrapeMazu.Splice | scripts/scrapeMazu.js:143-145 | definition: the text before `data: [`, `data: ` and the new array, then the text after the scan stopped; specified by SpliceReplacesArray |
| ScrapeMazu.SpliceReplacesArray | scripts/scrapeMazu.js:143-145 | when the array after `data: [` is balanced, the splice keeps the text before `data: [` and after its matching `]` and puts `data: ` and the new JSON in between |
| ScrapeMazu.RewriteSpec | scripts/scrapeMazu.js:126-145 | a missing `mazu: {` or a missing `data: [` after it is an error; otherwise the result is the splice at the first `data: [` after `mazu: {` |
| ScrapeMazu.RewriteDatabase | scripts/scrapeMazu.js:126-145 | the file rewrite computes exactly `RewriteSpec` |
| ScrapeMazu.ScrapeMazu | scripts/scrapeMazu.js:20-147 | no links means nothing is written; a missing marker means an error and nothing written; otherwise the file holds the spliced JSON of all scraped entries |
| ScrapeGuanyin.KeywordsNonEmpty | scripts/scrapeGuanyin.js:88 | no alternative of the level expression is empty |
| ScrapeGuanyin.GuanyinPoem | scripts/scrapeGuanyin.js:104-106 | the poem has no `，`, `,`, `。` or `.` |
| ScrapeGuanyin.GuanyinPoemOfLinkText | scripts/scrapeGuanyin.js:104-106 | for link text "poem, tag, number" the poem is the trimmed text before the tag with commas made line breaks and full stops dropped, whenever no match of the tag starts inside the poem |
| ScrapeGuanyin.RawExplain | scripts/scrapeGuanyin.js:122-131 | the 解曰 capture, else the 整體解譯 capture, else empty, is trimmed |
| ScrapeGuanyin.GuanyinEntryFields | scripts/scrapeGuanyin.js:88-157 | every entry keeps the link's title; a failed page gives the placeholder; otherwise the level is the keyword of the leftmost match, the first listed one at that position (empty exactly when none occurs), the poem has no comma or full stop, and the explanation is clean |
| ScrapeGuanyin.GuanyinEntry | scripts/scrapeGuanyin.js:66-157 | definition of one entry, from a read page or the placeholder; specified by GuanyinEntryFields |
| ScrapeGuanyin.ScrapeDetails | scripts/scrapeGuanyin.js:66-159 | the loop computes `Mapped` of `GuanyinEntry`: exactly one entry per link, in link order, placeholders included |
| ScrapeGuanyin.ScrapeGuanyin | scripts/scrapeGuanyin.js:23-159 | the links are the sorted first-per-index kept links; no kept link means no run; otherwise one entry per link in order |
| ScrapeGuanyin.ScrapedTitles | scripts/scrapeGuanyin.js:35-159 | the entries carry the titles 第N籤 with N in 1..100, pairwise distinct |
| ScrapeGuandi.KeywordsNonEmpty | scripts/scrapeGuandi.js:103 | no alternative of the fallback level expression is empty |
| ScrapeGuandi.GanzhiTitleExtendsBase | scripts/scrapeGuandi.js:99 | the Ganzhi title is the base title 第N籤 followed by 【stems】 |
| ScrapeGuandi.GanzhiTitle | scripts/scrapeGuandi.js:99 | definition of `第${index}籤【${ganzhi}】`; specified by GanzhiTitleExtendsBase and NumberedTitlesDiffer |
| ScrapeGuandi.NumberOfTitle | scripts/scrapeGuandi.js:35-99 | a title 第, number, 籤... determines its number |
| ScrapeGuandi.NumberedTitlesDiffer | scripts/scrapeGuandi.js:35-99 | two such titles that are equal carry the same number |
| ScrapeGuandi.GuandiPoem | scripts/scrapeGuandi.js:115-118 | the poem has no comma or full stop and is trimmed |
| ScrapeGuandi.StripTrailingNewline | scripts/scrapeGuandi.js:118 | `/\n$/` removes one trailing line break when there is one, and otherwise changes nothing |
| ScrapeGuandi.StripAfterTrim | scripts/scrapeGuandi.js:116-118 | after `trim()` the trailing-line-break removal has nothing to remove |
| ScrapeGuandi.GuandiPoemOfLinkText | scripts/scrapeGuandi.js:115-118 | for link text "poem, tag, number" the poem is the trimmed text before the tag with commas and full stops made line breaks, trimmed again, whenever no match of the tag starts inside the poem |
| ScrapeGuandi.RawExplain | scripts/scrapeGuandi.js:127-136 | the 聖意 capture, else the 解曰 capture, else empty, is trimmed |
| ScrapeGuandi.GuandiEntryFields | scripts/scrapeGuandi.js:79-160 | a failed page gives the placeholder with the base title; a title-line match gives 第N籤【stems】 and the trimmed token as level; without it the base title stays and the level is the keyword of the leftmost match, the first listed one at that position, or empty exactly when none occurs; the poem and explanation are clean |
| ScrapeGuandi.TitleAndLevel | scripts/scrapeGuandi.js:79-107 | definition of the title and level a read page gives; specified by GuandiEntryFields and SelectedTitleNumbered |
| ScrapeGuandi.GuandiEntry | scripts/scrapeGuandi.js:66-160 | definition of one entry, from a read page or the placeholder; specified by GuandiEntryFields and EntryTitleNumbered |
| ScrapeGuandi.ScrapeDetails | scripts/scrapeGuandi.js:66-162 | the loop computes `Mapped` of `GuandiEntry`: exactly one entry per link, in link order, placeholders included |
| ScrapeGuandi.ScrapeGuandi | scripts/scrapeGuandi.js:23-162 | the links are the sorted first-per-index kept links; no kept link means no run; otherwise one entry per link in order |
| ScrapeGuandi.TitleTail | scripts/scrapeGuandi.js:79-99 | what follows the number in an entry's title starts with 籤 |
| ScrapeGuandi.SelectedTitleNumbered | scripts/scrapeGuandi.js:79-100 | a loaded page's title is 第, the link's number, then a part starting with 籤 |
| ScrapeGuandi.EntryTitleNumbered | scripts/scrapeGuandi.js:79-160 | every entry's title, placeholder or not, is 第, the link's number, then a part starting with 籤 |
| ScrapeGuandi.ScrapedTitlesDistinct | scripts/scrapeGuandi.js:66-162 | the entries of a run have pairwise distinct titles, with or without Ganzhi |

## Left out

- The JSX markup, the SVG cylinder and sticks, and the Tailwind class strings. The level colours and the button variants are enumerations.
- The presentational components `DeityCard`, `Header` and `SelectionMenu`. Only the back button's visibility and the menu/scene choice are modelled.
- src/data/fortuneDatabase.js is not part of this model. The database is a map from key to a deity record holding a name and a list of fortunes.
- Real timers: `setTimeout` callbacks are pending entries in two queues that fire as explicit events. The durations are the functions `ShakeDelayMs` and the constant `DropDelayMs`.
- `Math.random` and floating point: the random number is a real input in [0, 1), and `Math.floor` is Dafny's `Floor` on reals.
- React's rendering and batching: each handler's `set...` calls take effect together when the handler returns.
- The `useEffect` dependency on the deity object's identity: any deity change, modelled as the `NewDeity` event, runs `reset`.
- `toPng`, the download link, `window.open`, `document.write`, `console.error` and `alert` in the modal. Each attempt's outcome is a `SaveOutcome` input, and the visible effect is a `SaveEffect` value.
- The `await` between the click and the settling of a save: they are two methods, `HandleSaveImage` and `SaveSettled`.
- axios, cheerio, the CSS selectors and `fs` in the scrapers. The list page is a sequence of anchors, a detail page is a record of the texts the selectors return, and a failed request or parse is `None`.
- The debug files written on the first page or on an empty list, the console messages, and the 500 ms pause between requests.
- The regular-expression captures over page text: the Guanyin 解曰 and 整體解譯 captures, the Guandi title line and its 聖意 and 解曰 captures. They are optional strings in the page records. The level alternations of both scrapers are modelled as keyword searches.
- The Guanyin and Guandi database rewrite (scripts/scrapeGuanyin.js:161-185, scripts/scrapeGuandi.js:164-179). It is a lazy regular-expression replacement whose match ends at the first `]` after `data:`.
- `JSON.stringify`: it is the input `stringify` of `ScrapeMazu.ScrapeMazu`. The unused `newDataString` of scripts/scrapeMazu.js:122 is not modelled.
- The `split('。')` of the link text in both scrapers: the code only checks that its result has at least one part, which always holds.
- The engine's sorting algorithm: `SortByIndex` is an insertion sort with the same result. The sort runs only on the de-duplicated list, so the comparator `a.index - b.index` never meets two equal indices and stability does not matter.
- ScrapeMazu.RewriteSpec: the `data: [` search starts at `mazu: {` but is not confined to the mazu section, as in the code; the model does not claim the splice stays inside that section.
- ScrapeMazu.MazuEntries: its own contract states only the bound; the per-entry content is in `MazuEntryFields` and `MazuEntriesAllFetched`.
- ScrapeMazu.CleanMazuExplain: the contract covers the no-marker case and trimming; the leading-marker cases are the lemmas `LeadingMarkerStripped` and `LeadingMarkerColonStripped`. A marker elsewhere in the text is cut by `RemoveMarker`, whose contract states what goes; `CleanMazuExplain` itself does not restate that.
