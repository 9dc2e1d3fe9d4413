# Little Lemon — a verified model of the app's core

Little Lemon is a React Native restaurant app. On first launch a user
onboards with a first name and an e-mail address. After that the app opens
on tabs: a Home screen that lists the menu, and a Profile screen.

The menu comes from a remote JSON feed once and is cached in an on-device
SQLite table. It is then searched by name and filtered by category. The
session keys (`LoggedIn`, `IsFirstTime`) and the profile record live in
the device's key-value storage.

This project models that core in Dafny:

- `common.dfy` (`Common`): option and result types, and the subsequence order.
- `utils.dfy` (`Utils`): the three validators, the skip-first-run effect flag (`UpdateEffect`), and the `ProfileData` record.
  - The name and phone validators are proved equal to plain character-class statements.
  - The e-mail validator cuts the address at its last `@`, then cuts each side at its dots.
  - Each alternative of the app's regular expression is also written out in the expression's own shape: words glued with dots, labels each followed by a dot, four digit groups in brackets.
  - Proofs show each dot-cutting check accepts exactly what its expression-shaped reading accepts. So the validator accepts exactly the addresses the whole anchored expression matches.
- `database.dfy` (`Database`): the `menu` table as a `MenuTable` object, with create, select, batch insert and the filter query.
  - Two SQLite behaviours are written out: rowid assignment, and `LIKE` with `%`/`_` and ASCII case folding.
  - The filter's `name like '%q%'` is proved to be a case-insensitive substring test. Its result is proved to be exactly the matching rows, in storage order.
- `session_store.dfy` (`SessionStore`): the key-value storage as a `KeyValueStore` object over a map. A store that is unavailable rejects every call.
- `home.dfy` (`Home`): the Home screen as a `HomeScreen` object.
  - The filter vector and how it is toggled.
  - The active-category rule: all sections when nothing is selected, otherwise the selected ones in order.
  - The local-first bootstrap, and the re-query that runs on every later change of search text or filter.
- `app.dfy` (`App`): the start-up check as a function and as the `AppState` object's method, plus the two initial routes.
- `onboarding.dfy` (`Onboarding`): the Next-enable rule, the validation messages, and the two store writes of `onClicked`.
- `profile.dfy` (`Profile`): the nine-field `ProfileScreen` form.
  - Load, save, logout, discard, the four check boxes, Remove and image change.
  - The Save-enable rule.
- `session.dfy` (`Session`): lemmas about the screens in sequence.
  - Onboarding followed by start-up.
  - Logout followed by start-up.
  - The profile screen after onboarding.

Two behaviours of the code are worth knowing:

- The search is case-insensitive for ASCII letters, because SQLite's default `LIKE` folds ASCII case.
- An empty category list makes the filter statement end in `(category = )`. That statement cannot be prepared, so the filter rejects it rather than answering with no rows. `Home.ActiveCategoriesNonEmpty` shows the Home screen never sends an empty list.

## Model

| member | source | states |
|---|---|---|
| Utils.AllIn | littlelemon/utils/index.tsx:10 | a `[class]*` run holds exactly when every character of the text is in the class |
| Utils.TrimStart | littlelemon/utils/index.tsx:10 | `trimStart()` drops exactly the leading JavaScript white space: what it removes is white space, and what remains starts with a non-blank |
| Utils.TrimEnd | littlelemon/utils/index.tsx:10 | `trimEnd()` drops exactly the trailing JavaScript white space: what it removes is white space, and what remains ends with a non-blank |
| Utils.Trim | littlelemon/utils/index.tsx:10 | `trim()` gives the empty text exactly for texts made only of JavaScript white space |
| Utils.ValidateString | littlelemon/utils/index.tsx:9-11 | a name is valid iff it is non-empty and every character is an ASCII letter (the trim test adds nothing) |
| Utils.ValidatePhoneNumber | littlelemon/utils/index.tsx:13-17 | a phone number is valid iff it is exactly ten ASCII digits |
| Utils.Split | littlelemon/utils/index.tsx:5 | cutting at a separator gives at least one piece, none holding the separator |
| Utils.JoinOfSplit | littlelemon/utils/index.tsx:5 | gluing the pieces back with the separator gives the text |
| Utils.SplitOfSeparated | littlelemon/utils/index.tsx:5 | cutting a separator-free piece, a separator and a tail gives the piece followed by the tail's pieces |
| Utils.SplitOfJoin | littlelemon/utils/index.tsx:5 | cutting a joined list of separator-free pieces gives the list back |
| Utils.JoinShape | littlelemon/utils/index.tsx:5 | joining non-empty pieces gives no leading, trailing or doubled separator |
| Utils.LastIndexOf | littlelemon/utils/index.tsx:5 | finds the last occurrence of a character, or reports that there is none |
| Utils.DotSeparatedMatchesPattern | littlelemon/utils/index.tsx:5 | the split-based check of `atom(\.atom)*` accepts exactly the texts that are non-empty atoms joined by dots |
| Utils.DotSeparatedHasNoStrayDot | littlelemon/utils/index.tsx:5 | a dot-separated local part has no leading, trailing or doubled dot |
| Utils.IsQuotedLocal | littlelemon/utils/index.tsx:5 | a quoted local part (`\".+\"`) never also reads as a dot-separated one: the two local-part alternatives are disjoint |
| Utils.LocalPartMatchesPattern | littlelemon/utils/index.tsx:5 | the recogniser's local part is exactly the expression's `atom(\.atom)*` or quoted alternative |
| Utils.AddressLiteralMatchesPattern | littlelemon/utils/index.tsx:5 | the dot-cutting address-literal check accepts exactly the texts `[d.d.d.d]` with each `d` one to three digits |
| Utils.DotTerminatedJoin | littlelemon/utils/index.tsx:5 | labels each followed by a dot, then a last word, is the labels and the word glued with dots |
| Utils.HostNameMatchesPattern | littlelemon/utils/index.tsx:5 | the dot-cutting host-name check accepts exactly the texts `([a-zA-Z\-0-9]+\.)+[a-zA-Z]{2,}` matches |
| Utils.DomainMatchesPattern | littlelemon/utils/index.tsx:5 | the recogniser's domain is exactly the expression's address-literal or host-name alternative |
| Utils.DomainShape | littlelemon/utils/index.tsx:5 | every domain the pattern accepts (address literal or host name) holds a dot and no '@' |
| Utils.CutAtLast | littlelemon/utils/index.tsx:5 | an '@' with no '@' after it is the last one |
| Utils.EmailCutIsLast | littlelemon/utils/index.tsx:5 | since no domain holds '@', the pattern matches iff the cut at the last '@' gives a local part and a domain |
| Utils.ValidateEmail | littlelemon/utils/index.tsx:3-7 | an address is accepted iff the whole anchored expression matches it: at some '@', the part before reads as a local-part alternative and the part after as a domain alternative |
| Utils.EmptyIsNotLocalPart | littlelemon/utils/index.tsx:5 | the empty text is not a local part |
| Utils.AcceptedEmailShape | littlelemon/utils/index.tsx:5 | an accepted address has a non-empty part before its last '@', and a dot after it |
| Utils.UnquotedLocalPartDots | littlelemon/utils/index.tsx:5 | an unquoted local part is non-empty and has no leading, trailing or doubled dot |
| Utils.UpdateEffect.constructor | littlelemon/utils/index.tsx:20 | the hook starts in its initial-mount state |
| Utils.UpdateEffect.Invoke | littlelemon/utils/index.tsx:22-28 | the wrapped effect runs iff this is not the first run; after any run the hook is past its first run |
| Database.Items | littlelemon/database.tsx:23-24 | the rows' items, one per row, in order |
| Database.MaxId | littlelemon/database.tsx:10 | the largest rowid in use (0 for none), bounding every id and attained by a row |
| Database.Numbered | littlelemon/database.tsx:37-40 | the rows a batch insert appends: one per item, the i-th item under rowid start + i |
| Database.NumberedShape | littlelemon/database.tsx:37-40 | the appended rows carry exactly the items in order, under strictly ascending (so distinct) rowids |
| Database.AppendRow | littlelemon/database.tsx:10 | a row whose id exceeds all ids in use keeps ids strictly ascending (unique) and becomes the maximum |
| Database.Like | littlelemon/database.tsx:56 | a pattern without `%` matches only texts of its own length: each `_` or other character takes exactly one character |
| Database.LikePattern | littlelemon/database.tsx:57 | the bound `%query%` matches exactly the names that contain the query, ignoring ASCII case, when the query has no `%` or `_` |
| Database.LikeAnything | littlelemon/database.tsx:57 | the pattern `%` matches every text |
| Database.LikePrefix | littlelemon/database.tsx:57 | `q%` with a wildcard-free `q` matches exactly the texts that start with `q`, ignoring ASCII case |
| Database.LikeLeadingPercent | littlelemon/database.tsx:57 | a leading `%` lets the rest of the pattern match any suffix |
| Database.LikeIsSubstring | littlelemon/database.tsx:56-57 | `name like '%q%'` holds iff `q` occurs in the name, ignoring ASCII case, when `q` has no `%` or `_` |
| Database.OccurrencesAppend | littlelemon/database.tsx:55 | counting a character over a concatenation adds the counts |
| Database.Placeholders | littlelemon/database.tsx:55 | the joined placeholder list has exactly one `?` per category and is empty exactly for no categories |
| Database.FilterStatement | littlelemon/database.tsx:55-57 | the statement has one `?` per bound argument (pattern plus categories); with no categories it ends in `(category = )` |
| Database.RowMatches | littlelemon/database.tsx:56 | under an empty search (`%%`) a row matches exactly when its category is listed |
| Database.Matching | littlelemon/database.tsx:56-59 | the filter's rows are a subsequence of the table: all rows that satisfy the where clause, and only those, in storage order |
| Database.MenuTable.constructor | littlelemon/database.tsx:3 | a freshly opened database has no menu table and no rows |
| Database.MenuTable.CreateTable | littlelemon/database.tsx:5-18 | afterwards the table exists, and existing rows and the next rowid are kept (`if not exists`) |
| Database.MenuTable.GetMenuItems | littlelemon/database.tsx:20-31 | answers every row in storage order, or rejects when the table is missing |
| Database.MenuTable.Insert | littlelemon/database.tsx:38-43 | appends the item under the next rowid, or rejects and changes nothing when the table is missing |
| Database.MenuTable.InsertEach | littlelemon/database.tsx:37-44 | inserts every item in order under consecutive rowids; some insert fails iff the table is missing and there is an item |
| Database.MenuTable.SaveMenuItems | littlelemon/database.tsx:33-50 | appends every item in order under consecutive rowids, keeping ids unique; rejects iff the table is missing and there is at least one item |
| Database.MenuTable.FilterByQueryAndCategories | littlelemon/database.tsx:52-66 | rejects an empty category list as a syntax error, and a missing table; otherwise answers exactly the rows whose name is like `%query%` and whose category is listed |
| SessionStore.Lookup | littlelemon/App.tsx:24-25 | a key's value when present, and nothing exactly when it is absent |
| SessionStore.KeyValueStore.constructor | littlelemon/App.tsx:24 | the store starts with the given contents and availability |
| SessionStore.KeyValueStore.GetItem | littlelemon/App.tsx:24 | answers the key's value, or nothing for a missing key; rejects when storage is unavailable |
| SessionStore.KeyValueStore.SetItem | littlelemon/App.tsx:31 | replaces the key's value and keeps every other key; rejects and changes nothing when unavailable |
| SessionStore.KeyValueStore.Clear | littlelemon/screens/Profile.tsx:78 | removes every key; rejects and changes nothing when unavailable |
| Home.InitialSelections | littlelemon/screens/Home.tsx:19-21 | one flag per section, all unselected |
| Home.Toggled | littlelemon/screens/Home.tsx:111-115 | the new vector flips exactly the pressed entry and keeps the length |
| Home.ToggleTwice | littlelemon/screens/Home.tsx:111-115 | pressing the same filter twice restores the vector |
| Home.AllFalse | littlelemon/screens/Home.tsx:94 | `every(item === false)` holds exactly when no flag is set |
| Home.FilterSections | littlelemon/screens/Home.tsx:93-98 | keeps, in order, exactly the sections that are kept by the predicate (all of them when every flag is off) |
| Home.ActiveCategories | littlelemon/screens/Home.tsx:93-98 | all sections when nothing is selected; otherwise exactly the selected sections, in section order |
| Home.ActiveCategoriesNonEmpty | littlelemon/screens/Home.tsx:93-98 | with one flag per section the active list is never empty, so the filter's empty-list rejection is unreachable from Home |
| Home.SingleSelection | littlelemon/screens/Home.tsx:93-98 | selecting a single category queries that category alone |
| Home.OnlyOneKept | littlelemon/screens/Home.tsx:97 | with one flag set, filtering keeps exactly that section |
| Home.Requeried | littlelemon/screens/Home.tsx:93-104 | every item shown is in an active category; for a search text without `%` or `_`, the items shown are exactly those of the stored rows in an active category whose name contains the text, ignoring ASCII case |
| Home.HomeScreen.constructor | littlelemon/screens/Home.tsx:17-21 | first render: empty list, empty search, nothing selected, effect in its initial state |
| Home.HomeScreen.FetchData | littlelemon/screens/Home.tsx:34-50 | creates the table; a non-empty table is shown as stored and the feed is not asked; an empty one is filled from the feed and shows the feed's items; a feed failure changes nothing shown |
| Home.HomeScreen.RunUpdateEffect | littlelemon/screens/Home.tsx:91-109 | skipped on the first run; afterwards shows exactly the rows matching the search text and active categories, keeping the list when the query rejects |
| Home.HomeScreen.Mount | littlelemon/screens/Home.tsx:52-54 | mounting is the bootstrap followed by the skipped first run of the re-query |
| Home.HomeScreen.HandleFiltersChange | littlelemon/screens/Home.tsx:111-115 | installs the toggled vector and re-runs the query against it |
| Home.HomeScreen.HandleSearchChange | littlelemon/screens/Home.tsx:29-32 | sets the search text; the query re-runs only when the text changed |
| Home.MountTwice | littlelemon/screens/Home.tsx:34-50 | a second mount asks the feed only when the table started empty and the first feed answer was a failure or empty |
| App.StartupCheck | littlelemon/App.tsx:13-40 | logged in iff the checks succeed and `LoggedIn` is present; first time iff logged in and `IsFirstTime` absent, when `IsFirstTime` is recorded; no other key changes |
| App.StartupTwice | littlelemon/App.tsx:24-31 | of two start-ups in a row, whatever each one's font and storage outcome, at most one raises the first-time flag; after one that logged in, the next writes nothing; with the same outcomes the second repeats the first's flags |
| App.InitialRoute | littlelemon/App.tsx:46 | 'Main' iff logged in, 'OnBoarding' otherwise |
| App.TabInitialRoute | littlelemon/App.tsx:47 | 'Home' iff first time, 'Profile' otherwise |
| App.HomeTabOnlyWhenLoggedIn | littlelemon/App.tsx:46-47 | a start-up that picks the Home tab also picks the main tabs |
| App.AppState.constructor | littlelemon/App.tsx:9-11 | loading, not logged in, not first time |
| App.AppState.CheckIsLoggedIn | littlelemon/App.tsx:13-40 | the step-by-step check leaves loading off and the flags and store as the start-up function says |
| App.Launch | littlelemon/App.tsx:42-54 | a cold start hands the navigator the two routes of the start-up outcome |
| Onboarding.SubmitEnabled | littlelemon/screens/Onboarding.tsx:70 | Next is enabled iff the e-mail and the first name both pass their validators |
| Onboarding.FirstNameMessageShown | littlelemon/screens/Onboarding.tsx:56 | the first-name message shows iff the input is non-empty and has a non-letter |
| Onboarding.EmailMessageShown | littlelemon/screens/Onboarding.tsx:65 | the e-mail message shows iff the input is non-empty and not an address |
| Onboarding.DisabledIsExplained | littlelemon/screens/Onboarding.tsx:56-70 | a disabled Next over two filled inputs always shows a message; an empty input shows none |
| Onboarding.OnboardedProfile | littlelemon/screens/Onboarding.tsx:20-30 | the record holds the two inputs, and its empty last name and phone fail their validators, so it is not yet complete |
| Onboarding.SubmitEntries | littlelemon/screens/Onboarding.tsx:17-32 | afterwards `LoggedIn` is "true" and the profile holds the two inputs, an empty image, last name and phone, and all flags off; every other key (so `IsFirstTime`) is kept |
| Onboarding.OnboardingScreen.constructor | littlelemon/screens/Onboarding.tsx:10-11 | both inputs start empty |
| Onboarding.OnboardingScreen.OnClicked | littlelemon/screens/Onboarding.tsx:17-38 | the two writes leave the store as above, or reject and change nothing when storage is unavailable |
| Onboarding.OnboardingScreen.PressNext | littlelemon/screens/Onboarding.tsx:69-70 | a press submits iff Next is enabled; a disabled press changes nothing |
| Profile.CanSave | littlelemon/screens/Profile.tsx:269 | Save is enabled iff first name, last name, e-mail and phone all pass their validators |
| Profile.MessageShown | littlelemon/screens/Profile.tsx:191 | a message shows only for a non-empty invalid field |
| Profile.SavableShowsNoMessage | littlelemon/screens/Profile.tsx:185-228 | a savable form shows no validation message |
| Profile.Flipped | littlelemon/screens/Profile.tsx:232-251 | a check-box press flips its own flag and keeps every other field |
| Profile.FlipTwice | littlelemon/screens/Profile.tsx:232-251 | pressing a box twice restores the form |
| Profile.FlipKeepsSavable | littlelemon/screens/Profile.tsx:232-251 | a check-box press never changes whether Save is enabled |
| Profile.Loaded | littlelemon/screens/Profile.tsx:13-31 | with no stored record the form is kept |
| Profile.SavedEntries | littlelemon/screens/Profile.tsx:102-112 | the store afterwards holds the form, as a profile record, under `profileData`, and every other key is kept |
| Profile.SaveThenLoad | littlelemon/screens/Profile.tsx:17-26 | loading after a save yields the saved form, whatever the form was (round trip) |
| Profile.LoadTwice | littlelemon/screens/Profile.tsx:13-31 | loading twice is loading once |
| Profile.EmptyLastNameBlocksSave | littlelemon/screens/Profile.tsx:269 | a form with an empty last name or phone cannot be saved |
| Profile.ProfileScreen.constructor | littlelemon/screens/Profile.tsx:37-45 | empty texts, no image, all boxes unchecked |
| Profile.ProfileScreen.LoadProfileData | littlelemon/screens/Profile.tsx:13-31 | copies every field of the stored record into the form; a missing record changes nothing; a rejected read reports an error and changes nothing |
| Profile.ProfileScreen.OnSaveChanges | littlelemon/screens/Profile.tsx:100-117 | stores the nine form fields, the first name from `profileName`; rejects and changes nothing when unavailable |
| Profile.ProfileScreen.OnLogout | littlelemon/screens/Profile.tsx:76-83 | empties the store, so `LoggedIn`, `IsFirstTime` and `profileData` are all absent |
| Profile.ProfileScreen.OnDiscardChanges | littlelemon/screens/Profile.tsx:133-134 | discarding is reloading from the store |
| Profile.ProfileScreen.PressCheckBox | littlelemon/screens/Profile.tsx:232-251 | the form afterwards is the flipped form |
| Profile.ProfileScreen.Remove | littlelemon/screens/Profile.tsx:176 | the image becomes none and nothing else changes |
| Profile.ProfileScreen.ChangeImage | littlelemon/screens/Profile.tsx:52-63 | a picked image replaces the avatar; a cancelled pick changes nothing |
| Session.OnboardingThenStartup | littlelemon/App.tsx:24-31 | the first start-up after onboarding opens the main tabs on Home and records `IsFirstTime` |
| Session.LogoutThenStartup | littlelemon/App.tsx:24-26 | after logout the next start-up goes to onboarding and writes nothing |
| Session.StartupKeepsProfile | littlelemon/App.tsx:24-31 | the start-up check never changes what the profile screen loads |
| Session.OnboardingThenProfile | littlelemon/screens/Onboarding.tsx:20-32 | the profile screen after onboarding shows the inputs with empty last name and phone, and Save stays disabled |

## Left out

- The network request to the menu feed: its answer is the `fetched` parameter of `Home.HomeScreen.FetchData`, and a request or payload failure is `None`.
- The two-second splash delay and the font load. The font load's outcome is the `fontsLoaded` parameter of `App.AppState.CheckIsLoggedIn`.
- Asynchrony and interleaving: each handler runs to completion as one step.
  - `saveMenuItems` is not awaited in the bootstrap, so it may overlap a re-query; the model does not capture that.
  - Neither does an effect that starts before an earlier one ends.
- The 500 ms debounced second search write. It stores the same text again; with an unchanged text React does not re-run the effect, so it has no effect on the model.
- The confirmation dialogs: only the confirming "Yes" branch of save, logout and discard is modelled. "Cancel" changes nothing.
- Alerts, console logging and navigation resets. They only display or route, and do not change state.
- The image picker: its answer is the `picked` parameter of `Profile.ProfileScreen.ChangeImage`.
- The phone input's display mask: the field holds the raw digits the masked input reports.
- The Home header avatar that reads the stored profile (`littlelemon/screens/Home.tsx:56-89`). It only displays.
- JSON encoding: a stored profile record reads back as the same record.
  - Text stored under `profileData` that is not a record is treated like no record by `Profile.Loaded`; the app itself would try to parse it.
- Profile.Loaded: its contract states only the missing-record case. What a stored record loads is stated by `Profile.SaveThenLoad`, `Profile.ProfileScreen.LoadProfileData` and `Session.OnboardingThenProfile`.
- SQLite failures other than a missing table or an unpreparable statement (disk, locking, rowid exhaustion). Prices are kept as exact reals; there is no floating-point rounding.
- JavaScript strings are UTF-16. Characters here are Unicode scalar values, so the regular expressions' `.` and `\s` are stated over those.
- Storage failures are modelled per store (`available`), not per call.
- `littlelemon/components/` (buttons, check box, search bar, filter bar) and `littlelemon/AppNavigation.tsx` / `MainTabNavigator.tsx` are not part of this model beyond the handlers they call.
