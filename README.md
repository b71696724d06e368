# wtf (work-time-filler), modelled in Dafny

wtf fills Jira worklogs for the sprints a user works in. It collects time from several places:
- calendar meetings,
- GitHub activity, grouped into work sessions,
- hand-entered time.

It keeps everything in a local key/value store and moves each worklog through its life cycle:
1. `Created`: imported locally.
2. `Staged`: chosen for upload.
3. `Pushed`: accepted by Jira.

Each upload is recorded in a history, so it can be reverted later. Two front ends drive this core:
- a terminal UI with a step-by-step wizard (link meetings, create GitHub worklogs, fill gaps, review, push);
- CLI commands.

This project models that core as Dafny functions, methods and classes, and proves properties of the model.

Module map:
- **Values and storage**
  - `Model`: the stored entities.
  - `Tree`: an ordered tree of key/value pairs, one per store tree.
  - `Storage`: the database class `Storage.Db` with one field per tree.
  - `Lex` and `Text`: byte and character helpers.
  - `IssueKeys`: finding Jira issue keys in text.
  - `Numbers`, `Version` and `Duration`: parsing and formatting.
  - `Config`: secret encoding in the configuration file.
  - `Logger`: the in-memory message buffer the TUI shows (`CollectingLogger`).
- **Services**
  - `JiraService`: add and delete time, push a worklog.
  - `WorklogsService` and `WorklogBatches`: stage, reset, delete, history and revert.
  - `JiraTasks`: sprint and issue synchronisation.
  - `JiraComment`: worklog comments.
  - `GitHubClient`, `GitHubSessions` and `GitHubService`: events, sessions and syncing per sprint.
  - `Achievements`: the catalogue and the service.
  - `Branding`: text selection and categories.
- **Terminal UI**
  - `TuiTypes`: the event bus.
  - `TuiState`, `TuiData`, `Tabs`, `Navigation`, `UiHelpers` and `WizardPopup`: UI state and formatting.
  - `TuiWorklogs`, `GitHubOps` and `MeetingOps`: the UI's operations.
  - `WizardCore` and `Wizard`: the wizard's steps, record and rollback.
  - `AchievementTracking`: achievement triggers.
- **Command line**
  - `CliWorklog`: the `worklog` command family.

Modelling conventions:
- Instants are whole seconds since the Unix epoch. A day is `t / 86400` and its weekday is `(day + 3) % 7`, with 0 for Monday.
- Durations that the program keeps as floating-point hours are whole seconds here.
- A store tree is a sequence of key/value pairs, kept in byte-wise key order.
- Effects outside the program become parameters of the model:
  - Jira's replies to add-time and delete calls (`replies`);
  - the md5-derived identifiers (`idOf`);
  - the clock (`now`, today's date);
  - zlib decompression (`Inflate`);
  - the GitHub event pages (`Fetch`);
  - the random pick among texts.
- Regular expressions are hand-written scanners with the same leftmost-first matching.

## Model

| member | source | states |
|---|---|---|
| Tree.Get | wtf-lib/src/storage/database.rs:82-89 | a lookup finds a value exactly when some record has that key, and the value found is stored with it |
| Tree.ValuesAgreeWithGet | wtf-lib/src/storage/database.rs:82-126 | `get_all` and `get` agree on an ordered tree: the i-th value listed is what `get` returns for the i-th key, and whatever `get` finds is listed |
| Tree.Insert | wtf-lib/src/storage/database.rs:75-80 | the tree stays ordered, gains the new record, keeps every record with another key and nothing else |
| Tree.Remove | wtf-lib/src/storage/database.rs:91-95 | the tree stays ordered and holds exactly the records whose key differs |
| Tree.InsertAll | wtf-lib/src/storage/database.rs:128-139 | `save_all` keeps the tree ordered |
| Tree.GetInsertAll | wtf-lib/src/storage/database.rs:128-139 | after `save_all` a key holds the value of the last item with that key, or what it held before when no item has it |
| Tree.GetInsert | wtf-lib/src/storage/database.rs:75-89 | reading after an insert: the inserted key gives the new value, every other key what it gave before |
| Tree.GetRemove | wtf-lib/src/storage/database.rs:82-95 | reading after a remove: the removed key gives nothing, every other key what it gave before |
| Tree.RemoveAbsent | wtf-lib/src/storage/database.rs:91-95 | removing a key that is not stored changes nothing |
| Tree.Extensionality | wtf-lib/src/storage/database.rs:75-95 | two ordered trees that answer every lookup alike are the same tree |
| Tree.Distinct | wtf-lib/src/storage/database.rs:75-80 | an ordered tree holds one record per key |
| Storage.Db.constructor | wtf-lib/src/storage/database.rs:41-67 | a fresh store has every collection empty and keyed |
| Storage.InsertKeepsLocalsKeyed | wtf-lib/src/storage/database.rs:75-80 | saving a local worklog under its own id keeps the tree keyed by id |
| Model.BoardTypeFromStr | wtf-lib/src/models/data.rs:72-81 | a recognised board type is the one whose name was read |
| Model.BoardTypeRoundTrip | wtf-lib/src/models/data.rs:72-81 | only "scrum", "kanban" and "simple" are recognised, and each known type maps back to its own name |
| Model.JiraCandidates | wtf-lib/src/models/data.rs:157-178 | the keys of the attendee comments come first, then the title's, then the description's |
| Model.CandidatesKeepDuplicates | wtf-lib/src/models/data.rs:157-178 | candidates are not de-duplicated: a key in both title and description is listed twice, uppercased |
| Model.EventJiraIssues | wtf-lib/src/models/data.rs:336-348 | an empty field gives no issues; otherwise item i is the i-th comma-separated piece, trimmed |
| Model.EventJiraIssuesRoundTrip | wtf-lib/src/models/data.rs:336-348 | non-empty, comma-free items without surrounding blanks, joined with commas, are read back as exactly those items |
| Model.NewSession | wtf-lib/src/models/data.rs:370-393 | a session's date is the UTC day its start falls on |
| Model.SessionJiraIssues | wtf-lib/src/models/data.rs:395-401 | the issue list joins back to the stored field; an empty field gives none |
| Model.SessionEventIds | wtf-lib/src/models/data.rs:403-409 | the event-id list joins back to the stored field; an empty field gives none |
| Model.SessionRoundTrip | wtf-lib/src/models/data.rs:370-409 | issues and event ids given to `new` read back exactly, when they are non-empty and hold no comma |
| Model.DayOf | wtf-lib/src/models/data.rs:380 | `date_naive` gives the day whose 86400 seconds contain the instant |
| IssueKeys.ClassRun | wtf-lib/src/services/jira_service.rs:20 | the letter run is the longest prefix of class letters: every character before it is one and the next is not |
| IssueKeys.DigitRun | wtf-lib/src/services/jira_service.rs:20 | the digit run is the longest prefix of ASCII digits |
| IssueKeys.LetterMatchSound | wtf-lib/src/services/jira_service.rs:20 | a successful greedy match at the start of the text has the letters-hyphen-digits shape and takes every digit that follows the hyphen |
| IssueKeys.LetterKeysAreKeys | wtf-lib/src/services/jira_service.rs:272-277 | every match `find_iter` returns has the letters-hyphen-digits shape |
| IssueKeys.LetterKeysFound | wtf-lib/src/services/jira_service.rs:261-263 | the scan finds a match exactly when some slice of the text is letters, a hyphen and digits (both directions) |
| IssueKeys.FoundSlice | wtf-lib/src/services/jira_service.rs:272-277 | a found match is a key slice of the text at some position |
| IssueKeys.SliceIsFound | wtf-lib/src/services/jira_service.rs:261-263 | a key slice anywhere in the text makes the scan find at least one match |
| IssueKeys.NoHyphenNoKeys | wtf-lib/src/services/jira_service.rs:20 | a text without a hyphen has no matches |
| IssueKeys.SkipToGap | wtf-lib/src/services/jira_service.rs:272-277 | a hyphen-free prefix ending at a separator contributes no match: the matches are those after the separator |
| IssueKeys.MatchShape | wtf-lib/src/services/jira_service.rs:20 | letters, a hyphen and digits not followed by a digit are matched exactly up to the last digit |
| IssueKeys.KeysHead | wtf-lib/src/services/jira_service.rs:272-277 | a match at the very start is the first match and scanning resumes after it |
| IssueKeys.KeyThen | wtf-lib/src/services/jira_service.rs:272-277 | a key followed by a non-digit is found first, then the matches of the rest |
| IssueKeys.SkipWord | wtf-lib/src/services/jira_service.rs:272-277 | a hyphen-free word and a separator in front of a text leave exactly the text's matches |
| IssueKeys.JiraIdentifier | wtf-lib/src/services/jira_service.rs:265-270 | `get_jira_identifier` returns something exactly when the text has an identifier, and then the first match, uppercased |
| IssueKeys.JiraIdentifiersShape | wtf-lib/src/services/jira_service.rs:272-277 | `get_jira_identifiers` returns some identifier exactly when a slice of the text has the key shape (letters, `-`, digits, word-bounded, either case), and each one returned is that shape in upper case |
| IssueKeys.UpperLetterKey | wtf-lib/src/services/jira_service.rs:275 | uppercasing a key of either case gives an upper-case key |
| IssueKeys.FirstIdentifierIsHead | wtf-lib/src/services/jira_service.rs:265-277 | the single identifier is the head of the list of all identifiers, and is absent exactly when the list is empty |
| IssueKeys.HasJiraIdentifierIff | wtf-lib/src/services/jira_service.rs:261-263 | `has_jira_identifier` holds exactly when some slice of the text is letters, a hyphen and digits |
| IssueKeys.AlnumRun | wtf-lib/src/client/github_client.rs:143 | the run of ASCII letters and digits is the longest such prefix |
| IssueKeys.WordRun | wtf-lib/src/client/github_client.rs:143 | the run of word characters is the longest such prefix |
| IssueKeys.BoundedMatchLen | wtf-lib/src/client/github_client.rs:143 | a match at a word boundary has the bounded key shape and ends at a word boundary |
| IssueKeys.BoundedMatchShape | wtf-lib/src/client/github_client.rs:143 | the greedy match at the start, up to its last digit, is a letter, letters or digits, a hyphen and digits |
| IssueKeys.BoundedKeys | wtf-lib/src/client/github_client.rs:143-153 | every match of the word-bounded pattern has the bounded key shape |
| IssueKeys.UpperBoundedKeysShape | wtf-lib/src/client/github_client.rs:146-153 | every collected issue has the bounded key shape (a letter, one or more letters or digits, `-`, one or more digits) and holds no lowercase letter |
| IssueKeys.UpperBoundedKey | wtf-lib/src/client/github_client.rs:149-151 | uppercasing a bounded key keeps the bounded key shape |
| IssueKeys.UpperHasNoLowercase | wtf-lib/src/client/github_client.rs:149-151 | an uppercased key holds no lowercase letter |
| GitHubClient.Present | wtf-lib/src/client/github_client.rs:160-173 | the scanned commit messages are exactly the ones present |
| GitHubClient.PayloadTexts | wtf-lib/src/client/github_client.rs:158-234 | an event type the program does not list contributes no payload text |
| GitHubClient.ScannedTexts | wtf-lib/src/client/github_client.rs:155-157 | the repository name is always the first text scanned |
| GitHubClient.CollectedHas | wtf-lib/src/client/github_client.rs:146-153 | each key some scanned text yields is collected |
| GitHubClient.CollectedFrom | wtf-lib/src/client/github_client.rs:146-153 | each collected key comes from one of the scanned texts |
| GitHubClient.CollectedUpper | wtf-lib/src/client/github_client.rs:149-151 | no collected key holds a lowercase letter |
| GitHubClient.EventIssues | wtf-lib/src/client/github_client.rs:140-239 | an event's issues are strictly sorted, uppercased, and exactly the keys some scanned text mentions |
| GitHubClient.ExtractJiraIssues | wtf-lib/src/client/github_client.rs:140-239 | the pushed, sorted and de-duplicated list is the event's issue set |
| GitHubClient.RepoAlwaysScanned | wtf-lib/src/client/github_client.rs:155-157 | every key in the repository name is among the event's issues |
| GitHubClient.UnknownTypeScansRepo | wtf-lib/src/client/github_client.rs:158-235 | an event of an unlisted type has exactly the sorted keys of its repository name |
| GitHubClient.FirstLine | wtf-lib/src/client/github_client.rs:250 | `lines().next()` is absent only for the empty text; otherwise it is the text up to the end or to the first line feed, without a carriage return just before that line feed |
| GitHubClient.FirstLineOfMessage | wtf-lib/src/client/github_client.rs:250 | a line followed by "\n" or "\r\n" and any rest comes back as that line |
| GitHubClient.FirstLineUnique | wtf-lib/src/client/github_client.rs:250 | a text has only one first line: any line with that description is the one `FirstLine` returns |
| GitHubClient.PushDescribedByFirstLine | wtf-lib/src/client/github_client.rs:244-255 | a push whose first commit message is a line, a line break and more is described by exactly that line |
| GitHubClient.FirstCommitMessage | wtf-lib/src/client/github_client.rs:245-247 | a first message exists exactly when the commit list is non-empty and its first message is a string |
| GitHubClient.ExtractDescription | wtf-lib/src/client/github_client.rs:242-280 | a push is described by the first line of its first commit, "Push" when that message is empty, and "Push to repository" without commits; an unknown type by its own name |
| GitHubSessions.ApiDescription | wtf-lib/src/services/github_service.rs:340-381 | a push without commits is "Code push", and a type with no description of its own is described by its type name |
| GitHubSessions.NewTemp | wtf-lib/src/services/github_service.rs:403-421 | a new session is one instant long and records exactly its own event |
| GitHubSessions.DayTemps | wtf-lib/src/services/github_service.rs:218-234 | a day's sessions, before merging, are all one-event sessions |
| GitHubSessions.InsertByStart | wtf-lib/src/services/github_service.rs:239 | inserting into a start-sorted list keeps it sorted and adds exactly the one session |
| GitHubSessions.SortByStart | wtf-lib/src/services/github_service.rs:239 | `sort_by` on the start time yields a start-sorted permutation |
| GitHubSessions.SortedMembers | wtf-lib/src/services/github_service.rs:239 | sorting keeps exactly the sessions it sorts |
| GitHubSessions.Absorb | wtf-lib/src/services/github_service.rs:245-255 | a merged session keeps its start and repository, ends where the absorbed one ends, holds the sorted union of both issue lists, records the new event and appends a non-empty description after "; " |
| GitHubSessions.Step | wtf-lib/src/services/github_service.rs:242-258 | one turn of the drain loop grows the list by at most one and the last session ends where the new one ends |
| GitHubSessions.Merged | wtf-lib/src/services/github_service.rs:241-259 | merging never adds sessions and yields none only for no input |
| GitHubSessions.MergeSessions | wtf-lib/src/services/github_service.rs:241-259 | the drain loop computes the merge of the sorted day |
| GitHubSessions.MergedSnoc | wtf-lib/src/services/github_service.rs:241-259 | merging one more session is one more step of the loop |
| GitHubSessions.MergedLastEnd | wtf-lib/src/services/github_service.rs:245-247 | the last merged session ends where the last input session ends |
| GitHubSessions.StepGaps | wtf-lib/src/services/github_service.rs:245-246 | a step keeps consecutive sessions at least two hours apart |
| GitHubSessions.MergedGaps | wtf-lib/src/services/github_service.rs:245-246 | after merging, consecutive sessions are at least two hours apart |
| GitHubSessions.MergedLastStart | wtf-lib/src/services/github_service.rs:239-259 | on a sorted day the last merged session starts no later than the last input |
| GitHubSessions.MergedLastFrom | wtf-lib/src/services/github_service.rs:242-258 | the last merged session starts where one of the input sessions starts, since absorbing keeps the start |
| GitHubSessions.StepOrdered | wtf-lib/src/services/github_service.rs:242-258 | a step keeps every session starting no later than it ends |
| GitHubSessions.MergedOrdered | wtf-lib/src/services/github_service.rs:239-259 | on a sorted day every merged session starts no later than it ends |
| GitHubSessions.StepIssuesSorted | wtf-lib/src/services/github_service.rs:248-250 | a step keeps every session's issues sorted and duplicate-free |
| GitHubSessions.MergedIssuesSorted | wtf-lib/src/services/github_service.rs:248-250 | every merged session's issues are sorted and duplicate-free |
| GitHubSessions.AllEventIdsSnoc | wtf-lib/src/services/github_service.rs:251 | the event ids of one more session come after the others |
| GitHubSessions.StepEventIds | wtf-lib/src/services/github_service.rs:251 | a step adds the new event id at the end of the flattened id list |
| GitHubSessions.MergedEventIds | wtf-lib/src/services/github_service.rs:241-259 | merging loses, duplicates and reorders no event id |
| GitHubSessions.IssueSet | wtf-lib/src/services/github_service.rs:248-250 | the set of a session's issues is exactly its list's members |
| GitHubSessions.AllIssuesSnoc | wtf-lib/src/services/github_service.rs:248-250 | the issues of one more session are added to the union |
| GitHubSessions.StepIssues | wtf-lib/src/services/github_service.rs:248-250 | a step adds exactly the new session's issues to the union |
| GitHubSessions.MergedIssues | wtf-lib/src/services/github_service.rs:241-259 | merging loses no issue and invents none |
| GitHubSessions.DaySessionsShape | wtf-lib/src/services/github_service.rs:238-259 | a day's merged sessions are two hours apart, start before they end and keep their issues sorted |
| GitHubSessions.GroupByDay | wtf-lib/src/services/github_service.rs:216-234 | a day is a key exactly when some event falls on it, and its list holds that day's sessions in event order |
| GitHubSessions.GroupEvent | wtf-lib/src/services/github_service.rs:218-234 | one event joins its own day's list at the end, creating the day when it is new, and the other days keep theirs |
| GitHubSessions.DayTempsSnoc | wtf-lib/src/services/github_service.rs:218-234 | one more event adds its session to its own day only |
| GitHubSessions.DurationSeconds | wtf-lib/src/services/github_service.rs:264-268 | the saved duration is the session's length, raised to fifteen minutes when shorter |
| GitHubSessions.SessionRecord | wtf-lib/src/services/github_service.rs:270-278 | a saved session keeps the merged start and end and lasts at least fifteen minutes |
| GitHubSessions.SavedDurations | wtf-lib/src/services/github_service.rs:264-268 | no saved session is shorter than fifteen minutes |
| GitHubSessions.CalculateAndSaveSessions | wtf-lib/src/services/github_service.rs:215-286 | every day with events is visited once, its merged sessions are saved in order, and the count returned is the number saved |
| GitHubSessions.SaveDay | wtf-lib/src/services/github_service.rs:237-283 | one day of the loop saves that day's merged sessions after those of the days before |
| GitHubSessions.SavedForSnoc | wtf-lib/src/services/github_service.rs:237-283 | one more day appends exactly its merged sessions' records |
| GitHubSessions.SaveMerged | wtf-lib/src/services/github_service.rs:263-282 | the saving loop creates one record per merged session |
| GitHubSessions.WorkDuration | wtf-lib/src/services/github_service.rs:436-443 | `WorkSession::duration_seconds` is at least fifteen minutes |
| GitHubSessions.PrimaryJiraIssue | wtf-lib/src/services/github_service.rs:446-448 | the primary issue exists exactly when there are issues, and is the least of a sorted list |
| GitHubSessions.CalculateWorkSessions | wtf-lib/src/services/github_service.rs:289-337 | every day with events maps to its merged sessions in start order, and no other day appears |
| GitHubService.SprintWindow | wtf-lib/src/services/github_service.rs:103-109 | a sprint is fetched exactly when it has a start not after now, from that start to its end or to now |
| GitHubService.FetchedHas | wtf-lib/src/services/github_service.rs:103-119 | every event an answered fetch returns is collected |
| GitHubService.FetchedFrom | wtf-lib/src/services/github_service.rs:103-119 | every collected event comes from a started sprint whose fetch answered |
| GitHubService.FetchAll | wtf-lib/src/services/github_service.rs:101-119 | the fetch loop collects each started sprint's events, a failed fetch contributing nothing |
| GitHubService.Ids | wtf-lib/src/services/github_service.rs:121-123 | the id set holds exactly the ids of the events |
| GitHubService.IdsSnoc | wtf-lib/src/services/github_service.rs:121-123 | one more event adds its id |
| GitHubService.FirstByIdProperties | wtf-lib/src/services/github_service.rs:121-123 | de-duplication keeps every id once, keeps the first event of each id and nothing that was not there |
| GitHubService.FirstByIdFixpoint | wtf-lib/src/services/github_service.rs:121-123 | events whose ids are already distinct are kept as they are |
| GitHubService.FirstByIdIdempotent | wtf-lib/src/services/github_service.rs:121-123 | de-duplicating twice is de-duplicating once |
| GitHubService.DedupeById | wtf-lib/src/services/github_service.rs:121-123 | the `retain` with the seen-id set keeps the first event of each id, in order |
| GitHubService.OfOrganisation | wtf-lib/src/services/github_service.rs:126-130 | the filter keeps exactly the events whose repository name starts with "org/" |
| GitHubService.OfOrganisationDistinct | wtf-lib/src/services/github_service.rs:126-130 | filtering keeps ids distinct |
| GitHubService.RetainOrganisation | wtf-lib/src/services/github_service.rs:125-132 | without an organisation nothing is filtered; with one, exactly its events are kept |
| GitHubService.SprintsEventsShape | wtf-lib/src/services/github_service.rs:95-135 | the fetched events have distinct ids, all belong to the organisation when one is set, and each comes from a started sprint |
| GitHubService.SprintsEventsKeepFirst | wtf-lib/src/services/github_service.rs:95-135 | the first event of each id is kept when its repository passes the filter |
| GitHubService.FetchEventsForSprints | wtf-lib/src/services/github_service.rs:95-135 | a missing `gh` and an unreadable user name are errors; otherwise the result is the sprints' de-duplicated, filtered events |
| GitHubService.StoredEvent | wtf-lib/src/services/github_service.rs:191-203 | the stored event keeps id and instant, records its day, joins its issues with commas and carries the extracted description |
| GitHubService.StoredEventsAt | wtf-lib/src/services/github_service.rs:184-198 | one stored event per fetched event, in order |
| GitHubService.StoreEvents | wtf-lib/src/services/github_service.rs:184-198 | the conversion loop saves each event in its stored form |
| GitHubService.StoreEvent | wtf-lib/src/services/github_service.rs:191-198 | one event of the loop is saved in its stored form |
| GitHubService.StoredEventsSnoc | wtf-lib/src/services/github_service.rs:190-198 | one more fetched event appends its stored form |
| GitHubService.SyncEventsForSprints | wtf-lib/src/services/github_service.rs:138-212 | the same errors as the fetch; otherwise every fetched event is saved in stored form, the day sessions are saved, and both counts are returned |
| JiraTasks.Workdays | wtf-cli/src/tasks/jira_tasks.rs:370-390 | a date range holds no more working days than days |
| JiraTasks.FindDayOff | wtf-cli/src/tasks/jira_tasks.rs:378-380 | `find` returns nothing exactly when no absence covers the day, and otherwise an absence that does |
| JiraTasks.CountWorkdays | wtf-cli/src/tasks/jira_tasks.rs:370-390 | the date walk counts the days from start to end that are neither Saturday, Sunday nor covered by an absence |
| JiraTasks.WorkdaysSplit | wtf-cli/src/tasks/jira_tasks.rs:370-390 | counting two adjacent ranges is counting their union |
| JiraTasks.WeekHasFiveWorkdays | wtf-cli/src/tasks/jira_tasks.rs:381-385 | a Monday-to-Sunday week without absences has five working days |
| JiraTasks.WeekDayWorks | wtf-cli/src/tasks/jira_tasks.rs:381-385 | without absences, a day of the week is a working day exactly when it is Monday to Friday |
| JiraTasks.MoreAbsencesFewerWorkdays | wtf-cli/src/tasks/jira_tasks.rs:378-385 | one more absence never adds a working day |
| JiraTasks.WorkdaysSameDaysOff | wtf-cli/src/tasks/jira_tasks.rs:378-385 | absences that agree on the days off in the range give the same count |
| JiraTasks.StateOf | wtf-cli/src/tasks/jira_tasks.rs:355-360 | exactly "active", "closed" and "future" have a state |
| JiraTasks.SprintAbsences | wtf-cli/src/tasks/jira_tasks.rs:331-346 | the absences kept are exactly those overlapping the sprint's dates, none when a date is missing |
| JiraTasks.IntoSprint | wtf-cli/src/tasks/jira_tasks.rs:329-368 | the sprint keeps id, name and dates, takes the matching state, is not followed, and has no working days when a date is missing |
| JiraTasks.IntoSprintWorkdays | wtf-cli/src/tasks/jira_tasks.rs:347-352 | filtering out the absences that do not overlap leaves the working-day count of the sprint's dates unchanged |
| JiraTasks.TimeSpentShade | wtf-cli/src/tasks/jira_tasks.rs:528-538 | the hours are red below 90 % of seven hours per working day, yellow below all of it, plain from then on |
| JiraTasks.ShadeMonotone | wtf-cli/src/tasks/jira_tasks.rs:528-538 | more time spent or fewer working days never give a worse colour |
| JiraTasks.NoWorkdaysIsPlain | wtf-cli/src/tasks/jira_tasks.rs:528-538 | a sprint without working days is never coloured |
| JiraTasks.PreparedRule | wtf-cli/src/tasks/jira_tasks.rs:290-306 | a sprint is followed when stored followed, or when active or future and its name contains the pattern; a stored follow is never cleared and nothing else changes |
| JiraTasks.AutoFollowCount | wtf-cli/src/tasks/jira_tasks.rs:296-303 | the pattern follows no more sprints than were fetched, and none without a pattern |
| JiraTasks.PrepareBoardSprints | wtf-cli/src/tasks/jira_tasks.rs:285-307 | the `map` over one board's sprints returns the prepared sprints and the number the pattern followed |
| JiraTasks.PreparedSnoc | wtf-cli/src/tasks/jira_tasks.rs:289-307 | preparing one more sprint appends it and adds its follow to the count |
| JiraTasks.SaveSprints | wtf-lib/src/services/jira_service.rs:151-153 | the saved ids are the stored ones and the new ones |
| JiraTasks.AfterBoardsSnoc | wtf-cli/src/tasks/jira_tasks.rs:282-314 | one more board is one more step of the loop |
| JiraTasks.ErrorSticks | wtf-cli/src/tasks/jira_tasks.rs:285-286 | once `fetch_board_sprints` returns an error (only its progress-bar template can raise one), later boards change nothing |
| JiraTasks.AfterBoardsShape | wtf-cli/src/tasks/jira_tasks.rs:282-314 | across the boards no stored sprint is dropped and the pattern follows no more sprints than were fetched, none without a pattern |
| JiraTasks.FetchSprints | wtf-cli/src/tasks/jira_tasks.rs:263-326 | the board loop saves each scrum board's prepared sprints and counts them; an error from `fetch_board_sprints`, which only its template can raise, stops the loop after the earlier boards are saved |
| JiraTasks.FetchBoard | wtf-cli/src/tasks/jira_tasks.rs:282-314 | one board of the loop does what one step of the specified run does: a Scrum board's sprints saved and counted, an error of `fetch_board_sprints` passed on |
| JiraTasks.FetchBoardSprints | wtf-cli/src/tasks/jira_tasks.rs:394-413 | `fetch_board_sprints` never fails on the request's reply: on success it yields the board's sprints, on a failed request no sprints |
| JiraTasks.FailedRequestSkipsBoard | wtf-cli/src/tasks/jira_tasks.rs:394-413 | a board whose sprint request fails saves and counts nothing, and the loop goes on |
| JiraTasks.RepliesNeverStop | wtf-cli/src/tasks/jira_tasks.rs:282-314 | with each board's sprints taken from its request's reply, the loop ends without an error whatever the replies |
| JiraTasks.ScrumStep | wtf-cli/src/tasks/jira_tasks.rs:283-307 | a Scrum board whose fetch answers saves its prepared sprints and adds their number and the pattern's follows to the counts |
| TuiData.Pending | wtf-cli/src/tui/data.rs:172-176 | the pending count is the number of meetings without a Jira link |
| TuiData.PendingZeroIff | wtf-cli/src/tui/data.rs:172-176 | nothing is pending exactly when every meeting is linked |
| TuiData.MeetingsForSprints | wtf-cli/src/tui/data.rs:133-151 | the meetings kept are exactly those starting within some sprint that has both dates, ends included, in order |
| TuiData.SessionsForSprints | wtf-cli/src/tui/data.rs:153-170 | the sessions kept are exactly those starting within some dated sprint, in order |
| TuiData.NoDatedSprintKeepsNothing | wtf-cli/src/tui/data.rs:141-147 | without a sprint that has both dates no meeting is kept |
| TuiData.JiraStep | wtf-cli/src/tui/data.rs:208-214 | one more Jira worklog adds its seconds to its own day only |
| TuiData.LocalStep | wtf-cli/src/tui/data.rs:218-231 | one more local worklog adds its seconds to its own day only, unless Jira holds it |
| TuiData.NoJiraNoSeconds | wtf-cli/src/tui/data.rs:208-214 | a day without Jira worklogs has no Jira seconds |
| TuiData.NoLocalNoSeconds | wtf-cli/src/tui/data.rs:218-231 | a day without counted local worklogs has no local seconds |
| TuiData.AddJira | wtf-cli/src/tui/data.rs:207-214 | the first loop sums the Jira seconds of each day of the range that has a Jira worklog, and of no other day |
| TuiData.AddLocals | wtf-cli/src/tui/data.rs:216-232 | the second loop adds the seconds of the local worklogs Jira does not hold to their days of the range |
| TuiData.MarkAbsence | wtf-cli/src/tui/data.rs:238-250 | the walk over one absence flags its weekdays inside the range and gives them seven hours when they have nothing |
| TuiData.MarkAbsences | wtf-cli/src/tui/data.rs:234-251 | after every absence, the flagged days are exactly the covered weekdays of the range, and only unlogged ones got seven hours |
| TuiData.Emit | wtf-cli/src/tui/data.rs:253-266 | one entry per date of the range, in order, with its seconds or zero and its absence flag |
| TuiData.DailyActivity | wtf-cli/src/tui/data.rs:200-266 | each date of the range shows the recorded seconds, seven hours for an unlogged absence weekday, and is flagged exactly when it is an absence day |
| TuiData.SprintActivity | wtf-cli/src/tui/data.rs:189-269 | a sprint lacking a date has no activity; otherwise its dates' daily activity |
| TuiData.SprintActivityUnique | wtf-cli/src/tui/data.rs:189-269 | the activity `calculate_sprint_activity` computes for a sprint is the only one meeting its description, so the entries above are determined |
| TuiData.HeldLocalsAddNothing | wtf-cli/src/tui/data.rs:221-225 | a local worklog Jira already holds adds nothing to its day |
| TuiData.HasJiraIff | wtf-cli/src/tui/data.rs:208-214 | a day has Jira work exactly when some Jira worklog starts on it |
| TuiData.ExpectedDayRules | wtf-cli/src/tui/data.rs:240-247 | weekends and days outside the range are never absence days, and an absence never hides logged work |
| TuiData.MondayOf | wtf-cli/src/tui/data.rs:281-283 | the Monday of a day's week is a Monday at most six days before it |
| TuiData.WallRangeShape | wtf-cli/src/tui/data.rs:285-291 | the wall always spans 54 whole weeks, Monday to Sunday, the last holding today |
| TuiData.WorklogWall | wtf-cli/src/tui/data.rs:275-363 | the wall is 378 days, a multiple of seven, and each day shows its daily activity |
| TuiData.AllSprintActivities | wtf-cli/src/tui/data.rs:178-187 | one entry per sprint id, and each entry is the activity of the last sprint with that id: empty when a date is missing, otherwise the expected activity of each of its days |
| TuiData.LastActivitiesStep | wtf-cli/src/tui/data.rs:178-187 | inserting one more sprint's activity under its id keeps, for each id seen so far, the activity of the last sprint with that id |
| AchievementTracking.PushIds | wtf-cli/src/tui/achievement_tracker.rs:68-70 | a missing history entry yields no worklog ids |
| AchievementTracking.HasOldWorklogInPush | wtf-cli/src/tui/achievement_tracker.rs:67-87 | it holds exactly when the history exists and one of its stored worklogs started more than sixty days before now |
| AchievementTracking.OldStaysOld | wtf-cli/src/tui/achievement_tracker.rs:76-82 | a push holding an old worklog still holds one later on |
| AchievementTracking.CountOn | wtf-cli/src/tui/achievement_tracker.rs:96-104 | a date's count never exceeds the number of ids |
| AchievementTracking.CountOnIsPositions | wtf-cli/src/tui/achievement_tracker.rs:96-104 | the running count of a date is the number of ids whose stored worklog started on it |
| AchievementTracking.DateCounts | wtf-cli/src/tui/achievement_tracker.rs:96-104 | each date in the map carries its positive count, and a date with no worklog has no entry |
| AchievementTracking.HasMultiplePushesSameDay | wtf-cli/src/tui/achievement_tracker.rs:90-110 | it holds exactly when the history exists and some date has at least three of its worklogs |
| AchievementTracking.SameDayIff | wtf-cli/src/tui/achievement_tracker.rs:106-109 | the squash condition is three distinct ids on one date |
| AchievementTracking.ThreeOnOneDay | wtf-cli/src/tui/achievement_tracker.rs:106-109 | three ids of worklogs that started on one date make it hold |
| AchievementTracking.LinkedCount | wtf-cli/src/tui/achievement_tracker.rs:113-125 | the linked count never exceeds the number of meetings |
| AchievementTracking.PerfectIffAllCounted | wtf-cli/src/tui/achievement_tracker.rs:113-125 | perfect auto-linking is at least ten meetings and as many links as meetings |
| AchievementTracking.AllLinkedIffCounted | wtf-cli/src/tui/achievement_tracker.rs:119-124 | every meeting is linked exactly when the linked count equals the meeting count |
| AchievementTracking.UnlinkedSpoils | wtf-cli/src/tui/achievement_tracker.rs:119-124 | one unlinked meeting spoils perfect auto-linking however many others are linked |
| AchievementTracking.FindMeeting | wtf-cli/src/tui/achievement_tracker.rs:140-143 | `find` returns the first meeting with the id, and nothing exactly when no meeting has it |
| AchievementTracking.HasDeclinedMeetingWorklog | wtf-cli/src/tui/achievement_tracker.rs:128-158 | it holds exactly when the history exists and one of its worklogs was logged for a meeting whose first record is declined |
| AchievementTracking.FirstMeetingDecides | wtf-cli/src/tui/achievement_tracker.rs:140-150 | only the first meeting with the id decides whether the worklog links a declined meeting |
| AchievementTracking.CandidatesEarned | wtf-cli/src/tui/achievement_tracker.rs:12-61 | an achievement is a candidate of the event exactly when the event earns it |
| AchievementTracking.CandidatesDistinct | wtf-cli/src/tui/achievement_tracker.rs:12-61 | no achievement is a candidate twice |
| AchievementTracking.PushCandidatesMembers | wtf-cli/src/tui/achievement_tracker.rs:16-36 | a completed push lists the apprentice, timeline, squash and declined achievements exactly when their checks hold, and no other |
| AchievementTracking.PushCandidatesDistinct | wtf-cli/src/tui/achievement_tracker.rs:16-36 | a completed push lists each achievement at most once |
| AchievementTracking.CheckUnlockCandidates | wtf-cli/src/tui/achievement_tracker.rs:12-61 | `check_unlock_candidates` pushes exactly the earned achievements, in rule order |
| AchievementTracking.CheckPush | wtf-cli/src/tui/achievement_tracker.rs:16-36 | the `PushComplete` arm pushes the four checks that hold, in rule order |
| AchievementTracking.NothingElseEarns | wtf-cli/src/tui/achievement_tracker.rs:45-60 | a secret sequence other than "chronie" and an event without a rule earn nothing |
| AchievementTracking.NewlyUnlocked | wtf-cli/src/tui/achievement_tracker.rs:176-181 | no more achievements are newly unlocked than there are candidates |
| AchievementTracking.NewlyUnlockedMembers | wtf-cli/src/tui/achievement_tracker.rs:176-181 | exactly the candidates without an unlock record are newly unlocked |
| AchievementTracking.NamedAppend | wtf-lib/src/services/achievement_service.rs:27-35 | the achievements named by two record lists are those of each |
| AchievementTracking.NamedRecords | wtf-lib/src/services/achievement_service.rs:37-62 | the new records name exactly the newly unlocked achievements |
| AchievementTracking.NewlySnoc | wtf-cli/src/tui/achievement_tracker.rs:176-181 | offering one more candidate adds it exactly when it has no record yet |
| AchievementTracking.UnlockedSoFar | wtf-cli/src/tui/achievement_tracker.rs:176-181 | a candidate not offered yet is unlocked exactly when it was unlocked before the event |
| AchievementTracking.OfferedNext | wtf-cli/src/tui/achievement_tracker.rs:176-181 | one offer adds the candidate to the newly unlocked ones exactly when `unlock` added it |
| AchievementTracking.Offered | wtf-lib/src/services/achievement_service.rs:37-60 | after one offer the records are the old ones plus one record per newly unlocked candidate |
| AchievementTracking.OfferedNotices | wtf-cli/src/tui/achievement_tracker.rs:176-181 | after one offer the bus holds one `AchievementUnlocked` notice per newly unlocked candidate |
| AchievementTracking.OfferOne | wtf-cli/src/tui/achievement_tracker.rs:176-181 | one candidate offered to `unlock`: the records and the notices grow by the newly unlocked prefix, the subscribers stay |
| AchievementTracking.RecordsNoticesSnoc | wtf-cli/src/tui/achievement_tracker.rs:176-181 | one more newly unlocked achievement appends one record and one notice |
| AchievementTracking.UnlockedIffNamed | wtf-lib/src/services/achievement_service.rs:27-35 | `is_unlocked` holds exactly when some record names the achievement |
| AchievementTracking.OfferAll | wtf-cli/src/tui/achievement_tracker.rs:176-181 | each candidate is offered to `unlock`; exactly the new ones get a record and a published notice, in order, and the subscribers stay |
| AchievementTracking.OnEvent | wtf-cli/src/tui/achievement_tracker.rs:171-182 | `on_event` records and announces exactly the earned achievements not unlocked before, in candidate order |
| AchievementTracking.NoticeOnlyWhenNew | wtf-cli/src/tui/achievement_tracker.rs:176-181 | a notice is published for an achievement exactly when it is a candidate not unlocked before |
| AchievementTracking.SecondTimeNothingNew | wtf-cli/src/tui/achievement_tracker.rs:171-182 | handling the same event a second time unlocks and publishes nothing |
| AchievementTracking.AllNamedNoneNew | wtf-cli/src/tui/achievement_tracker.rs:176-181 | when every candidate already has a record, none is newly unlocked |
| Branding.BeU32 | wtf-lib/src/utils/branding.rs:96-101 | a big-endian length read from four bytes is below 2^32 |
| Branding.BeRoundTrip | wtf-lib/src/utils/branding.rs:96-101 | reading back the four bytes a writer puts before a chunk gives the length written |
| Branding.SequenceLength | wtf-lib/src/utils/branding.rs:117 | an ASCII byte starts a one-byte sequence, and a continuation byte, 0xC0, 0xC1 or a byte above 0xF4 starts none |
| Branding.AsciiIsUtf8 | wtf-lib/src/utils/branding.rs:117 | ASCII bytes are valid UTF-8 |
| Branding.LoneContinuationInvalid | wtf-lib/src/utils/branding.rs:117 | a text starting with a continuation byte is not valid UTF-8 |
| Branding.FirstZero | wtf-lib/src/utils/branding.rs:114 | `position` finds the first zero byte, and nothing exactly when there is none |
| Branding.ChunkVerdict | wtf-lib/src/utils/branding.rs:111-129 | only a zTXt chunk decides anything, never "not found", and a success is valid UTF-8 |
| Branding.FirstZeroAfter | wtf-lib/src/utils/branding.rs:114 | bytes without a zero followed by a zero put the first zero right after them |
| Branding.BrandingChunkVerdict | wtf-lib/src/utils/branding.rs:117-127 | a "chronie_data" chunk with method 0 yields the decompressed text or an error; any other method is passed over |
| Branding.Extract | wtf-lib/src/utils/branding.rs:84-136 | data without the PNG signature is "not a PNG", and a success is valid UTF-8 |
| Branding.WalkValid | wtf-lib/src/utils/branding.rs:94-135 | the chunk walk never answers "not a PNG" and only yields valid UTF-8 |
| Branding.ExtractMetadata | wtf-lib/src/utils/branding.rs:84-136 | the `while pos + 8 <= len` loop computes what the chunk walk decides |
| Branding.Encode | wtf-lib/src/utils/branding.rs:131-132 | an encoded chunk takes twelve bytes more than its data |
| Branding.WalkOneChunk | wtf-lib/src/utils/branding.rs:94-132 | the walk reads one encoded chunk's length, type and data and lands on what follows |
| Branding.WalkEncoded | wtf-lib/src/utils/branding.rs:94-135 | chunks laid out one after another are visited in order: the first with a verdict decides, otherwise the walk goes on past them |
| Branding.ExtractImage | wtf-lib/src/utils/branding.rs:84-136 | a well-formed image yields the first deciding chunk's result, or "not found" |
| Branding.ExtractAfterSignature | wtf-lib/src/utils/branding.rs:85-92 | after the signature, the result is the walk's |
| Branding.NoZtxtNotFound | wtf-lib/src/utils/branding.rs:111-135 | an image without a zTXt chunk has no branding |
| Branding.NoZtxtNoVerdict | wtf-lib/src/utils/branding.rs:111 | chunks of other types decide nothing |
| Branding.TruncatedChunkIgnored | wtf-lib/src/utils/branding.rs:107-109 | a chunk cut short by the end of the data is never read, even a branding chunk |
| Branding.WalkEncodedTruncated | wtf-lib/src/utils/branding.rs:107-109 | after whole chunks, a truncated chunk ends the walk without a verdict |
| Branding.WalkTruncated | wtf-lib/src/utils/branding.rs:94-109 | a truncated chunk alone gives "not found" |
| Branding.BrandingFound | wtf-lib/src/utils/branding.rs:111-127 | chunks that decide nothing leave the branding chunk in charge of the result |
| Branding.SearchAppend | wtf-lib/src/utils/branding.rs:94-133 | when no earlier chunk decides, the last chunk's verdict is the search's |
| Branding.GetByIndex | wtf-lib/src/utils/branding.rs:67-75 | `get_by_index` returns nothing exactly for an unknown or empty category, and otherwise one of its texts |
| Branding.ByIndexWraps | wtf-lib/src/utils/branding.rs:67-75 | indexes that differ by the category's size pick the same text |
| Branding.ByIndexReachesAll | wtf-lib/src/utils/branding.rs:67-75 | every text of a category is reached by its own index |
| Branding.GetText | wtf-lib/src/utils/branding.rs:51-56 | `get_text` returns nothing exactly for an unknown or empty category, and otherwise one of its texts |
| TuiState.Tui.constructor | wtf-cli/src/tui/mod.rs:52-95 | a new TUI holds the first snapshot, has nothing in flight, an empty key buffer and the two subscribers registered |
| TuiState.Tui.RefreshData | wtf-cli/src/tui/mod.rs:1970-1987 | at most one refresh runs at a time, and it carries the UI state of the moment it starts |
| TuiState.Tui.HandleDataRefresh | wtf-cli/src/tui/mod.rs:230-239 | the collected data becomes the snapshot and `DataRefreshed` is published; without a refresh or a reply nothing changes |
| TuiState.Tui.HandleUpdate | wtf-cli/src/tui/mod.rs:605-614 | no fetch starts while the status shows one running; otherwise a fetch receiver is installed |
| TuiState.Tui.HandleFetchStatus | wtf-cli/src/tui/mod.rs:141-161 | a received status becomes current; completion refreshes and publishes `FetchComplete`, an error publishes `FetchError`, other statuses publish nothing |
| TuiState.Tui.HandleRevertCompletion | wtf-cli/src/tui/mod.rs:164-183 | a result closes the revert; success refreshes and publishes `RevertComplete`, failure `RevertError` |
| TuiState.Tui.HandlePushOperations | wtf-cli/src/tui/mod.rs:186-227 | a completion ends the push and is published first, then each progress line whose counter parses is published, in order |
| TuiState.Tui.CompletePush | wtf-cli/src/tui/mod.rs:188-198 | completion drops both receivers, marks the status complete, refreshes, arms the timer and publishes `PushComplete` |
| TuiState.Tui.CheckAndClearStatusTimer | wtf-cli/src/tui/mod.rs:241-257 | after more than 3 s, or 5 s for an error, the status returns to Idle and `StatusMessageTimeout` is published; otherwise nothing changes |
| TuiState.Tui.PushKey | wtf-cli/src/tui/mod.rs:2010-2020 | the buffer gains the key and keeps at most the last twenty keys |
| TuiState.Tui.ClampWorklogSelection | wtf-cli/src/tui/mod.rs:863-868 | a worklog selection past the last visible row is pulled back to it and nothing else changes |
| TuiState.Tui.ClearKeyBuffer | wtf-cli/src/tui/mod.rs:2046-2047 | the buffer is emptied; `TrackKeyStr` calls it when a sequence fires |
| TuiState.Tui.TrackKeyStr | wtf-cli/src/tui/mod.rs:2010-2055 | the key is buffered, keeping the last twenty; if the buffer then ends with a secret sequence, the first such sequence's name is published and the buffer is emptied, otherwise the buffer keeps the key and nothing is published |
| TuiState.Tui.HandleRevertInputKey | wtf-cli/src/tui/mod.rs:1672-1730 | the typed hours follow the key: digits and '.' are appended, Backspace removes the last character, Esc closes the confirmation, and a running revert ignores every key |
| TuiState.LastIndex | wtf-cli/src/tui/mod.rs:863 | `saturating_sub(1)` is the last row of a non-empty list and 0 for an empty one |
| TuiState.Clamped | wtf-cli/src/tui/mod.rs:865-868 | the clamped selection is kept exactly when it is within the rows, and is never past the last row |
| TuiState.ClampedStaysInRange | wtf-cli/src/tui/mod.rs:863-868 | once clamped, the selection stays on a row whatever navigation keys follow |
| TuiState.ParseProgress | wtf-cli/src/tui/mod.rs:205-210 | a counter is parsed only from a line holding both brackets, and both numbers fit in `usize` |
| TuiState.ParseCounter | wtf-cli/src/tui/mod.rs:209-213 | a counter needs a '/', and both halves fit in `usize` |
| TuiState.ProgressTagParses | wtf-cli/src/tui/mod.rs:205-220 | a line the push thread writes parses back to its own counter, whatever text surrounds it |
| TuiState.InnerParses | wtf-cli/src/tui/mod.rs:209-213 | "current/total" splits at its only '/' into the two numbers |
| TuiState.CounterAt | wtf-cli/src/tui/mod.rs:209-213 | once the '/' is found the counter is the two trimmed halves parsed |
| TuiState.NoBracketNoProgress | wtf-cli/src/tui/mod.rs:205 | a line without '[' never yields a progress event |
| TuiState.LineEvents | wtf-cli/src/tui/mod.rs:205-222 | a line yields one `PushProgress` with its counter exactly when the counter parses, and nothing otherwise |
| TuiState.ProgressEvents | wtf-cli/src/tui/mod.rs:204-224 | a batch of lines yields at most one `PushProgress` per line |
| TuiState.PublishProgress | wtf-cli/src/tui/mod.rs:201-225 | the progress loop publishes the events of the lines, in order |
| TuiState.PublishLine | wtf-cli/src/tui/mod.rs:205-222 | one line publishes its progress event when its counter parses |
| TuiState.ProgressEventsStep | wtf-cli/src/tui/mod.rs:204-224 | one more line appends that line's events |
| TuiState.ProgressLostWithCompletion | wtf-cli/src/tui/mod.rs:188-201 | progress lines that arrive with the completion are dropped with their receiver |
| TuiState.KeyName | wtf-cli/src/tui/mod.rs:1993-2008 | arrows have their names, a character is buffered lowercased, other keys are not buffered |
| TuiState.MatchesSequenceIff | wtf-cli/src/tui/mod.rs:2059-2075 | the buffer matches exactly when it ends with the sequence, and never when it is shorter |
| TuiState.FirstMatch | wtf-cli/src/tui/mod.rs:2033-2055 | the sequence that fires is the first one the buffer matches, and none fires when none matches |
| TuiState.RevertInputStaysNumeric | wtf-cli/src/tui/mod.rs:1672-1730 | typing keeps the revert input made of digits and dots, Esc on an idle confirmation closes it, and a running revert ignores every key |
| TuiState.RequiredAchievement | wtf-cli/src/tui/mod.rs:2107-2117 | every category needs either the friend or the apprentice achievement |
| TuiState.ChronieMessage | wtf-cli/src/tui/mod.rs:2103-2127 | a message is given exactly when the required achievement is unlocked and the branding has a text, and it is that text |
| TuiState.CategoryTiers | wtf-cli/src/tui/mod.rs:2107-2117 | exactly "secret" and "friend" need the friend achievement |
| WorklogsService.WithStatus | wtf-lib/src/services/worklogs_service.rs:107-115 | the worklogs returned are exactly the stored ones whose status is asked for |
| WorklogsService.WithStatusExtremes | wtf-lib/src/services/worklogs_service.rs:107-115 | asking for every status returns the whole store, asking for none returns nothing |
| WorklogsService.SaveLocalWorklog | wtf-lib/src/services/worklogs_service.rs:117-121 | the worklog is stored under its id, replacing any record with that id |
| WorklogsService.RemoveLocalWorklog | wtf-lib/src/services/worklogs_service.rs:123-130 | the record with the worklog's id is removed and nothing else |
| WorklogsService.NewComment | wtf-lib/src/services/worklogs_service.rs:179 | a new worklog's comment starts with "wtf[id]-" |
| WorklogsService.CommentId | wtf-lib/src/services/worklogs_service.rs:179 | an id read back from a comment is the one tagged at its front |
| WorklogsService.CommentIdRoundTrip | wtf-lib/src/services/worklogs_service.rs:179 | the tagged id reads back from the comment, whatever the message |
| WorklogsService.NewLocalWorklog | wtf-lib/src/services/worklogs_service.rs:171-195 | a new worklog is Created, has no Jira id, carries the tagged comment and the given start, time, issue and meeting |
| WorklogsService.CreateNewLocalWorklog | wtf-lib/src/services/worklogs_service.rs:171-195 | the new worklog is built and stored under its id |
| WorklogsService.Historize | wtf-lib/src/services/worklogs_service.rs:203-213 | one history holding the ids and the instant is stored under its id, which is returned |
| WorklogsService.HistorizedIds | wtf-lib/src/services/worklogs_service.rs:143-149 | the historized ids are exactly those some history lists |
| WorklogsService.Unhistorized | wtf-lib/src/services/worklogs_service.rs:151-156 | the ids kept are those of the given worklogs that no history lists, in order, and none exactly when all are listed |
| WorklogsService.RecoveryIdsIff | wtf-lib/src/services/worklogs_service.rs:134-169 | an id is recovered exactly when it is a Pushed worklog's and no history lists it |
| WorklogsService.RecoveredIsUnlisted | wtf-lib/src/services/worklogs_service.rs:151-156 | a recovered id belongs to a Pushed worklog that no history lists |
| WorklogsService.UnlistedIsRecovered | wtf-lib/src/services/worklogs_service.rs:151-156 | every Pushed worklog no history lists is recovered |
| WorklogsService.RecoveryIdempotent | wtf-lib/src/services/worklogs_service.rs:134-169 | after the recovery stores its history a second run finds nothing to recover |
| WorklogsService.ListedAfterRecovery | wtf-lib/src/services/worklogs_service.rs:134-169 | after the recovery every Pushed worklog is listed by some history |
| WorklogsService.StillListed | wtf-lib/src/services/worklogs_service.rs:203-213 | an id listed before, or by the inserted history, is listed after the insertion |
| WorklogsService.HistoryEntry | wtf-lib/src/services/worklogs_service.rs:215-219 | every history value is stored under some key of the store |
| WorklogsService.CreateHistoryForPushedWorklogs | wtf-lib/src/services/worklogs_service.rs:134-169 | with nothing to recover the histories stay as they are; otherwise one history listing exactly the recovered ids is stored |
| WorklogsService.DeleteHistoryFromDb | wtf-lib/src/services/worklogs_service.rs:227-233 | only the history record is dropped; the local and Jira worklogs stay |
| WorklogsService.RevertTargets | wtf-lib/src/services/worklogs_service.rs:54-58 | the targets are the listed worklogs still stored, each found once per listing |
| WorklogsService.PushedIds | wtf-lib/src/services/worklogs_service.rs:59-60 | the worklogs revert removes are exactly the targets with a Jira worklog id |
| WorklogsService.JiraIds | wtf-lib/src/services/worklogs_service.rs:59-65 | the delete calls go to exactly the targets' Jira worklog ids |
| WorklogsService.RemoveReverted | wtf-lib/src/services/worklogs_service.rs:59-70 | every target with a Jira id is removed locally and every other record is kept |
| WorklogsService.PushedIdsLast | wtf-lib/src/services/worklogs_service.rs:59-70 | the removed ids are those of all but the last target, plus the last one's when it was pushed |
| WorklogsService.RemoveRevertedStep | wtf-lib/src/services/worklogs_service.rs:66 | removing one more id keeps the earlier removals and every other record |
| WorklogsService.DeleteRemote | wtf-lib/src/services/worklogs_service.rs:65 | the delete calls touch only the targets' Jira worklogs and never bring a worklog back |
| WorklogsService.DeleteRemoteDrops | wtf-lib/src/services/worklogs_service.rs:65 | a Jira worklog every delete call reported gone or forbidden is gone from the local copy |
| WorklogsService.MissingStaysMissing | wtf-lib/src/services/worklogs_service.rs:65 | a delete call never brings back a worklog already gone |
| WorklogsService.RevertWorklogHistory | wtf-lib/src/services/worklogs_service.rs:53-79 | each listed worklog with a Jira id is deleted in Jira and removed locally, whatever Jira answers, then the history is removed |
| WorklogsService.RevertAll | wtf-lib/src/services/worklogs_service.rs:59-70 | the loop performs one revert step per target, in order |
| WorklogsService.RevertLast | wtf-lib/src/services/worklogs_service.rs:59-70 | reverting a list is reverting all but the last, then the last one's step |
| WorklogsService.RevertOne | wtf-lib/src/services/worklogs_service.rs:60-69 | a target with a Jira id is deleted there and removed locally; one without is left alone |
| WorklogsService.DailyTotal | wtf-lib/src/services/worklogs_service.rs:237-245 | the daily total of non-negative worklogs is non-negative |
| WorklogsService.DailyTotalAppend | wtf-lib/src/services/worklogs_service.rs:237-245 | the total of two lists is the sum of their totals |
| WorklogsService.DailyTotalIgnoresStatus | wtf-lib/src/services/worklogs_service.rs:237-245 | changing a worklog's status leaves every daily total as it was |
| WorklogsService.DailyTotalOtherDays | wtf-lib/src/services/worklogs_service.rs:242 | worklogs of other days do not count |
| WorklogsService.GapDays | wtf-lib/src/services/worklogs_service.rs:250-286 | no more gaps are reported than there are days in the range |
| WorklogsService.GapDaysSound | wtf-lib/src/services/worklogs_service.rs:250-286 | every reported gap is a weekday of the range under the threshold with the missing seconds, each day once, ascending |
| WorklogsService.GapDaysStep | wtf-lib/src/services/worklogs_service.rs:261-283 | one more day adds its gap, if any, at the end |
| WorklogsService.GapDaysComplete | wtf-lib/src/services/worklogs_service.rs:250-286 | every gap day of the range is reported with its missing seconds |
| WorklogsService.FindGapDays | wtf-lib/src/services/worklogs_service.rs:250-286 | the day walk returns the gap days of the stored worklogs |
| WorklogsService.KeptOutside | wtf-lib/src/services/worklogs_service.rs:327-333 | the kept worklogs are exactly those started outside the range |
| WorklogsService.InsertAllKeepsWorklogsKeyed | wtf-lib/src/services/worklogs_service.rs:340-341 | saving worklogs keeps every record under its worklog's id |
| WorklogsService.LastWithConcat | wtf-lib/src/services/worklogs_service.rs:336-341 | in a combined list, the later records of a key win |
| WorklogsService.KeptLookup | wtf-lib/src/services/worklogs_service.rs:327-333 | the kept records answer a lookup as the old store does for a worklog outside the range |
| WorklogsService.ReplaceRange | wtf-lib/src/services/worklogs_service.rs:318-342 | after the replacement, a key holds the last new worklog with that id, else the old worklog if it lies outside the range, else nothing |
| WorklogsService.ReplaceWorklogsForDateRange | wtf-lib/src/services/worklogs_service.rs:318-342 | the store is cleared and refilled with the kept and the new worklogs |
| JiraService.AddTimeOutcome | wtf-lib/src/services/jira_service.rs:42-68 | `add_time` fails exactly on a failed reply, with the quoted key in the message, and returns the logged worklog exactly when Jira returned one |
| JiraService.WithLoggedWorklog | wtf-lib/src/services/jira_service.rs:42-68 | a returned worklog is saved under its id and every other record is kept |
| JiraService.PushRemote | wtf-cli/src/tui/operations/worklogs.rs:80-107 | the Jira-side store after any number of `add_time` replies stays keyed by worklog id |
| JiraService.AddTime | wtf-lib/src/services/jira_service.rs:42-68 | Jira's reply decides both the result and what is stored |
| JiraService.AfterDelete | wtf-lib/src/services/jira_service.rs:70-106 | the local copy is dropped when Jira deleted it or the error says it is gone or not ours, kept otherwise, and other records never change |
| JiraService.DeleteKeepsOnOtherErrors | wtf-lib/src/services/jira_service.rs:84-103 | an unrelated error keeps the copy, while "Not Found" drops it |
| JiraService.DeleteWorklog | wtf-lib/src/services/jira_service.rs:70-106 | `delete_worklog` leaves the store as the reply decides |
| JiraService.FollowSprint | wtf-lib/src/services/jira_service.rs:175-188 | following fails for a missing or already followed sprint, and otherwise marks exactly that sprint followed |
| JiraService.UnfollowSprint | wtf-lib/src/services/jira_service.rs:190-203 | unfollowing fails for a missing or unfollowed sprint, and otherwise clears exactly that sprint's flag |
| JiraService.SaveSprint | wtf-lib/src/services/jira_service.rs:147-149 | re-saving a sprint stores it under its key and keeps the others |
| JiraService.FollowUnfollowRoundTrip | wtf-lib/src/services/jira_service.rs:175-203 | following then unfollowing a sprint restores the store exactly |
| JiraService.FollowTwiceFails | wtf-lib/src/services/jira_service.rs:175-188 | a second follow of the same sprint is refused |
| JiraService.FollowSprintIn | wtf-lib/src/services/jira_service.rs:175-188 | the database changes exactly as following decides, and an error leaves it as it was |
| JiraService.UnfollowSprintIn | wtf-lib/src/services/jira_service.rs:190-203 | the database changes exactly as unfollowing decides, and an error leaves it as it was |
| JiraService.SetBoardFollowed | wtf-lib/src/services/jira_service.rs:218-236 | following or unfollowing fails exactly for a missing board, and otherwise sets exactly that board's flag |
| JiraService.BoardFollowIdempotent | wtf-lib/src/services/jira_service.rs:218-236 | following or unfollowing a board twice is the same as once |
| JiraService.SetBoardFollowedIn | wtf-lib/src/services/jira_service.rs:218-236 | the database changes exactly as the flag update decides, and a missing board leaves it as it was |
| JiraService.EtechIsKey | wtf-lib/src/services/jira_service.rs:286 | "etech-123" has the key shape |
| JiraService.PlwIsKey | wtf-lib/src/services/jira_service.rs:317 | "plw-14" has the key shape |
| JiraService.DetectsBareKey | wtf-lib/src/services/jira_service.rs:286-287 | "etech-123" holds an identifier, read as "ETECH-123" |
| JiraService.DetectsEmbeddedKey | wtf-lib/src/services/jira_service.rs:288-289 | a key inside a sentence is detected |
| JiraService.DetectsShortKey | wtf-lib/src/services/jira_service.rs:290 | "plw-1" is detected |
| JiraService.RejectsMissingHyphen | wtf-lib/src/services/jira_service.rs:292 | "etech123" holds no identifier |
| JiraService.RejectsPlainText | wtf-lib/src/services/jira_service.rs:298 | text without a key holds no identifier |
| JiraService.RejectsDetachedHyphen | wtf-lib/src/services/jira_service.rs:294-297 | a hyphen between words holds no identifier |
| JiraService.FirstIdentifierInSentence | wtf-lib/src/services/jira_service.rs:301-311 | the identifier of "some text with etech-123 card" is "ETECH-123" |
| JiraService.AllIdentifiersInSample | wtf-lib/src/services/jira_service.rs:314-320 | the sample yields exactly "ETECH-123" and "PLW-14", in order |
| JiraService.SampleKeys | wtf-lib/src/services/jira_service.rs:314-320 | the sample's matches are "etech-123" and "plw-14" |
| WorklogBatches.IdsOfConcat | wtf-cli/src/commands/worklog.rs:171-174 | the ids of two batches are those of each, in order |
| WorklogBatches.AscendingDistinct | wtf-lib/src/services/worklogs_service.rs:80-82 | worklogs listed in ascending id order have distinct ids |
| WorklogBatches.StoreIdsAscending | wtf-lib/src/services/worklogs_service.rs:80-82 | `get_all_local_worklogs` lists the store in ascending id order |
| WorklogBatches.WithStatusAscending | wtf-lib/src/services/worklogs_service.rs:107-115 | a status filter keeps the ids ascending |
| WorklogBatches.StoredUnderId | wtf-lib/src/services/worklogs_service.rs:80-86 | a worklog read from the store is the one stored under its id |
| WorklogBatches.StoredInFilter | wtf-lib/src/services/worklogs_service.rs:107-115 | a stored worklog with one of the statuses is listed by the status filter |
| WorklogBatches.FilteredIdStored | wtf-lib/src/services/worklogs_service.rs:107-115 | every id the status filter lists holds a worklog with one of the statuses |
| WorklogBatches.WithStateAscending | wtf-cli/src/commands/worklog.rs:206-209 | changing the status keeps the ids ascending |
| WorklogBatches.SaveAll | wtf-cli/src/commands/worklog.rs:206-210 | saving a batch keeps the store keyed by worklog id |
| WorklogBatches.SaveAllAt | wtf-cli/src/commands/worklog.rs:206-210 | each saved worklog is what its id holds afterwards |
| WorklogBatches.SaveAllOther | wtf-cli/src/commands/worklog.rs:206-210 | an id no saved worklog carries keeps what it held |
| WorklogBatches.SaveEach | wtf-cli/src/commands/worklog.rs:206-210 | the save loop stores each worklog in turn under its id |
| WorklogBatches.SaveStep | wtf-cli/src/commands/worklog.rs:206-210 | saving one more worklog is one more insertion |
| WorklogBatches.RestatusLookup | wtf-cli/src/commands/worklog.rs:206-210 | after restatusing worklogs read from the store each of them has the new status and every other id keeps its record |
| WorklogBatches.RemoveAll | wtf-cli/src/commands/worklog.rs:171-174 | removing a batch keeps the store keyed by worklog id |
| WorklogBatches.GetRemoveAll | wtf-cli/src/commands/worklog.rs:171-174 | a removed id holds nothing afterwards, every other id keeps its record |
| WorklogBatches.RemoveEach | wtf-cli/src/commands/worklog.rs:171-174 | the remove loop drops each worklog's id in turn |
| WorklogBatches.RemoveStep | wtf-cli/src/commands/worklog.rs:171-174 | removing one more id is one more removal |
| WorklogBatches.ResetKeepsPushed | wtf-cli/src/commands/worklog.rs:163-176 | reset keeps exactly the Pushed worklogs, unchanged |
| Achievements.All | wtf-lib/src/models/achievement.rs:28-39 | `Achievement::all` lists eight achievements, each once |
| Achievements.AllComplete | wtf-lib/src/models/achievement.rs:28-39 | every achievement is listed |
| Achievements.IdString | wtf-lib/src/models/achievement.rs:144-155 | every storage key is non-empty |
| Achievements.IdStringInjective | wtf-lib/src/models/achievement.rs:144-155 | two achievements share a storage key exactly when they are the same |
| Achievements.Named | wtf-lib/src/models/achievement.rs:202-204 | the achievements named are exactly those of some record |
| Achievements.NamedCard | wtf-lib/src/models/achievement.rs:215-225 | records that name each achievement once name as many achievements as there are records |
| Achievements.UnlockCountBound | wtf-lib/src/models/achievement.rs:228-235 | records with distinct achievements never outnumber the achievements |
| Achievements.AchievementData.constructor | wtf-lib/src/models/achievement.rs:195-198 | new data holds no record |
| Achievements.AchievementData.UnlockTime | wtf-lib/src/models/achievement.rs:207-212 | a time exists exactly when the achievement is unlocked, and it is its first record's |
| Achievements.AchievementData.Unlock | wtf-lib/src/models/achievement.rs:215-225 | an achievement not yet unlocked gets one record at the end and `true`; an unlocked one changes nothing and gives `false` |
| Achievements.AchievementData.CountWithinTotal | wtf-lib/src/models/achievement.rs:228-235 | the unlock count never exceeds the total count |
| Achievements.FirstTime | wtf-lib/src/models/achievement.rs:207-212 | `find` on the records returns the first record's time, and nothing exactly when no record names the achievement |
| Navigation.Navigate | wtf-cli/src/tui/helpers.rs:5-29 | only navigation keys are handled; Up/k and Down/j move one step within the bounds, Home goes to 0, End to the last index, and the index stays in range |
| Navigation.HandleListNavigation | wtf-cli/src/tui/helpers.rs:5-29 | the handler returns the handled flag and the new index the navigation rule gives |
| Navigation.NavigateAll | wtf-cli/src/tui/helpers.rs:5-29 | a selection in range stays in range whatever keys are pressed |
| Navigation.UpDownCancel | wtf-cli/src/tui/helpers.rs:5-29 | Up then Down returns to the start when the selection is strictly inside the list |
| Navigation.NavigationExamples | wtf-cli/src/tui/helpers.rs:41-115 | the unit-test cases for a list whose last index is 10: one step up, down, Home, End, both bounds, and an unhandled key |
| Tabs.AvailableTabs | wtf-cli/src/tui/types.rs:132-147 | six tabs always, in a fixed order, and Achievements last exactly when one is unlocked; no tab twice |
| Tabs.PositionOr0 | wtf-cli/src/tui/types.rs:149-165 | the position of a tab is its first index, or 0 when it is not shown |
| Tabs.NextIn | wtf-cli/src/tui/types.rs:149-154 | the next tab is a tab of the bar |
| Tabs.PreviousIn | wtf-cli/src/tui/types.rs:156-165 | the previous tab is a tab of the bar |
| Tabs.Next | wtf-cli/src/tui/types.rs:149-154 | `next` always lands on an available tab |
| Tabs.Previous | wtf-cli/src/tui/types.rs:156-165 | `previous` always lands on an available tab |
| Tabs.PositionOfIndex | wtf-cli/src/tui/types.rs:149-165 | in a bar of distinct tabs the tab at index i is found at i |
| Tabs.NextIsCyclic | wtf-cli/src/tui/types.rs:149-154 | next moves one place forward, wrapping from the last tab to the first |
| Tabs.PreviousIsCyclic | wtf-cli/src/tui/types.rs:156-165 | previous moves one place back, wrapping from the first tab to the last |
| Tabs.PreviousAfterNextIn | wtf-cli/src/tui/types.rs:149-165 | previous undoes next on a bar of distinct tabs |
| Tabs.NextAfterPreviousIn | wtf-cli/src/tui/types.rs:149-165 | next undoes previous on a bar of distinct tabs |
| Tabs.PreviousNextInverse | wtf-cli/src/tui/types.rs:149-165 | previous and next are inverse on every available tab |
| Tabs.HiddenTabCountsAsFirst | wtf-cli/src/tui/types.rs:149-165 | a hidden Achievements tab counts as the first tab |
| Logger.KeepLast | wtf-cli/src/logger.rs:56-63 | the kept messages are the last ones, at most the capacity |
| Logger.LogAllKeepsLast | wtf-cli/src/logger.rs:56-63 | whatever was logged, the buffer holds the last 100 messages, in order |
| Logger.LogAllStep | wtf-cli/src/logger.rs:56-63 | logging one message then the rest is logging all of them |
| Logger.KeepLastConcat | wtf-cli/src/logger.rs:56-63 | cutting a prefix to its last n does not change the last n of a longer sequence |
| Logger.CollectingLogger.constructor | wtf-cli/src/logger.rs:39-43 | a new logger holds no message |
| Logger.CollectingLogger.Log | wtf-cli/src/logger.rs:56-63 | the message is appended and, past 100 messages, the oldest is dropped |
| Logger.CollectingLogger.Clear | wtf-cli/src/logger.rs:50-52 | the buffer is emptied |
| Logger.CollectingLogger.GetMessages | wtf-cli/src/logger.rs:45-47 | the messages handed out are never more than 100 |
| Numbers.ParseUnsigned | wtf-lib/src/utils/version.rs:37-39 | `parse::<u64>` accepts an optional `+` and digits only, and any value it yields fits in 64 bits |
| Numbers.ParseSigned | wtf-lib/src/duration.rs:17 | `parse::<i64>` accepts an optional sign and digits only, and any value it yields lies in the signed 64-bit range |
| Numbers.ParseUnsignedRoundTrip | wtf-lib/src/utils/version.rs:37-39 | the decimal text of any number up to the 64-bit maximum parses back to that number |
| Numbers.ParseSignedRoundTrip | wtf-lib/src/duration.rs:17 | the decimal text of any signed 64-bit number, minus sign included, parses back to that number |
| Numbers.NoDigitsNoNumber | wtf-lib/src/duration.rs:17 | text without any digit is rejected by both the signed and the unsigned parser |
| Numbers.TruncDiv | wtf-cli/src/tui/operations/github.rs:96-97 | integer division by a positive count rounds toward zero: the quotient times the divisor is within one divisor of the dividend, on the dividend's side of zero |
| Version.Core | wtf-lib/src/utils/version.rs:35 | the text before the first `-` holds no `-`, and is the whole version when there is none |
| Version.SplitN3 | wtf-lib/src/utils/version.rs:36 | `splitn(3, '.')` yields one to three pieces |
| Version.SplitThree | wtf-lib/src/utils/version.rs:36 | three dot-free pieces joined by dots split back into exactly those pieces |
| Version.ParseRender | wtf-lib/src/utils/version.rs:34-41 | "major.minor.patch" text is read back as the three numbers it was written from |
| Version.IsNewerStrict | wtf-lib/src/utils/version.rs:33-43 | a version is never newer than itself, and of two versions at most one is newer than the other |
| Version.IsNewerTransitive | wtf-lib/src/utils/version.rs:33-43 | newer-than is transitive |
| Version.PrereleaseIgnored | wtf-lib/src/utils/version.rs:35-42 | a pre-release suffix is dropped before comparing, so "1.2.3-beta.0" and "1.2.3" are neither newer than the other |
| Version.NumericComparison | wtf-lib/src/utils/version.rs:37-42 | components compare as numbers, not as text: 1.10.0 is newer than 1.9.0 |
| Duration.UnitSeconds | wtf-lib/src/duration.rs:19-25 | exactly the five units h, m, s, d and w have a length in seconds |
| Duration.ParseDuration | wtf-lib/src/duration.rs:15-27 | for any text whose scaled value chrono can represent: the text before the last character must parse as i64 (else a parse error), the last character must be a known unit (else a format error), and the result is the number times the unit's seconds |
| Duration.ParseDurationRoundTrip | wtf-lib/src/duration.rs:15-27 | a written number followed by a unit, whose scaled value is within chrono's range, parses to that number scaled by the unit, for every unit |
| Duration.OutOfChronoRange | wtf-lib/src/duration.rs:19-24 | a number whose scaled value exceeds i64::MAX milliseconds lies outside what chrono can represent, so `parse_duration` panics on it |
| Duration.HoursOutOfChronoRange | wtf-lib/src/duration.rs:19 | "3000000000000h" is outside chrono's range |
| Duration.UnknownUnit | wtf-lib/src/duration.rs:25 | a valid number followed by an unknown unit is a format error, not a parse error |
| Duration.BareUnit | wtf-lib/src/duration.rs:16-17 | a lone character has no number before it and is a parse error |
| Config.SextetValue | wtf-lib/src/config.rs:157 | every URL-safe alphabet character has a six-bit value that maps back to it; padding and other bytes have none |
| Config.SextetRoundTrip | wtf-lib/src/config.rs:157 | every six-bit value's character decodes back to that value |
| Config.Base64Encode | wtf-lib/src/config.rs:157 | URL-safe base64 output is a multiple of four long and empty exactly for empty input |
| Config.GroupRoundTrip | wtf-lib/src/config.rs:157 | the four six-bit values of a three-byte group decode back to its bytes |
| Config.RoundTripOne | wtf-lib/src/config.rs:157 | a single byte encodes with two pads and decodes back |
| Config.RoundTripTwo | wtf-lib/src/config.rs:157 | two bytes encode with one pad and decode back |
| Config.GroupThenRest | wtf-lib/src/config.rs:157 | an encoded group in front of encoded text decodes to the group's bytes in front of the text's |
| Config.Base64RoundTrip | wtf-lib/src/config.rs:156-162 | decoding what was encoded gives every byte string back |
| Config.EncodedChars | wtf-lib/src/config.rs:157 | every encoded character is in the URL-safe alphabet or is padding |
| Config.Run | wtf-lib/src/config.rs:165 | the body of the capture is the longest run of accepted characters from its start |
| Config.FromStrTotal | wtf-lib/src/config.rs:139-144 | `from_str` never fails: it yields either the text itself or its decoding |
| Config.RunStopsAtClose | wtf-lib/src/config.rs:165 | a run over encoded characters stops exactly at the closing bracket |
| Config.SerializeRoundTripWordOnly | wtf-lib/src/config.rs:137-193 | when the encoding needs neither padding nor `-`, the program's own `\w+` pattern reads serialised secrets back |
| Config.EncodeA | wtf-lib/src/config.rs:156-158 | the one-byte secret "a" is written as "enc[YQ==]" |
| Config.PaddedSecretComesBackVerbatim | wtf-lib/src/config.rs:164-175 | the `\w+` pattern finds nothing in "enc[YQ==]", so a reloaded secret "a" becomes the stored text itself, not "a" |
| Config.EmptySecretComesBackVerbatim | wtf-lib/src/config.rs:164-175 | the empty default token is written "enc[]", which the pattern does not match either, so it comes back as "enc[]" |
| Config.SerializeRoundTripFixed | wtf-lib/src/config.rs:137-193 | with the corrected pattern, deserialising what serialisation wrote gives back every secret |
| Config.ConfiguredNeedsUrlAndUser | wtf-lib/src/config.rs:92-94 | the configuration counts as set up exactly when the Jira URL and user name are non-empty; the API token plays no part |
| JiraComment.PresentTexts | wtf-lib/src/models/jira.rs:72-74 | the texts kept are those present, in order; none is lost when all are present |
| JiraComment.Paragraphs | wtf-lib/src/models/jira.rs:68-78 | at most one joined paragraph per content item |
| JiraComment.PresentTextsAppend | wtf-lib/src/models/jira.rs:72-74 | filtering texts distributes over concatenation |
| JiraComment.ParagraphsAppend | wtf-lib/src/models/jira.rs:68-78 | building paragraphs distributes over concatenation |
| JiraComment.TextlessNodeSkipped | wtf-lib/src/models/jira.rs:72-74 | a text node without text contributes nothing, wherever it stands |
| JiraComment.EmptyParagraphSkipped | wtf-lib/src/models/jira.rs:68-71 | a content item without inner content leaves the formatted comment unchanged, wherever it stands |
| JiraComment.ParagraphsRecoverable | wtf-lib/src/models/jira.rs:65-81 | items are joined with "." so, when no paragraph holds a full stop, splitting the comment on "." gives the paragraphs back |
| JiraComment.FormatExample | wtf-lib/src/models/jira.rs:65-81 | texts of one item are joined with a space and items with ".", skipping a node without text |
| UiHelpers.TruncateAsWritten | wtf-cli/src/tui/ui_helpers.rs:32-39 | a string within the limit is returned unchanged |
| UiHelpers.TruncatedOverflowsLimit | wtf-cli/src/tui/ui_helpers.rs:32-39 | as written, a truncated string is the first max-1 characters and a three-character suffix, two characters over the limit |
| UiHelpers.TruncateWith | wtf-cli/src/tui/ui_helpers.rs:32-39 | within the limit the string is unchanged; over it, the result is the first max-1 characters (none when max is 0) followed by the suffix |
| UiHelpers.Truncate | wtf-cli/src/tui/ui_helpers.rs:32-39 | with the one-character ellipsis, a result never exceeds a positive limit, and a cut string keeps its first max-1 characters and ends in the ellipsis |
| UiHelpers.TruncateIdempotent | wtf-cli/src/tui/ui_helpers.rs:32-39 | truncating twice is truncating once |
| UiHelpers.Utf8Len | wtf-cli/src/tui/ui_helpers.rs:72 | `str::len` counts UTF-8 bytes, at least one per character |
| UiHelpers.Utf8LenAppend | wtf-cli/src/tui/ui_helpers.rs:72 | the byte length of a concatenation is the sum of the byte lengths |
| UiHelpers.JoinExtendLast | wtf-cli/src/tui/ui_helpers.rs:73-74 | pushing a space and a word onto the last line extends the joined text the same way |
| UiHelpers.WrapStepKeeps | wtf-cli/src/tui/ui_helpers.rs:69-79 | one word of the loop keeps the lines holding the words so far, each line non-empty and over the width only when a single word |
| UiHelpers.WrapFoldInvariant | wtf-cli/src/tui/ui_helpers.rs:69-79 | the loop invariant holds after any number of words |
| UiHelpers.WrapProperties | wtf-cli/src/tui/ui_helpers.rs:65-86 | the wrapped lines joined by single spaces are the words joined by single spaces; no line is empty; a line exceeds the width only when it is a single word |
| UiHelpers.WrapText | wtf-cli/src/tui/ui_helpers.rs:65-86 | the loop computes the specified wrapping, so its lines keep the words in order, are never empty and overflow only as single words |
| UiHelpers.LetterRun | wtf-cli/src/tui/ui_helpers.rs:158 | the longest run of ASCII letters from a position |
| UiHelpers.RunNot | wtf-cli/src/tui/ui_helpers.rs:95 | the longest run of characters other than a given one from a position |
| UiHelpers.TagAt | wtf-cli/src/tui/ui_helpers.rs:158 | a tag match found at a position starts there and lies within the text |
| UiHelpers.NextTag | wtf-cli/src/tui/ui_helpers.rs:158-161 | the next tag found lies at or after the start and is a match at its own position |
| UiHelpers.NextTagLeftmost | wtf-cli/src/tui/ui_helpers.rs:158-161 | the tag found is the leftmost one, and when none is found no position matches |
| UiHelpers.NoTagBefore | wtf-cli/src/tui/ui_helpers.rs:158-161 | no tag at the start and none after it up to a bound is none on the whole range |
| UiHelpers.Stripped | wtf-cli/src/tui/ui_helpers.rs:161-227 | removing the tags never lengthens the text |
| UiHelpers.ApplyTag | wtf-cli/src/tui/ui_helpers.rs:172-192 | an opening tag only deepens, a closing tag only lifts and never drives a depth below zero; other tags change nothing |
| UiHelpers.SegmentTextsSnoc | wtf-cli/src/tui/ui_helpers.rs:254-258 | one more segment adds its text at the end of the concatenation |
| UiHelpers.StyledFromNoEmpty | wtf-cli/src/tui/ui_helpers.rs:203-232 | no segment produced is empty |
| UiHelpers.StyledFromTexts | wtf-cli/src/tui/ui_helpers.rs:161-227 | the concatenated segment texts are the input with its matched tags removed |
| UiHelpers.AfterTagTexts | wtf-cli/src/tui/ui_helpers.rs:198-219 | closing a segment at a style change never emits an empty one |
| UiHelpers.AfterTagConcat | wtf-cli/src/tui/ui_helpers.rs:198-219 | a tag moves the pending text into the segments without losing or adding any |
| UiHelpers.ParseHtmlStyledText | wtf-cli/src/tui/ui_helpers.rs:143-235 | the loop yields the specified segments: none empty, and their texts together are the input with its tags removed |
| UiHelpers.CleanAndStripHtml | wtf-cli/src/tui/ui_helpers.rs:238-260 | entities and `<br>` variants are replaced first and the tags then removed, which makes the text no longer than the replaced one |
| UiHelpers.LinkAt | wtf-cli/src/tui/ui_helpers.rs:95 | a link match at a position has a non-empty url without `"` and a non-empty text without `<` |
| UiHelpers.RunAvoids | wtf-cli/src/tui/ui_helpers.rs:97 | the run measured holds no occurrence of the stop character |
| UiHelpers.NextLink | wtf-cli/src/tui/ui_helpers.rs:98 | the next link found lies at or after the start and is a match at its own position |
| UiHelpers.NextLinkLeftmost | wtf-cli/src/tui/ui_helpers.rs:98 | the link found is the leftmost one, and when none is found no position matches |
| UiHelpers.NoLinkBefore | wtf-cli/src/tui/ui_helpers.rs:100 | no link at the start and none after it up to a bound is none on the whole range |
| UiHelpers.Gap | wtf-cli/src/tui/ui_helpers.rs:101-106 | the text between two links gives at most one piece, without a url |
| UiHelpers.ParseDescription | wtf-cli/src/tui/ui_helpers.rs:90-131 | the loop over the links yields the specified pieces |
| UiHelpers.AppendGapAndLink | wtf-cli/src/tui/ui_helpers.rs:102-117 | one match adds the cleaned text before it, when there is some, then the link as (text, url) |
| UiHelpers.AppendLastGap | wtf-cli/src/tui/ui_helpers.rs:120-128 | after the last link the cleaned rest is added, and the whole cleaned description when nothing was produced |
| UiHelpers.LinkEntriesAppend | wtf-cli/src/tui/ui_helpers.rs:90-131 | the linked entries of a concatenation are those of each part |
| UiHelpers.DescriptionLinks | wtf-cli/src/tui/ui_helpers.rs:90-131 | the pieces carrying a url are exactly the links of the description, in order |
| UiHelpers.LinksAfterLast | wtf-cli/src/tui/ui_helpers.rs:120-128 | with no link left, the trailing pieces add no linked entry |
| UiHelpers.LinksThroughLink | wtf-cli/src/tui/ui_helpers.rs:102-117 | the gap before a link adds no linked entry and the link adds its own |
| UiHelpers.NoLinkSinglePiece | wtf-cli/src/tui/ui_helpers.rs:125-128 | a description without a JIRA link comes back as one unlinked, cleaned piece |
| TuiTypes.DeliveriesOrder | wtf-cli/src/tui/types.rs:82-88 | hand-over number i times the subscriber count plus j gives event i to subscriber j: FIFO, then registration order |
| TuiTypes.DeliveriesLength | wtf-cli/src/tui/types.rs:82-88 | every event reaches every subscriber exactly once |
| TuiTypes.DeliveriesSnoc | wtf-cli/src/tui/types.rs:82-88 | delivering a queue and then one more event is delivering the longer queue |
| TuiTypes.DeliveriesOne | wtf-cli/src/tui/types.rs:84-86 | one event is handed to every subscriber in registration order |
| TuiTypes.EventBus.constructor | wtf-cli/src/tui/types.rs:67-73 | a new bus has no pending events, no subscribers and no history |
| TuiTypes.EventBus.Publish | wtf-cli/src/tui/types.rs:76-79 | publishing appends the event to both the pending queue and the history |
| TuiTypes.EventBus.Subscribe | wtf-cli/src/tui/types.rs:91-93 | the new subscriber goes after those already registered |
| TuiTypes.EventBus.PopFront | wtf-cli/src/tui/types.rs:83 | popping an empty queue yields nothing; otherwise the oldest event is removed and returned |
| TuiTypes.EventBus.ProcessEvents | wtf-cli/src/tui/types.rs:82-88 | every pending event is delivered FIFO to every subscriber in registration order, and the queue is left empty |
| TuiTypes.NewTuiBus | wtf-cli/src/tui/mod.rs:63-66 | the TUI's bus starts with the wizard handler and then the achievement tracker, and nothing pending |
| WizardPopup.StepNumber | wtf-cli/src/tui/ui/popups/wizard.rs:534-547 | every step is drawn on one of the rows 1 to 8 |
| WizardPopup.MatchesExactlyOneRow | wtf-cli/src/tui/ui/popups/wizard.rs:534-547 | a row matches a step exactly when it is that step's row, so every step lights exactly one row |
| WizardPopup.RowTwoIsLinking | wtf-cli/src/tui/ui/popups/wizard.rs:537 | row 2 is lit for the auto-linking and the manual-linking step, and for no other |
| WizardPopup.ScrollWindow | wtf-cli/src/tui/ui/popups/wizard.rs:139-154 | the listed slice lies within the meetings, shows all of them or exactly ten, and always holds the selected one |
| WizardPopup.ScrollWindowExamples | wtf-cli/src/tui/ui/popups/wizard.rs:139-154 | short lists are shown whole, a selection near the top starts at 0, in the middle centres the window, near the end pins the last ten rows |
| WizardCore.NewWizard | wtf-cli/src/tui/wizard.rs:30-43 | a new wizard is at Syncing for its sprint, with no completed step, empty summary, rollback log, skip reasons and push log, and the spinner at 0 |
| WizardCore.RecordMeetingWorklog | wtf-cli/src/tui/operations/worklogs.rs:214-219 | a meeting worklog is counted, its time added to the total, its id appended to the rollback log; nothing else changes |
| WizardCore.RecordCreatedWorklog | wtf-cli/src/tui/operations/github.rs:170-176 | a session worklog only appends its id to the rollback log |
| WizardCore.RecordLinkedMeeting | wtf-cli/src/tui/wizard.rs:95-103 | an auto-linked meeting is appended to the linked ids and remembered as having had no link |
| WizardCore.PushCompleted | wtf-cli/src/tui/wizard.rs:510-516 | a finished push marks step 7 done and moves to Complete, leaving summary, rollback log and push log alone |
| WizardCore.Animated | wtf-cli/src/tui/wizard.rs:561-567 | one tick moves the spinner on modulo 10 and changes nothing else; at Complete it does nothing |
| WizardCore.SpinnerCycles | wtf-cli/src/tui/wizard.rs:561-567 | outside Complete, k ticks move a frame below 10 on by k, modulo 10 |
| WizardCore.ModTenStep | wtf-cli/src/tui/wizard.rs:564 | one more tick after reducing modulo 10 is the same as reducing afterwards |
| WizardCore.LastTen | wtf-cli/src/tui/wizard.rs:607-611 | the result is a suffix of the log: exactly the last ten entries when there are more than ten, the whole log otherwise |
| WizardCore.PushLogKeepsLastTen | wtf-cli/src/tui/wizard.rs:607-611 | from a log of at most ten lines, appending lines one by one and dropping the oldest past ten leaves the last ten lines seen |
| WizardCore.LastTenStep | wtf-cli/src/tui/wizard.rs:607-611 | one more line keeps the log equal to the last ten lines seen |
| WizardCore.LogPushLine | wtf-cli/src/tui/wizard.rs:607-611 | the new line is always last, and the log never grows past ten lines (a longer log keeps its length); that it is the last ten lines seen is `LastTenStep` and `PushLogKeepsLastTen` |
| WizardCore.WithPushProgress | wtf-cli/src/tui/wizard.rs:604-612 | a push progress event sets the counters and logs the message, keeping the step |
| WizardCore.WizardPushComplete | wtf-cli/src/tui/wizard.rs:510-524 | a running wizard completes; without one nothing changes |
| WizardCore.WizardUpdateAnimation | wtf-cli/src/tui/wizard.rs:561-567 | a running wizard's spinner turns; without one nothing changes |
| Wizard.FindSprint | wtf-cli/src/tui/wizard.rs:160-164 | the sprint found has the id and is in the list; none is found exactly when no sprint has it |
| Wizard.FindSprintFirst | wtf-cli/src/tui/wizard.rs:160-164 | of several sprints with the id, the first is found |
| Wizard.ExtendsTransitive | wtf-cli/src/tui/wizard.rs:58-508 | keeping the sprint while the completed steps and the rollback log only grow is transitive across steps |
| Wizard.LaunchWizard | wtf-cli/src/tui/wizard.rs:15-56 | only a selected sprint with a start and an end gets a new wizard, which starts at Syncing and asks for a fetch; otherwise nothing changes |
| Wizard.RecordLinkedMeetings | wtf-cli/src/tui/wizard.rs:95-103 | every linked meeting is appended to the rollback log and remembered as having had no link; other records are kept |
| Wizard.AutoLinked | wtf-cli/src/tui/wizard.rs:96-112 | the count of auto-linked meetings equals the ids added to the rollback log, which are the linked ones, and step 1 is done |
| Wizard.AutoLinkStep | wtf-cli/src/tui/wizard.rs:66-112 | the unlinked meetings whose text names a stored issue are linked in the store and recorded in the wizard |
| Wizard.WizardStepAutolink | wtf-cli/src/tui/wizard.rs:58-119 | with a wizard, auto-link then go on to manual linking; without one nothing happens |
| Wizard.AdvanceToManualLinking | wtf-cli/src/tui/wizard.rs:121-154 | after a refresh, unlinked meetings open the manual linking step; with none, step 2 is done and the meeting worklogs follow |
| Wizard.MeetingsToLog | wtf-cli/src/tui/wizard.rs:169-175 | exactly the linked meetings starting within the sprint, in order |
| Wizard.MeetingWorklog | wtf-cli/src/tui/operations/worklogs.rs:192-212 | a meeting's worklog is Created on the linked issue, starts with the meeting and lasts end minus start |
| Wizard.LogMeetings | wtf-cli/src/tui/wizard.rs:180-184 | the loop saves every meeting's worklog and records each in the wizard |
| Wizard.MeetingsLoggedNothing | wtf-cli/src/tui/wizard.rs:180-184 | no meeting leaves the wizard unchanged |
| Wizard.LogMeetingAt | wtf-cli/src/tui/wizard.rs:180-184 | one iteration: after the meetings already logged, the next one's worklog is saved and recorded, so the store and the wizard are those of the longer prefix |
| Wizard.LogMeetingSteps | wtf-cli/src/tui/wizard.rs:180-184 | one more meeting adds exactly its worklog to the store and one recorded worklog, with its time and id, to the wizard |
| Wizard.MeetingsLoggedSnoc | wtf-cli/src/tui/wizard.rs:180-184 | the wizard after one more meeting is the wizard before it with one more meeting worklog recorded |
| Wizard.LogMeeting | wtf-cli/src/tui/wizard.rs:181-183 | a linked meeting's worklog is saved under its id and the wizard records it |
| Wizard.CreateMeetingWorklogs | wtf-cli/src/tui/wizard.rs:156-202 | with a dated sprint, one worklog per linked meeting in it; then a refresh, step 3 done, and the GitHub step with no sessions yet |
| Wizard.SprintSessions | wtf-cli/src/tui/wizard.rs:225-236 | exactly the sessions on a day of the sprint that name a Jira issue |
| Wizard.SessionConfirmation | wtf-cli/src/tui/wizard.rs:324-344 | the confirmation names the session, its first description part, its first issue, the day, the share, the day's total and the limit |
| Wizard.SessionDone | wtf-cli/src/tui/wizard.rs:346-368 | a session's worklogs are counted, their time added, their ids recorded, and the next session is current |
| Wizard.RunSessions | wtf-cli/src/tui/wizard.rs:272-372 | the session loop keeps the store keyed by id |
| Wizard.SaveAllConcat | wtf-cli/src/tui/wizard.rs:347 | saving two lists of worklogs one after the other is saving their concatenation |
| Wizard.RunSessionsSaved | wtf-cli/src/tui/wizard.rs:272-372 | the store a run leaves is the old one with the worklogs it made saved in order |
| Wizard.RunSessionsLogged | wtf-cli/src/tui/wizard.rs:272-372 | a run adds exactly the ids of the worklogs it made to the rollback log |
| Wizard.RunSessionsKeeps | wtf-cli/src/tui/wizard.rs:272-372 | a run keeps the sprint and the linked meetings, and only adds completed steps |
| Wizard.RunSessionsExtends | wtf-cli/src/tui/wizard.rs:272-372 | a run extends the wizard it started from |
| Wizard.RunSessionsEnd | wtf-cli/src/tui/wizard.rs:279-344 | a run ends past the last session with step 4 done and gap filling next, or on the first session over the daily limit with its confirmation open |
| Wizard.ProcessGitHubSessions | wtf-cli/src/tui/wizard.rs:272-298 | only a wizard at the GitHub step has sessions to work through; otherwise nothing changes |
| Wizard.RunGitHubSessions | wtf-cli/src/tui/wizard.rs:272-369 | processing and advancing one session after another, mutually recursive as the source is, leaves the TUI and the store as the specified run does |
| Wizard.SessionStep | wtf-cli/src/tui/wizard.rs:277-343 | one session: over the limit the run stops with its confirmation and nothing saved; otherwise its worklogs are logged and the run goes on from the next session |
| Wizard.SessionsFinished | wtf-cli/src/tui/wizard.rs:279-284 | past the last session step 4 is done and the gap-fill step starts |
| Wizard.LogSession | wtf-cli/src/tui/wizard.rs:322-369 | a session within the limit has its worklogs saved and counted, and the next session becomes current |
| Wizard.RunSessionsOver | wtf-cli/src/tui/wizard.rs:300-320 | in the specified run, a session over the daily limit ends the run with its confirmation |
| Wizard.RunSessionsNext | wtf-cli/src/tui/wizard.rs:322-369 | in the specified run, a session within the limit leaves the rest to the next session |
| Wizard.RunSessionsPast | wtf-cli/src/tui/wizard.rs:279-284 | in the specified run, being past the last session closes step 4 |
| Wizard.SessionOnce | wtf-cli/src/tui/wizard.rs:300-357 | one session opens its confirmation when over the limit, else saves its worklogs and moves to the next |
| Wizard.CreateGitHubWorklogs | wtf-cli/src/tui/wizard.rs:204-270 | a wizard at the GitHub step takes its sprint's sessions; with none, step 4 is done with a skip reason and gap filling follows; then the sessions are worked through |
| Wizard.InsertByKey | wtf-cli/src/tui/wizard.rs:379 | inserting an issue keeps every other and adds it once |
| Wizard.InsertByKeyOrdered | wtf-cli/src/tui/wizard.rs:379 | inserting into a key-ordered list keeps it key-ordered |
| Wizard.NotLessChain | wtf-cli/src/tui/wizard.rs:379 | the key order is transitive |
| Wizard.HeadKeyOrdered | wtf-cli/src/tui/wizard.rs:379 | a head not greater than an ordered tail gives an ordered list |
| Wizard.SortedIssues | wtf-cli/src/tui/wizard.rs:378-379 | the stored issues, each once, sorted by key, whatever the map's order |
| Wizard.FillGaps | wtf-cli/src/tui/wizard.rs:374-389 | with a wizard the gap-fill popup opens for its sprint with every issue sorted by key, nothing selected or searched |
| Wizard.CreatedInRange | wtf-cli/src/tui/wizard.rs:408-417 | exactly the Created worklogs starting within the sprint, in order |
| Wizard.ReviewStep | wtf-cli/src/tui/wizard.rs:391-448 | after a refresh the Created worklogs of the sprint are counted; with none steps 6 and 7 are done and the wizard is Complete, else step 6 is done and review starts with no excluded day |
| Wizard.PushStarted | wtf-cli/src/tui/wizard.rs:453-457 | the push step starts at Pushing with the reviewed count as its total |
| Wizard.StagedForPush | wtf-cli/src/tui/wizard.rs:473-490 | staging keeps the store keyed by id |
| Wizard.StagingCoversSprint | wtf-cli/src/tui/wizard.rs:473-490 | every Created worklog of the sprint is Staged in the store afterwards |
| Wizard.StagingTouchesNothingElse | wtf-cli/src/tui/wizard.rs:473-490 | no other worklog is touched |
| Wizard.CreatedInRangeAscending | wtf-cli/src/tui/wizard.rs:408-417 | a selection from worklogs in id order stays in id order |
| Wizard.AscendingSnoc | wtf-cli/src/tui/wizard.rs:408-417 | appending a larger id keeps the order |
| Wizard.PushStep | wtf-cli/src/tui/wizard.rs:450-508 | the wizard turns to Pushing; with a dated sprint its Created worklogs are staged, the push runs on the store and a refresh starts |
| Wizard.PushStaged | wtf-cli/src/tui/wizard.rs:470-508 | with a range, the worklogs are saved as Staged, the push runs on what is staged and a refresh starts |
| Wizard.UnlinkAll | wtf-cli/src/tui/wizard.rs:531-539 | unlinking keeps the meeting store keyed by id |
| Wizard.GetUnlinkAll | wtf-cli/src/tui/wizard.rs:531-539 | a recorded meeting that is stored has no link afterwards; any other record is as it was |
| Wizard.GetUnlinkOne | wtf-cli/src/tui/wizard.rs:533-538 | unlinking one recorded meeting clears its link when it is stored and changes no other record |
| Wizard.Rollback | wtf-cli/src/tui/wizard.rs:526-558 | every recorded meeting is unlinked and every recorded worklog deleted; without a wizard nothing changes |
| Wizard.UnlinkEach | wtf-cli/src/tui/wizard.rs:531-539 | the unlinking loop leaves the specified store |
| Wizard.RemoveEachId | wtf-cli/src/tui/wizard.rs:542-549 | the deletion loop removes each recorded worklog |
| Wizard.LocalKeyIsId | wtf-cli/src/tui/wizard.rs:543 | a worklog is stored under its own id |
| Wizard.AutoLinkOnlyLinks | wtf-cli/src/tui/wizard.rs:89-93 | auto-linking only ever changes a meeting's link, and only for the meetings it records |
| Wizard.RollbackUndoesAutoLink | wtf-cli/src/tui/wizard.rs:526-539 | rolling back what the auto-linking recorded restores every meeting that was stored unlinked |
| Wizard.OnWizardEvent | wtf-cli/src/tui/wizard.rs:578-617 | a finished fetch during Syncing starts the auto-linking, a finished push during Pushing completes the wizard, push progress during Pushing is logged; anything else changes nothing |
| TuiWorklogs.StagedWorklogs | wtf-cli/src/tui/operations/worklogs.rs:17-20 | exactly the Staged worklogs of the store, read from the store and not from the snapshot |
| TuiWorklogs.PushedEntry | wtf-cli/src/tui/operations/worklogs.rs:75-78 | a logged entry becomes Pushed with Jira's worklog id, and nothing else about it changes |
| TuiWorklogs.PushLocals | wtf-cli/src/tui/operations/worklogs.rs:57-109 | the store stays keyed by id while the entries are pushed |
| TuiWorklogs.CountLogged | wtf-cli/src/tui/operations/worklogs.rs:73-79 | successes never exceed the entries; all of them when every reply logged, none when none did |
| TuiWorklogs.PushLines | wtf-cli/src/tui/operations/worklogs.rs:80-107 | one progress line per staged entry |
| TuiWorklogs.MarksHaveNoBrackets | wtf-cli/src/tui/operations/worklogs.rs:80-107 | the success and failure marks hold no bracket, so the counter is the first bracketed text of a line |
| TuiWorklogs.PushLineParsesOne | wtf-cli/src/tui/operations/worklogs.rs:80-107 | every kind of progress line carries `[i+1/n]`, which the TUI's progress parser reads back |
| TuiWorklogs.PushLineParses | wtf-cli/src/tui/operations/worklogs.rs:80-107 | line i of a push reads back as progress i+1 of the number of staged entries |
| TuiWorklogs.PushLinesInOrder | wtf-cli/src/tui/operations/worklogs.rs:80-107 | every line of a push has its brackets in order |
| TuiWorklogs.PushLocalsOther | wtf-cli/src/tui/operations/worklogs.rs:57-109 | an id no pushed entry carries keeps its record |
| TuiWorklogs.PushLocalsAt | wtf-cli/src/tui/operations/worklogs.rs:73-107 | entry i is saved as Pushed with Jira's id exactly when its reply logged a worklog, and is left alone otherwise |
| TuiWorklogs.PushOutcome | wtf-cli/src/tui/operations/worklogs.rs:57-109 | a Staged worklog whose reply logged is Pushed with Jira's id afterwards; one whose reply was empty or an error stays Staged and unchanged |
| TuiWorklogs.PushLeavesOthers | wtf-cli/src/tui/operations/worklogs.rs:57-109 | the push touches no record that was not Staged |
| TuiWorklogs.HandlePushWorklogs | wtf-cli/src/tui/operations/worklogs.rs:15-118 | with nothing Staged nothing is pushed and a wizard at Pushing completes; otherwise the Staged ids are historised first and every entry is pushed |
| TuiWorklogs.PushAll | wtf-cli/src/tui/operations/worklogs.rs:53-115 | the loop's store, Jira side and lines are the specified ones, with successes plus errors equal to the entries |
| TuiWorklogs.PushEntry | wtf-cli/src/tui/operations/worklogs.rs:80-107 | one entry of the loop: its push is applied to the store and the Jira side, its line added and the success or error counted |
| TuiWorklogs.PushLinesSnoc | wtf-cli/src/tui/operations/worklogs.rs:80-107 | the next entry's line extends the lines already written |
| TuiWorklogs.PushStep | wtf-cli/src/tui/operations/worklogs.rs:57-109 | one more entry adds at most its own Pushed record |
| TuiWorklogs.PushOne | wtf-cli/src/tui/operations/worklogs.rs:58-108 | one `add_time`: on a logged reply the entry is saved as Pushed, otherwise the store is unchanged; the line matches the outcome |
| TuiWorklogs.SelectionReset | wtf-cli/src/tui/operations/worklogs.rs:120-139 | only the worklog selection goes back to 0 |
| TuiWorklogs.HandleResetWorklogs | wtf-cli/src/tui/operations/worklogs.rs:120-139 | every Created or Staged worklog of the snapshot is removed, a refresh starts, and the worklog selection is reset |
| TuiWorklogs.HandleDeleteWorklog | wtf-cli/src/tui/operations/worklogs.rs:141-148 | a stored worklog is removed and a refresh starts; an unknown id changes nothing |
| TuiWorklogs.DeleteLookup | wtf-cli/src/tui/operations/worklogs.rs:141-148 | deleting empties that id and keeps every other |
| TuiWorklogs.Toggled | wtf-cli/src/tui/operations/worklogs.rs:150-171 | Created and Staged swap; Pushed stays Pushed |
| TuiWorklogs.ToggleStore | wtf-cli/src/tui/operations/worklogs.rs:150-171 | toggling keeps the store keyed by id |
| TuiWorklogs.HandleToggleWorklogStage | wtf-cli/src/tui/operations/worklogs.rs:150-171 | the record's status is toggled, and a refresh starts exactly when a record changed |
| TuiWorklogs.ToggleLookup | wtf-cli/src/tui/operations/worklogs.rs:150-171 | toggling changes only the status of the toggled record |
| TuiWorklogs.KeyIsId | wtf-cli/src/tui/operations/worklogs.rs:150-171 | the record under a key carries that key as its id |
| TuiWorklogs.ToggleTwice | wtf-cli/src/tui/operations/worklogs.rs:150-171 | toggling twice gives the store back |
| TuiWorklogs.HandleStageAllWorklogs | wtf-cli/src/tui/operations/worklogs.rs:173-190 | every Created worklog of the snapshot is saved as Staged, then a refresh starts |
| TuiWorklogs.StageAllLookup | wtf-cli/src/tui/operations/worklogs.rs:173-190 | on a snapshot of the store, stage-all turns every Created into Staged and touches nothing else |
| TuiWorklogs.CreateWorklogFromMeeting | wtf-cli/src/tui/operations/worklogs.rs:192-220 | a Created worklog for the meeting's span, linked to it, is saved; a running wizard counts it, adds its time and keeps its id for rollback |
| GitHubOps.InsertNewestFirst | wtf-cli/src/tui/operations/github.rs:70 | inserting a session keeps every other and adds it once |
| GitHubOps.InsertKeepsNewestFirst | wtf-cli/src/tui/operations/github.rs:70 | inserting into a newest-first list keeps it newest first |
| GitHubOps.HeadNewestFirst | wtf-cli/src/tui/operations/github.rs:70 | a head no older than a newest-first tail gives a newest-first list |
| GitHubOps.NewestFirstSort | wtf-cli/src/tui/operations/github.rs:69-70 | the sort is a permutation of the sessions |
| GitHubOps.SortIsNewestFirst | wtf-cli/src/tui/operations/github.rs:69-70 | the sort lists the sessions newest first |
| GitHubOps.TimePerIssue | wtf-cli/src/tui/operations/github.rs:95-100 | one issue gets the whole session; several share it by integer division rounded toward zero |
| GitHubOps.FirstPart | wtf-cli/src/tui/operations/github.rs:112-116 | the description up to its first `;`, or the whole of it when there is none |
| GitHubOps.KnownIssuesMembers | wtf-cli/src/tui/operations/github.rs:142-150 | exactly the listed issues the database knows are kept |
| GitHubOps.SessionWorklog | wtf-cli/src/tui/operations/github.rs:152-168 | a Created worklog on the issue, at the session's start, with the share and the GitHub activity comment |
| GitHubOps.SessionWorklogsAt | wtf-cli/src/tui/operations/github.rs:142-169 | worklog i is the one made for known issue i, and there is one per known issue |
| GitHubOps.SessionWorklogsSound | wtf-cli/src/tui/operations/github.rs:142-169 | every worklog made is for a known issue of the session, at its start, with the share |
| GitHubOps.SessionWorklogsComplete | wtf-cli/src/tui/operations/github.rs:142-169 | every known issue of the session gets a worklog and unknown ones get none |
| GitHubOps.KnownIssuesStep | wtf-cli/src/tui/operations/github.rs:144-150 | one more issue is kept exactly when the database knows it |
| GitHubOps.SessionWorklogsStep | wtf-cli/src/tui/operations/github.rs:142-169 | one more known issue adds its worklog at the end |
| GitHubOps.RecordCreatedWorklogs | wtf-cli/src/tui/operations/github.rs:170-176 | a running wizard's rollback log gains the created ids in order and nothing else changes |
| GitHubOps.RecordCreatedWorklogsSnoc | wtf-cli/src/tui/operations/github.rs:170-176 | recording one more id is one more single record |
| GitHubOps.SaveAllSnoc | wtf-cli/src/tui/operations/github.rs:162-168 | saving one more worklog inserts it under its id |
| GitHubOps.CreateWorklogsFromSession | wtf-cli/src/tui/operations/github.rs:134-197 | one worklog per known issue is saved and recorded in a running wizard; the count returned is those made, and a refresh starts only when some were made |
| GitHubOps.CreateSessionWorklogs | wtf-cli/src/tui/operations/github.rs:142-185 | the loop over the issues saves and records exactly the specified worklogs |
| GitHubOps.CreateForIssue | wtf-cli/src/tui/operations/github.rs:142-176 | one issue of the loop leaves the store, the count and a running wizard as the longer prefix of issues specifies |
| GitHubOps.SessionStep | wtf-cli/src/tui/operations/github.rs:142-169 | one more issue adds its worklog at the end when the database knows it, and nothing otherwise |
| GitHubOps.CreateSessionWorklog | wtf-cli/src/tui/operations/github.rs:152-176 | one known issue's worklog is stored after those already made and a running wizard keeps its id after theirs |
| GitHubOps.SelectedSession | wtf-cli/src/tui/operations/github.rs:69-75 | the session under the cursor, counting newest first, exists exactly when the cursor is within the list |
| GitHubOps.ChooseSession | wtf-cli/src/tui/operations/github.rs:72-131 | no selection, no issues or an unknown first issue do nothing; a share that takes the day over the limit asks for confirmation; otherwise worklogs are made |
| GitHubOps.OverLimitAsksAboutFirstIssue | wtf-cli/src/tui/operations/github.rs:107-125 | a session over the limit asks about its first issue, for its share of the time, on its day |
| GitHubOps.HandleCreateWorklogFromSession | wtf-cli/src/tui/operations/github.rs:67-132 | the operation does what the choice says: nothing, open the confirmation only, or create the session's worklogs |
| MeetingOps.SaveMeeting | wtf-cli/src/tui/operations/meetings.rs:57 | saving a meeting stores it under its id and keeps the store keyed by id |
| MeetingOps.MeetingKeyIsId | wtf-cli/src/tui/operations/meetings.rs:55-57 | the meeting under a key carries that key as its id |
| MeetingOps.UnlinkMeeting | wtf-cli/src/tui/operations/meetings.rs:54-60 | a stored meeting loses its link and a refresh starts; an unknown id changes nothing |
| MeetingOps.UnlinkLookup | wtf-cli/src/tui/operations/meetings.rs:54-60 | after an unlink the meeting has no link and every other meeting is as it was |
| MeetingOps.LinkCandidates | wtf-cli/src/tui/operations/meetings.rs:69-93 | the candidates are exactly the keys in the title or the description, sorted without duplicates |
| MeetingOps.CandidatesAreUpperKeys | wtf-cli/src/tui/operations/meetings.rs:70-93 | every candidate is an uppercased case-insensitive match of the key pattern and holds no lower-case letter |
| MeetingOps.Usage | wtf-cli/src/tui/operations/meetings.rs:117-123 | how many meetings of the snapshot link to a key; zero exactly when none does |
| MeetingOps.IssueBeforeTransitive | wtf-cli/src/tui/operations/meetings.rs:127-142 | the popup comparator is transitive |
| MeetingOps.IssueBeforeIrreflexive | wtf-cli/src/tui/operations/meetings.rs:127-142 | no issue comes before itself |
| MeetingOps.IssueBeforeTotal | wtf-cli/src/tui/operations/meetings.rs:127-142 | two issues with different keys are ordered one way or the other |
| MeetingOps.IssueBeforeAsymmetric | wtf-cli/src/tui/operations/meetings.rs:127-142 | of two issues at most one comes first |
| MeetingOps.InsertIssue | wtf-cli/src/tui/operations/meetings.rs:126-142 | inserting an issue keeps every other and adds it once |
| MeetingOps.PopupOrder | wtf-cli/src/tui/operations/meetings.rs:126-142 | the popup's sort is a permutation of the stored issues |
| MeetingOps.InsertIssueInOrder | wtf-cli/src/tui/operations/meetings.rs:126-142 | inserting into a list in popup order keeps it in popup order |
| MeetingOps.HeadInOrder | wtf-cli/src/tui/operations/meetings.rs:126-142 | a head before an ordered tail gives an ordered list |
| MeetingOps.PopupOrderSorted | wtf-cli/src/tui/operations/meetings.rs:125-142 | the popup lists the extracted issues first, then by usage descending, then by key ascending |
| MeetingOps.ExtractedFirst | wtf-cli/src/tui/operations/meetings.rs:131-136 | every extracted issue comes before every issue that was not extracted |
| MeetingOps.ChooseLink | wtf-cli/src/tui/operations/meetings.rs:62-159 | an unknown meeting does nothing; exactly one known candidate links directly; nothing opens exactly when no issue is stored and there is no single known candidate; otherwise the popup opens over a non-empty list in popup order, at index 0 with an empty query |
| MeetingOps.SingleKnownCandidateLinks | wtf-cli/src/tui/operations/meetings.rs:95-108 | a meeting naming exactly one known issue is linked straight away, without a popup |
| MeetingOps.LinkMeeting | wtf-cli/src/tui/operations/meetings.rs:62-160 | the operation applies the choice to the store, the pending refresh and the popup |
| MeetingOps.ApplyLink | wtf-cli/src/tui/operations/meetings.rs:99-159 | a direct link is saved and a refresh starts, the popup choice opens it, the others change nothing |
| MeetingOps.Unlinked | wtf-cli/src/tui/operations/meetings.rs:169-174 | exactly the meetings of the snapshot without a link, in order |
| MeetingOps.AutoLinkKey | wtf-cli/src/tui/operations/meetings.rs:178-185 | the first upper-case key in "title description", none exactly when there is no such key |
| MeetingOps.LinkOne | wtf-cli/src/tui/operations/meetings.rs:183-197 | a stored meeting whose first key is known gets that key as its link; otherwise its record is unchanged |
| MeetingOps.AutoLinkStore | wtf-cli/src/tui/operations/meetings.rs:176-200 | the loop keeps the meeting store keyed by id |
| MeetingOps.AutoLinkedIds | wtf-cli/src/tui/operations/meetings.rs:176-200 | at most one linked id per meeting looked at |
| MeetingOps.AutoLinkOther | wtf-cli/src/tui/operations/meetings.rs:176-200 | a meeting id no snapshot meeting carries keeps its record |
| MeetingOps.AutoLinkAt | wtf-cli/src/tui/operations/meetings.rs:183-197 | with distinct ids, each snapshot meeting whose first key is known and which is still stored is saved with that key; the others keep their record |
| MeetingOps.GetLinkStep | wtf-cli/src/tui/operations/meetings.rs:183-197 | looking at one meeting changes its own record as the link rule says, and no other |
| MeetingOps.AutoLinkAtLast | wtf-cli/src/tui/operations/meetings.rs:183-197 | the last meeting looked at gets the link rule applied to its stored record |
| MeetingOps.AutoLinkAtEarlier | wtf-cli/src/tui/operations/meetings.rs:176-200 | with distinct ids, later meetings do not touch an earlier meeting's record |
| MeetingOps.LinkedIdsAreMeetingIds | wtf-cli/src/tui/operations/meetings.rs:176-200 | only ids of looked-at meetings get linked |
| MeetingOps.LinkedIdAt | wtf-cli/src/tui/operations/meetings.rs:183-197 | with distinct ids, a meeting is among the linked ids exactly when it was linked |
| MeetingOps.AutoLinkSnoc | wtf-cli/src/tui/operations/meetings.rs:176-200 | one more meeting updates at most its own record and linked id |
| MeetingOps.AutoLinkEach | wtf-cli/src/tui/operations/meetings.rs:176-200 | the loop leaves the specified store and returns the specified linked ids |
| MeetingOps.AutoLinkOne | wtf-cli/src/tui/operations/meetings.rs:177-199 | one meeting of the loop leaves the store and the linked ids of the longer prefix |
| MeetingOps.AutoLinkMeetings | wtf-cli/src/tui/operations/meetings.rs:162-206 | the unlinked meetings of the snapshot are linked, the count is those linked, then a refresh starts |
| MeetingOps.UnlinkedDistinct | wtf-cli/src/tui/operations/meetings.rs:169-174 | distinct ids stay distinct among the unlinked meetings |
| MeetingOps.AutoLinkSkipsLinked | wtf-cli/src/tui/operations/meetings.rs:169-174 | a meeting already linked in the snapshot is left as the store holds it |
| CliWorklog.TimeSpentSnoc | wtf-cli/src/commands/worklog.rs:117-120 | one more worklog adds its seconds to the total |
| CliWorklog.WithStatusSnoc | wtf-cli/src/commands/worklog.rs:117-120 | a status filter of a list with one more worklog gains it exactly when its status is listed |
| CliWorklog.StatusCountStep | wtf-cli/src/commands/worklog.rs:118 | one more worklog counts once more for its own status only |
| CliWorklog.StatusCountsPartition | wtf-cli/src/commands/worklog.rs:113-122 | the counts of the three statuses add up to the number of worklogs |
| CliWorklog.TimeSpentStep | wtf-cli/src/commands/worklog.rs:119 | one more worklog adds its seconds to its own status only |
| CliWorklog.TimeSpentByStatus | wtf-cli/src/commands/worklog.rs:113-122 | the total is the sum of the totals per status |
| CliWorklog.ComputeWorklogsStats | wtf-cli/src/commands/worklog.rs:113-122 | a status is counted exactly when some worklog has it, with the number that do; the counts add up to the number of worklogs and the total is the sum of the seconds |
| CliWorklog.UnpushedCount | wtf-cli/src/commands/worklog.rs:163-176 | the worklogs not Pushed are the Created and the Staged ones |
| CliWorklog.ResetCommand | wtf-cli/src/commands/worklog.rs:163-176 | every Created or Staged worklog is removed and their number, the number not Pushed, is reported |
| CliWorklog.Keep | wtf-cli/src/commands/worklog.rs:200-204 | exactly the worklogs satisfying the test, in order |
| CliWorklog.KeepAscending | wtf-cli/src/commands/worklog.rs:200-204 | filtering keeps the ids ascending |
| CliWorklog.Selection | wtf-cli/src/commands/worklog.rs:197-205 | "all" selects every worklog, otherwise exactly those whose id starts with one of the words |
| CliWorklog.SelectionAscending | wtf-cli/src/commands/worklog.rs:197-205 | the selection keeps the ids ascending |
| CliWorklog.Restaged | wtf-cli/src/commands/worklog.rs:206-210 | moving named worklogs between statuses keeps the store keyed by id |
| CliWorklog.RestagedLookup | wtf-cli/src/commands/worklog.rs:191-257 | a named worklog of the source status now has the target status; every other record, named or not, is unchanged |
| CliWorklog.AddCommand | wtf-cli/src/commands/worklog.rs:191-211 | the named Created worklogs become Staged, and the ids reported are exactly those |
| CliWorklog.RmCommand | wtf-cli/src/commands/worklog.rs:237-257 | the named Staged worklogs go back to Created, and the ids reported are exactly those |
| CliWorklog.SelectedIdIff | wtf-cli/src/commands/worklog.rs:191-257 | an id is selected exactly when it holds a worklog of the status and is named |
| CliWorklog.Accepted | wtf-cli/src/commands/worklog.rs:293-298 | an accepted worklog is Pushed and carries Jira's id when one came back, its own otherwise; nothing else changes |
| CliWorklog.PushedStore | wtf-cli/src/commands/worklog.rs:285-303 | the store stays keyed by id while worklogs are pushed |
| CliWorklog.AcceptedIds | wtf-cli/src/commands/worklog.rs:299 | at most one collected id per worklog pushed |
| CliWorklog.AcceptedIdsMembers | wtf-cli/src/commands/worklog.rs:292-302 | an id is collected exactly when a worklog with that id was accepted |
| CliWorklog.AcceptedIdsAscending | wtf-cli/src/commands/worklog.rs:285-306 | pushed in ascending id order, the collected ids ascend, so the history lists them in push order |
| CliWorklog.PushedStoreOther | wtf-cli/src/commands/worklog.rs:285-303 | an id no pushed worklog carries keeps its record |
| CliWorklog.PushedStoreAt | wtf-cli/src/commands/worklog.rs:292-302 | worklog i is saved as accepted exactly when its reply was not an error |
| CliWorklog.PushCommandOutcome | wtf-cli/src/commands/worklog.rs:283-307 | accepted, a Staged worklog is Pushed and carries Jira's id when one came back; refused, it stays Staged and unchanged |
| CliWorklog.PushCommandLeavesOthers | wtf-cli/src/commands/worklog.rs:283-307 | the push touches no record that was not Staged |
| CliWorklog.PushCommand | wtf-cli/src/commands/worklog.rs:283-307 | each Staged worklog is sent in key order; accepted ones are saved and their ids collected; a history of the collected ids is written even when it is empty |
| CliWorklog.PushOne | wtf-cli/src/commands/worklog.rs:287-304 | one `add_time`: any `Ok` accepts and saves the worklog, an error leaves the store alone |
| CliWorklog.PushAt | wtf-cli/src/commands/worklog.rs:286-304 | one iteration: after the worklogs already pushed, the next one's reply decides its record, the Jira side and the collected ids |
| CliWorklog.PushedStoreSnoc | wtf-cli/src/commands/worklog.rs:295-303 | one more reply saves the worklog as accepted, or leaves the store alone on an error |
| CliWorklog.AcceptedIdsSnoc | wtf-cli/src/commands/worklog.rs:295-303 | one more accepted worklog appends its id, a refused one nothing |
| CliWorklog.JiraIds | wtf-cli/src/commands/worklog.rs:419-420 | exactly the ids of the stored Jira worklogs |
| CliWorklog.Duplicates | wtf-cli/src/commands/worklog.rs:423-432 | exactly the local worklogs whose Jira id is among the stored ones |
| CliWorklog.CleanupLookup | wtf-cli/src/commands/worklog.rs:476-478 | cleaning up removes exactly the duplicates and keeps every other record |
| CliWorklog.CleanupCommand | wtf-cli/src/commands/worklog.rs:408-481 | the duplicates are reported with their total time and removed unless this is a dry run |

## Left out

- Threads and channels: the tokio tasks, the mpsc channels and the `FetchJiraWorklogs` semaphore are not modelled. Each background job is modelled as the sequential computation it performs.
- `handle_github_sync` (wtf-cli/src/tui/operations/github.rs:17-65) only starts a thread. The per-sprint sync it runs is modelled in `GitHubService`.
- `handle_meeting_log` (wtf-cli/src/tui/operations/meetings.rs:22-52) only starts a thread and a task. The logging it runs is modelled in `Wizard.LogMeeting` and `MeetingOps`.
- Identifiers: the md5 hashing behind worklog and session ids is not modelled. It is the parameter `idOf`.
- Floating-point hours are integer seconds. So the model does not capture:
  - `{:.1}` formatting: `TuiWorklogs.OneDecimalHours` rounds a tie half up, where `{:.1}` rounds an exact tie to even (900 s is "0.3" here, "0.2" in the program);
  - rounding in hour sums;
  - the float tolerance of the revert check;
  - `suggested_hours` and the float comparison in `would_exceed`.
- Rendering and terminal drawing are not modelled: the ui and tab modules, the popups other than the wizard's step list, and the theme. The text helpers that feed the drawing are modelled in `UiHelpers` and `WizardPopup`.
- Log output through `log`/`env_logger` is not modelled, and neither are the log line formats: the prefixes the logging macros add (wtf-cli/src/logger.rs:84-131), the level prefix of the bridge (wtf-cli/src/logger.rs:153-164) and the stdout logger. Only the 100-message buffer of `CollectingLogger` is modelled.
- IssueKeys.BoundedKeys: states that every match is a key of the bounded shape, in order, but not that every word-bounded key of that shape in the text is found. The matching direction is proved only for the letter-key scanner (`IssueKeys.LetterKeysFound`).
- Duration.ParseDuration: chrono's `Duration::hours`, `minutes`, `seconds`, `days` and `weeks` panic when the scaled value is beyond i64::MAX milliseconds. The panic is not an outcome of the model. Instead, `InChronoRange` is a precondition, and `Duration.OutOfChronoRange` shows which inputs it excludes.
- TuiState.ParseProgress, TuiState.PublishLine, TuiState.PublishProgress and TuiState.Tui.HandlePushOperations require `BracketsInOrder`: the first ']' of a line must not come before its first '['. The program slices `&log_msg[start + 1..end]` (wtf-cli/src/tui/mod.rs:205-210) and panics on such a line, and the model does not give that panic an outcome. The push thread's own lines always meet it (`TuiWorklogs.PushLinesInOrder`).
- Clock and timezone: `now`, today's local date and timezone formatting are parameters. `Common::format_date_time` is not modelled.
- `HashMap` iteration order is not modelled. Where the source walks a hash map, the order of its entries is a parameter (`days`).
- Non-ASCII text is not modelled:
  - `String::from_utf8_lossy` and UTF-8 decoding;
  - Unicode case mapping and Unicode letter classes.
  Byte strings are `seq<Byte>` and display strings are `seq<char>` over the ASCII cases the source distinguishes.
- JiraTasks.FetchSprints: the one error `fetch_board_sprints` can return, the `ProgressStyle` template failing to parse (wtf-cli/src/tasks/jira_tasks.rs:397-400), is left abstract: the parameter `fetch` may return `Err` for any board. The template is a constant, so in the program this error does not occur. A failed sprint request is modelled and is no error (`JiraTasks.FetchBoardSprints`).
- Unknown sprint states: `into_sprint` panics on a state name it does not know. The model makes a known state a precondition.
- `Branding`: the zlib decompression of the embedded text pack is the parameter `Inflate`. The JSON loading of `AppBranding` and `get_category_names` are not modelled.
- The achievement service's `unlock` (wtf-lib/src/services/achievement_service.rs:37-60) is not modelled as such. Its already-unlocked check and append are `Achievements.AchievementData.Unlock`. A failed database insert, on which it returns false, is not modelled.
- The store's `get_all` removes any record it cannot decode. This is not modelled: stored records are values and always decode.
- The CLI `worklog revert`, `list` and `history` commands are not modelled. Their core, history and revert, is modelled in `WorklogBatches` and `WorklogsService`.
- `GitHubService`: the database saves of GitHub events and sessions are not modelled. The new events and sessions are returned as sequences.
- `GitHubClient.fetch_events` is not modelled: paging through the REST API, stopping after ten pages. The pages come from the parameter `Fetch`. The gh CLI call, `get_username`, `Config::load` and `Config::save` are outside the model as well.
- Calendar end: `succ_opt().unwrap_or` at the last representable date is not modelled. Dates are unbounded integers.
- The `i64`-to-`u64` cast of the work-day count is not modelled. The count is a `nat` here, and `count_workdays` never yields a negative number.
- `version.rs` `check_latest_version`: the network request is not modelled. The version comparison is modelled in `Version`.
- TuiState.Tui.TrackKeyStr: after publishing, `check_key_sequences` writes a debug line to the logger and processes the bus at once (wtf-cli/src/tui/mod.rs:2043-2052). Neither is modelled: the event stays pending on the bus until `TuiTypes.EventBus.ProcessEvents`.
- `TuiTypes.EventBus.ProcessEvents`: the subscribers' effects on the UI are not modelled here. The method returns the ordered log of (event, subscriber) hand-overs. The handlers are modelled in `Wizard.OnWizardEvent` and `AchievementTracking`.
- Out of scope altogether:
  - the Jira and Google HTTP clients and OAuth;
  - subprocesses;
  - the interactive prompts of the other CLI commands;
  - the sled/bincode and JSON-file persistence wrappers, which are modelled as ordered key/value sequences;
  - the rayon parallel fetch;
  - the mutex cache in the achievement service, which duplicates its data.

## Findings

| source | as written | input that shows it | evidently intended | confidence | as-written member | corrected member |
|---|---|---|---|---|---|---|
| wtf-lib/src/config.rs:164-175 | encoding writes URL-safe base64 with `=` padding, but reading back matches the body with `enc\[(\w+)]`, and `\w` accepts neither `=` nor `-`; a stored text that does not match is kept verbatim | the one-byte secret "a" is written as `enc[YQ==]`, which reads back as the text `enc[YQ==]` instead of "a" | reading back what was written gives the secret | not executed | Config.PaddedSecretComesBackVerbatim | Config.SerializeRoundTripFixed |
| wtf-cli/src/tui/ui_helpers.rs:32-39 | the ellipsis appended to a shortened string is the three-character mis-decoded text `â€¦`, and the kept prefix is `max_len - 1` characters long | any string longer than `max_len` (for example 10 characters with `max_len` 5) comes out `max_len + 2` characters long | a single `…`, so the result fits in `max_len` characters | not executed | UiHelpers.TruncatedOverflowsLimit | UiHelpers.Truncate |
