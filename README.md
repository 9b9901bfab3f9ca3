# ArchTruth dashboard: a verified model of its client-side logic

This project models, in Dafny, the client-side logic of the ArchTruth web
dashboard. It covers five components. Each is one module over a small
shared module of JavaScript built-ins:

- **Js** (`js.dfy`): the built-ins the components rely on. It has
  `undefined`-or-value, the `\s` whitespace class, `startsWith`, `indexOf`,
  `split`/`join` on a string separator and `trim`.
- **Chat** (`chat.dfy`): the chat client's `send`.
  - It posts the question and appends the user's message and an empty
    assistant message.
  - It reads the streamed reply piece by piece and cuts it into frames at
    blank lines (`"\n\n"`). The open frame stays in a buffer.
  - It folds the `data:` frames' events into the assistant message.
    `context` replaces the citations. `chunk` appends text.
  - It handles failures and aborts.
- **Toc** (`toc.dfy`): the wiki's table of contents.
  - `generateAnchorId` turns a title into a slug.
  - `extractHeadings` scans the `<MARKDOWN>` region line by line with the
    expression `^(#{2,4})\s+(.+)$`.
- **Repos** (`repos.dfy`): the repository list (`ReposList`).
  - Its state: the connected repositories and three maps keyed by id.
  - The flag-clearing effect, the polling condition, the status and badge
    of a repository.
  - The connect, retry and disconnect handlers.
- **Nav** (`nav.dfy`): the dashboard shell's navigation.
  - Scoping the links to the selected organisation.
  - Choosing the active link for the current path.
  - The selected organisation and the URL pushed when it changes.
- **Home** (`home.dfy`): the landing page's login dialog.
  - The error it shows.
  - How opening and closing it rewrites the query string, using the
    `URLSearchParams` `set` and `delete` of section 6.2 of the WHATWG URL
    Standard.

Pure code is modelled as functions and lemmas. The places that change state
step by step are methods:

- the stream loop, with its invariants;
- the heading loop;
- the connecting-flag loop;
- the components' state, kept in the classes `Chat.ChatClient`,
  `Repos.ReposList`, `Home.SearchParams` and `Home.HomeClient`.

Some things outside the modelled code enter as parameters:

- the clock (`now`) and `JSON.parse` of a frame (`parse`);
- the results of the repository list's backend calls, as `Repos.Outcome`
  values, and the chat's reply, as a `Chat.Reply` value (`Rejected`,
  `NoBody` or `Body` with its pieces);
- `encodeURIComponent` and the form encoder (`encode`);
- the non-ASCII part of `toLowerCase` (`caseMap`).

The properties proved hold for every value of these parameters.

Modelling notes:

- **The heading expression.** The model follows the expression's
  backtracking semantics exactly. When nothing but whitespace follows the
  hashes, `\s+` gives its last character back to `.+`. So `"##  "`
  matches, with the captured text `" "`. Its title is that text trimmed,
  the empty string, and its anchor id is the fallback `section`. A line terminator inside the whitespace
  run does not stop a match. A line that ends in a line terminator never
  matches. So lines split from CRLF text, which end in `\r`, give no
  headings.
- **Message ids.** The chat's message ids are the `Date.now()` numbers the
  source turns into strings. Decimal strings of integers are equal exactly
  when the integers are, so ids compare as numbers.

## Model

| member | source | states |
|---|---|---|
| Js.IndexOfFirst | components/wiki/TableOfContents.tsx:26-27 | `indexOf` finds the first occurrence, and returns -1 (`None`) exactly when there is none |
| Js.SplitJoin | app/dashboard/chat/chat-client.tsx:65 | joining the parts of `split(sep)` with `sep` gives back the string |
| Js.SplitPartsFree | app/dashboard/chat/chat-client.tsx:65 | no part of `split(sep)` contains `sep` |
| Js.SplitAppend | app/dashboard/chat/chat-client.tsx:64-65 | splitting `a + t` splits `a`, then splits its last part followed by `t` |
| Js.IndexOf | components/wiki/TableOfContents.tsx:26-27 | a returned index is an occurrence of the pattern (that it is the first, and that -1 means none, is `IndexOfFirst`) |
| Js.Split | app/dashboard/chat/chat-client.tsx:65 | `split` gives at least one part (its other properties are `SplitJoin`, `SplitPartsFree`, `SplitLeftmost` and `SplitAppend`) |
| Js.SplitLeftmost | app/dashboard/chat/chat-client.tsx:65 | each complete part is followed by the leftmost occurrence of the separator after it: occurrences are taken left to right and never overlap |
| Js.Strip | components/wiki/TableOfContents.tsx:18 | removing a class of characters at both ends gives a slice of the input with only characters of the class outside it, starting and ending outside the class |
| Js.Trim | app/dashboard/chat/chat-client.tsx:37-39 | `trim()` gives a slice of the input with only whitespace before and after it, so it removes the leading and trailing whitespace and nothing else; the result has no whitespace at either end, and is empty exactly when the input is all whitespace |
| Js.TrimStart | app/dashboard/chat/chat-client.tsx:70 | definition only: the `^\s*` of the payload expression drops the leading whitespace; what it yields is stated by `Chat.Payload` (a suffix of the frame that does not start with whitespace) |
| Chat.Frames | app/dashboard/chat/chat-client.tsx:64-66 | definition only: the parts of the text read that a `"\n\n"` closes (their properties are `FramesRoundTrip` and `FramesAppend`) |
| Chat.Pending | app/dashboard/chat/chat-client.tsx:64-66 | the buffer kept after a read never contains `"\n\n"` |
| Chat.FramesRoundTrip | app/dashboard/chat/chat-client.tsx:64-68 | the frames, each followed by `"\n\n"`, then the buffer, concatenate to exactly the text read so far |
| Chat.FramesAppend | app/dashboard/chat/chat-client.tsx:64-66 | reading more text adds the frames of the old buffer plus the new text: the frames do not depend on how the input was cut into reads |
| Chat.EmptyStream | app/dashboard/chat/chat-client.tsx:56 | before any read the buffer is empty and no frame is complete |
| Chat.ReadStep | app/dashboard/chat/chat-client.tsx:62-66 | after one more read, the buffer is the open frame of everything read and the new frames are those the split yields |
| Chat.Payload | app/dashboard/chat/chat-client.tsx:69-70 | the payload is what follows `data:` and all the whitespace after it: a suffix of the frame that does not start with whitespace |
| Chat.EventsOf | app/dashboard/chat/chat-client.tsx:68-70 | no more events than frames (`EventsOfCount` and `EventsOfAt` state which events) |
| Chat.EventsOfCount | app/dashboard/chat/chat-client.tsx:68-72 | there are exactly as many events as frames that start with `data:` |
| Chat.EventsOfAt | app/dashboard/chat/chat-client.tsx:68-72 | the event of a `data:` frame is `JSON.parse` of its payload, and it comes right after the events of the `data:` frames before it |
| Chat.EventsSnoc | app/dashboard/chat/chat-client.tsx:68-70 | one more frame adds its event exactly when it starts with `data:` |
| Chat.WithCitations | app/dashboard/chat/chat-client.tsx:75-77 | definition only: the `map` that sets the citations of the messages with the assistant's id (its effect is stated by `StampStep`) |
| Chat.WithContent | app/dashboard/chat/chat-client.tsx:80-82 | definition only: the `map` that sets the content of the messages with the assistant's id (its effect is stated by `StampStep`) |
| Chat.StampAll | app/dashboard/chat/chat-client.tsx:75-82 | the `map` updates only messages with the assistant's id; all others, and every id and role, are unchanged |
| Chat.NoChunkNoText | app/dashboard/chat/chat-client.tsx:58 | without `chunk` events the text stays empty |
| Chat.TextAppend | app/dashboard/chat/chat-client.tsx:78-79 | the assistant text is the in-order concatenation of all chunk texts |
| Chat.LastCitationsAppend | app/dashboard/chat/chat-client.tsx:73-74 | the citations are those of the last `context` event |
| Chat.ContextReplaces | app/dashboard/chat/chat-client.tsx:73-74 | a `context` event replaces the citations outright, with `[]` when it has none |
| Chat.Text | app/dashboard/chat/chat-client.tsx:58-79 | definition only (lines 58 and 79): the text built so far, the `chunk` texts appended in order from the empty string; stated by `Chat.TextAppend` and `Chat.NoChunkNoText` |
| Chat.LastCitations | app/dashboard/chat/chat-client.tsx:59-74 | definition only (lines 59 and 74): the citations of the last `context` event (`[]` when it carries none), `None` before any; stated by `Chat.LastCitationsAppend`, `Chat.ContextReplaces` and `Chat.NoContextNoCitations` |
| Chat.NoContextNoCitations | app/dashboard/chat/chat-client.tsx:59 | without `context` events no citations are set |
| Chat.IgnoredEventChangesNothing | app/dashboard/chat/chat-client.tsx:71-86 | a parse failure or an unknown event can be dropped without changing any message |
| Chat.IgnoredEventText | app/dashboard/chat/chat-client.tsx:78-79 | an event that is not a chunk leaves the text as it is |
| Chat.IgnoredEventCitations | app/dashboard/chat/chat-client.tsx:73-74 | an event that is not `context` leaves the citations as they are |
| Chat.IgnoredEventChunks | app/dashboard/chat/chat-client.tsx:84-86 | an event that is not a chunk does not count as one |
| Chat.HasChunkSnoc | app/dashboard/chat/chat-client.tsx:78-82 | some chunk has been seen after one more event exactly when one had been or the event is one |
| Chat.StampPlaceholder | app/dashboard/chat/chat-client.tsx:46 | the empty assistant placeholder, once stamped, is the answer the events build |
| Chat.StampAllAgree | app/dashboard/chat/chat-client.tsx:75-82 | the messages depend on the events only through their text, whether a chunk was seen, and their last citations |
| Chat.StampStep | app/dashboard/chat/chat-client.tsx:73-82 | one event updates the messages as the loop body does: `context` sets the citations, `chunk` the content, anything else nothing |
| Chat.StampAllFresh | app/dashboard/chat/chat-client.tsx:44-46 | with a fresh assistant id, only the new assistant message is updated |
| Chat.FoldStep | app/dashboard/chat/chat-client.tsx:73-79 | one event appends its chunk text, or replaces the citations when it is `context` |
| Chat.AfterFailure | app/dashboard/chat/chat-client.tsx:89-93 | definition only: an error other than an abort drops the last message, anything else keeps the list (stated for `send` by `OutcomeFresh` and `ChatClient.Finish`) |
| Chat.FailureOf | app/dashboard/chat/chat-client.tsx:52-54 | definition only: what the `try` throws: the rejection of the request, `No response body` when there is no reader, the failure the stream stopped at, nothing when it reached `done`; stated by `Chat.RunStream` and `Chat.ChatClient.Send` (`failure == FailureOf(reply)`) |
| Chat.Reported | app/dashboard/chat/chat-client.tsx:91 | definition only: an abort reports nothing, any other failure its message or `Chat failed` when that is empty; stated by `Chat.ChatClient.Finish` and `Chat.ChatClient.Send` |
| Chat.Outcome | app/dashboard/chat/chat-client.tsx:89-93 | definition only: the messages after the stream and the `catch`; stated by `Chat.OutcomeFresh` (the user's message and, unless the reply failed, the answer built from the stream's events) and `Chat.ChatClient.Send` |
| Chat.Posted | app/dashboard/chat/chat-client.tsx:44-46 | definition only: the user's trimmed message with id `now`, then an empty assistant message with id `now + 1`, appended (stated for `send` by `ChatClient.Start`) |
| Chat.CanSend | app/dashboard/chat/chat-client.tsx:37 | definition only: a token is present and the query is not all whitespace; stated by `Chat.ChatClient.Start` and `Chat.ChatClient.Send`, which change nothing when it does not hold |
| Chat.OutcomeFresh | app/dashboard/chat/chat-client.tsx:89-96 | `send` leaves the earlier messages and the user's message, plus the answer built from the stream unless an error other than an abort removed it |
| Chat.ApplyEvent | app/dashboard/chat/chat-client.tsx:71-86 | the loop body keeps text, citations and messages equal to the fold of the events seen, one event further |
| Chat.FoldFrames | app/dashboard/chat/chat-client.tsx:68-87 | the inner loop folds the events of the new frames into text, citations and messages |
| Chat.RunStream | app/dashboard/chat/chat-client.tsx:51-88 | the read loop yields the messages stamped with the events of the complete frames, the leftover buffer never processed, and what was thrown |
| Chat.ChatClient.constructor | app/dashboard/chat/chat-client.tsx:23-26 | empty query and messages, not loading, no error |
| Chat.ChatClient.SetQuery | app/dashboard/chat/chat-client.tsx:23 | only the query changes |
| Chat.ChatClient.Start | app/dashboard/chat/chat-client.tsx:36-46 | without a token or with a blank query nothing changes; otherwise the input is cleared, loading set, the error cleared, and the user's trimmed message and an empty assistant message appended |
| Chat.ChatClient.Send | app/dashboard/chat/chat-client.tsx:36-97 | `send` to completion: nothing when it cannot send; otherwise the input is cleared, loading is off, the error is that of the failure, and the messages are the outcome of the stream |
| Chat.ChatClient.Finish | app/dashboard/chat/chat-client.tsx:89-96 | an error other than an abort is reported (its message, or "Chat failed") and the last message removed; an abort keeps the messages; loading ends off |
| Toc.ToLower | components/wiki/TableOfContents.tsx:14 | definition only: ASCII `A-Z` become `a-z`, other ASCII is kept, the rest goes through `caseMap` (its property is `ToLowerSlug`) |
| Toc.LowerChar | components/wiki/TableOfContents.tsx:14 | definition only: `A`-`Z` lowered, other ASCII kept, the rest through `caseMap`; stated by `Toc.ToLowerSlug` (lowering a string of slug characters changes nothing, whatever `caseMap` is) |
| Toc.KeepAllowed | components/wiki/TableOfContents.tsx:15 | only `a-z`, `0-9`, whitespace and `-` remain; a string of those is kept whole; a single character is kept exactly when it is allowed and dropped otherwise |
| Toc.KeepAllowedAppend | components/wiki/TableOfContents.tsx:15 | the filter of a concatenation is the concatenation of the filters: with the single-character case, the allowed characters survive in order and the others vanish |
| Toc.CollapseRuns | components/wiki/TableOfContents.tsx:16-17 | no two characters of the class stand side by side afterwards, the result is empty only for empty input, and it starts with `ch` or the input's first character |
| Toc.CollapseRunsAppend | components/wiki/TableOfContents.tsx:16-17 | text that starts outside the class is collapsed apart from whatever precedes it |
| Toc.CollapseRunsBreak | components/wiki/TableOfContents.tsx:16-17 | a character outside the class is kept, and the text on each side of it is collapsed on its own |
| Toc.CollapseRunsRun | components/wiki/TableOfContents.tsx:16-17 | a whole non-empty run becomes the single character `ch` |
| Toc.CollapseRunsNoop | components/wiki/TableOfContents.tsx:16-17 | input without runs of the class is unchanged |
| Toc.CollapseRunsClass | components/wiki/TableOfContents.tsx:16-17 | collapsing keeps every character in a class that holds the replacement and every character outside the runs |
| Toc.CollapsedChars | components/wiki/TableOfContents.tsx:15-17 | after the three replacements only slug characters remain and no `--` |
| Toc.Normalize | components/wiki/TableOfContents.tsx:13-18 | definition only: the chain of `toLowerCase` and the four replacements before the fallback; stated by `Toc.CollapsedChars`, `Toc.StripGivesSlug` and `Toc.AnchorIdIsSlug` |
| Toc.StripDashes | components/wiki/TableOfContents.tsx:18 | the result is a slice of the input with only `-` outside it, so only the dashes at the ends are removed; it neither starts nor ends with `-` |
| Toc.StripGivesSlug | components/wiki/TableOfContents.tsx:18 | stripping the end dashes leaves a slug or nothing |
| Toc.FallbackIsSlug | components/wiki/TableOfContents.tsx:18 | the fallback `section` is a slug |
| Toc.AnchorId | components/wiki/TableOfContents.tsx:12-19 | definition only: the normalized title, or `section` when nothing is left (its properties are `AnchorIdIsSlug`, `SlugIsFixedPoint` and `AnchorIdIdempotent`) |
| Toc.AnchorIdIsSlug | components/wiki/TableOfContents.tsx:12-19 | every anchor id is a non-empty string of `a-z`, `0-9` and single inner `-` |
| Toc.ToLowerSlug | components/wiki/TableOfContents.tsx:14 | lower-casing leaves slug characters unchanged |
| Toc.SlugIsFixedPoint | components/wiki/TableOfContents.tsx:12-19 | a slug is its own anchor id |
| Toc.AnchorIdIdempotent | components/wiki/TableOfContents.tsx:12-19 | `generateAnchorId` is idempotent |
| Toc.HashRun | components/wiki/TableOfContents.tsx:36 | the hash run is the longest prefix of `#` |
| Toc.HashRunIs | components/wiki/TableOfContents.tsx:36 | `k` hashes followed by another character make a hash run of `k` |
| Toc.SpaceRunSound | components/wiki/TableOfContents.tsx:36 | the whitespace run found lets `(.+)$` match, and is the longest that does: the greedy one |
| Toc.SpaceRunComplete | components/wiki/TableOfContents.tsx:36 | whenever `\s+(.+)$` can match, a run is found |
| Toc.RegexMatchRest | components/wiki/TableOfContents.tsx:36 | the expression matches exactly when 2 to 4 hashes are followed by a match of `\s+(.+)$` |
| Toc.MatchHeading | components/wiki/TableOfContents.tsx:36-38 | a match has a level of 2 to 4 |
| Toc.MatchHeadingSound | components/wiki/TableOfContents.tsx:36 | a match is the greedy match of the expression, and its text is the rest of the line |
| Toc.MatchHeadingComplete | components/wiki/TableOfContents.tsx:36 | whenever the expression matches, the match is found with the same level |
| Toc.HeadingLineEnd | components/wiki/TableOfContents.tsx:36 | a matching line does not end with a line terminator |
| Toc.LineHeadings | components/wiki/TableOfContents.tsx:36-42 | a line gives one heading if it matches and none otherwise |
| Toc.HeadingsInAppend | components/wiki/TableOfContents.tsx:35-43 | the headings of two blocks of lines are those of the first, then those of the second |
| Toc.HeadingsIn | components/wiki/TableOfContents.tsx:35-43 | definition only: the headings the loop pushes, one per matching line in line order; stated by `Toc.HeadingsInAppend`, `Toc.HeadingsInSnoc`, `Toc.HeadingsInCount`, `Toc.HeadingsWellFormed` and `Toc.ExtractHeadings` |
| Toc.HeadingsInSnoc | components/wiki/TableOfContents.tsx:35-43 | one more line pushes its heading, if any, after the others |
| Toc.HeadingsInCount | components/wiki/TableOfContents.tsx:35-43 | there is exactly one heading per matching line |
| Toc.HeadingFromWellFormed | components/wiki/TableOfContents.tsx:38-41 | a match's heading has the match's level, 2 to 4, the trimmed captured text as title (so no whitespace at either end), and that title's anchor id, a slug |
| Toc.HeadingFrom | components/wiki/TableOfContents.tsx:38-41 | definition only: the level, trimmed title and anchor id of one match; stated by `Toc.HeadingFromWellFormed` |
| Toc.LineHeadingWellFormed | components/wiki/TableOfContents.tsx:36-41 | the heading of a line is well formed |
| Toc.HeadingsWellFormed | components/wiki/TableOfContents.tsx:35-43 | every heading is well formed: level 2 to 4, trimmed title, the title's anchor id |
| Toc.TagsApart | components/wiki/TableOfContents.tsx:26-28 | when `</MARKDOWN>` comes after `<MARKDOWN>`, it starts after the whole opening tag |
| Toc.Tagged | components/wiki/TableOfContents.tsx:28 | definition only: both tags occur and the first `</MARKDOWN>` starts after the first `<MARKDOWN>`; stated by `Toc.TagsApart` and `Toc.RegionUntagged` |
| Toc.RegionBetweenTags | components/wiki/TableOfContents.tsx:25-30 | the markdown is the text before the tag, the tag, the region, then the rest from the first closing tag on |
| Toc.RegionHasNoCloseTag | components/wiki/TableOfContents.tsx:26-29 | the region between the tags holds no `</MARKDOWN>` |
| Toc.RegionUntagged | components/wiki/TableOfContents.tsx:25-30 | without both tags in order the whole markdown is scanned |
| Toc.Region | components/wiki/TableOfContents.tsx:25-30 | definition only: the text between the tags when `Tagged`, the whole input otherwise; stated by `Toc.RegionBetweenTags`, `Toc.RegionHasNoCloseTag` and `Toc.RegionUntagged` |
| Toc.TableOf | components/wiki/TableOfContents.tsx:21-46 | definition only: no headings for empty markdown, else the headings of the lines of the region (their properties are `HeadingsWellFormed`, `HeadingsInCount` and the region lemmas) |
| Toc.ExtractHeadings | components/wiki/TableOfContents.tsx:21-46 | the loop returns the headings of the region's lines in order, and none for empty markdown |
| Repos.FindIndex | app/dashboard/repos/repos-list.tsx:330 | `find` returns the first repository with the GitHub id, or none when there is none |
| Repos.RepoStatus | app/dashboard/repos/repos-list.tsx:329-333 | the status is `null` exactly when no connected repository has the GitHub id |
| Repos.RepoStatusFirst | app/dashboard/repos/repos-list.tsx:329-333 | the status reported is that of the first repository with the id: its job's status, or "connected" |
| Repos.StatusOf | app/dashboard/repos/repos-list.tsx:332 | definition only: the latest job's status, `connected` when there is no job; stated by `Repos.RepoStatusFirst` and `Repos.InsertPendingStatus` |
| Repos.Badge | app/dashboard/repos/repos-list.tsx:339-372 | definition only: the label of each job status, "Connected" for the rest (stated by `BadgeConnected`) |
| Repos.BadgeConnected | app/dashboard/repos/repos-list.tsx:339-372 | the badge reads "Connected" exactly for a repository without a job or with a cancelled one |
| Repos.AnyTransient | app/dashboard/repos/repos-list.tsx:181-184 | true exactly when some repository's job is pending or processing |
| Repos.Transient | app/dashboard/repos/repos-list.tsx:181-184 | definition only: a repository whose latest job is still pending or processing; stated by `Repos.AnyTransient` |
| Repos.ShouldPoll | app/dashboard/repos/repos-list.tsx:181-186 | polling is on exactly when a job is pending or processing, or some connecting flag is raised |
| Repos.AnyFlag | app/dashboard/repos/repos-list.tsx:185 | definition only: some repository's connecting flag is up; stated by `Repos.ShouldPoll` |
| Repos.Cleared | app/dashboard/repos/repos-list.tsx:189-203 | definition only: the map with every raised flag of a listed repository lowered (stated by `ClearedFlags`) |
| Repos.ClearConnectedFlags | app/dashboard/repos/repos-list.tsx:189-203 | the loop lowers every raised flag whose repository is listed; it reports a change exactly when there was one, and otherwise returns the old map |
| Repos.ClearedFlags | app/dashboard/repos/repos-list.tsx:189-203 | after clearing, the keys are the same, and a flag is raised exactly when it was raised and its repository is not listed |
| Repos.InsertPending | app/dashboard/repos/repos-list.tsx:250-262 | after the optimistic insert the repository is listed; the old list is a prefix; it grows by one exactly when the repository was not yet listed, and the entry added is the queued full scan |
| Repos.PendingEntry | app/dashboard/repos/repos-list.tsx:253-260 | definition only: the optimistic entry with a pending full-scan job; stated by `Repos.InsertPending` and `Repos.InsertPendingStatus` |
| Repos.InsertPendingStatus | app/dashboard/repos/repos-list.tsx:250-262 | after inserting a repository that was not listed, its status is the pending job's and the list polls |
| Repos.InsertPendingUnique | app/dashboard/repos/repos-list.tsx:250-262 | the optimistic insert never duplicates a GitHub id |
| Repos.WithoutId | app/dashboard/repos/repos-list.tsx:318 | no entry with the disconnected id remains |
| Repos.WithoutIdMembers | app/dashboard/repos/repos-list.tsx:318 | the entries kept are exactly those with another id |
| Repos.WithoutIdAppend | app/dashboard/repos/repos-list.tsx:318 | filtering works piece by piece, keeping the order |
| Repos.WithoutIdAbsent | app/dashboard/repos/repos-list.tsx:318 | filtering an id no entry has changes nothing |
| Repos.Fetched | app/dashboard/repos/repos-list.tsx:176-179 | definition only: a fetched list replaces the list outright; a failed fetch or a response without a list keeps it |
| Repos.ReposList.constructor | app/dashboard/repos/repos-list.tsx:160-166 | the initial list, empty maps, the dialog closed with no target, not disconnecting |
| Repos.ReposList.Sync | app/dashboard/repos/repos-list.tsx:169-174 | a new initial list resets the list and all three maps, and leaves the dialog state |
| Repos.ReposList.ClearFlags | app/dashboard/repos/repos-list.tsx:189-203 | the effect sets the connecting map to the cleared one and changes nothing else |
| Repos.ReposList.HandleConnect | app/dashboard/repos/repos-list.tsx:230-282 | nothing while connecting. On success: insert, then refetch. On a 409: refetch only, flag kept. On another error: record the message and lower the flag |
| Repos.Thrown | app/dashboard/repos/repos-list.tsx:265-276 | definition only: what the handler's `try` throws: the failure of the first call that fails, the connect or queue call before the refetch; stated by `Repos.ReposList.HandleConnect` and `Repos.ReposList.HandleRetryQueue` |
| Repos.ReposList.HandleRetryQueue | app/dashboard/repos/repos-list.tsx:284-304 | nothing while retrying. Otherwise: queue, then refetch; a 409 refetches; another error yields the alert text. The retry flag ends lowered |
| Repos.MessageOf | app/dashboard/repos/repos-list.tsx:289-300 | definition only: an `Error`'s message, or the handler's fixed text when what was thrown carries none; stated by `Repos.ReposList.HandleConnect` and `Repos.ReposList.HandleRetryQueue` (`m.GetOr(...)`) |
| Repos.ReposList.HandleDisconnectClick | app/dashboard/repos/repos-list.tsx:306-309 | remembers the repository and opens the dialog; nothing else changes |
| Repos.ReposList.CancelDisconnect | app/dashboard/repos/repos-list.tsx:563-566 | closes the dialog and forgets the target; nothing else changes |
| Repos.ReposList.HandleDisconnectConfirm | app/dashboard/repos/repos-list.tsx:311-327 | nothing without a target. On success the entry is removed and the dialog closed; on failure the alert is given and the list kept; it ends not disconnecting |
| Nav.ScopeItem | components/layout/dashboard-shell.tsx:74-85 | definition only: one link scoped to the organisation (stated for all six by `ScopedHrefs`) |
| Nav.ScopedNavItems | components/layout/dashboard-shell.tsx:72-86 | the six links keep their labels and order; without an organisation they are the base links |
| Nav.ScopedHrefs | components/layout/dashboard-shell.tsx:72-86 | with an organisation: repos and chat get `?org_id=` and the encoded id, docs and architecture get the id as a path segment, the rest are unchanged |
| Nav.BasePath | components/layout/dashboard-shell.tsx:92 | definition only: the part of a href before its first `?` (stated by `BasePathOfQuery` and `BasePathPlain`) |
| Nav.BasePathOfQuery | components/layout/dashboard-shell.tsx:92 | the base path of a path, `?` and a query is the path |
| Nav.BasePathPlain | components/layout/dashboard-shell.tsx:92 | a href without `?` is its own base path |
| Nav.Matches | components/layout/dashboard-shell.tsx:95-105 | definition only: a link whose base path is `/dashboard` matches only `/dashboard`, any other link every path that starts with its base path (stated by `OverviewExact` and `ReposActive`) |
| Nav.FirstMatch | components/layout/dashboard-shell.tsx:95-105 | `find` returns the first link that matches, or none when none does |
| Nav.ActiveHref | components/layout/dashboard-shell.tsx:88-108 | without a path there is no active link; an active href is that of a link that matches the path |
| Nav.ActiveIsFirst | components/layout/dashboard-shell.tsx:95-107 | the first matching link is the active one |
| Nav.HomeBase | components/layout/dashboard-shell.tsx:46 | the overview link is `/dashboard` whatever the organisation |
| Nav.ReposBase | components/layout/dashboard-shell.tsx:75-76 | the repository link's base path is `/dashboard/repos`, scoped or not |
| Nav.HrefNotHome | components/layout/dashboard-shell.tsx:45-52 | only the overview link has the href `/dashboard` |
| Nav.OverviewExact | components/layout/dashboard-shell.tsx:98-101 | the overview is active exactly on `/dashboard` itself |
| Nav.ReposActive | components/layout/dashboard-shell.tsx:103-104 | any path under `/dashboard/repos` activates the repository link |
| Nav.ThirdActive | components/layout/dashboard-shell.tsx:95-107 | the third link is active when the first two do not match and it does |
| Nav.InitialOrgId | components/layout/dashboard-shell.tsx:65 | definition only: the current organisation if set, else the first option's id, else none (stated by `EffectKeepsInitial`) |
| Nav.EffectOrgId | components/layout/dashboard-shell.tsx:67-70 | definition only: the current organisation if set, else the first option's id if set, else no change (stated by `EffectKeepsInitial` and `EffectIdempotent`) |
| Nav.EffectKeepsInitial | components/layout/dashboard-shell.tsx:65-70 | on the first render the effect keeps the initial organisation |
| Nav.EffectIdempotent | components/layout/dashboard-shell.tsx:67-70 | running the effect again changes nothing |
| Nav.OrgChange | components/layout/dashboard-shell.tsx:110-116 | the new organisation is selected and the URL pushed is under `/dashboard/repos` |
| Nav.OrgChangeActive | components/layout/dashboard-shell.tsx:110-113 | after switching organisation, the active link on the new page is exactly the URL pushed |
| Home.First | app/home/home-client.tsx:24 | the index of the first pair with the name, or none when there is none |
| Home.Get | app/home/home-client.tsx:24 | `get` is `null` exactly when no pair has the name, and otherwise the value of the first pair with the name |
| Home.Deleted | app/home/home-client.tsx:33-34 | `delete` keeps exactly the pairs with another name |
| Home.DeletedAppend | app/home/home-client.tsx:33-34 | `delete` works piece by piece, keeping the order |
| Home.DeletedAbsent | app/home/home-client.tsx:33-34 | deleting a name no pair has changes nothing |
| Home.DeletedIdempotent | app/home/home-client.tsx:33-34 | deleting twice deletes once |
| Home.DeletedCommute | app/home/home-client.tsx:33-34 | deleting `login` and `error` in either order gives the same query |
| Home.SetParam | app/home/home-client.tsx:31 | definition only: the first pair with the name takes the value and later ones are deleted, or a new pair is appended (stated by `SetParamSpec`) |
| Home.SetParamSpec | app/home/home-client.tsx:31 | after `set` exactly one pair has the name and holds the value; the other pairs are kept in order; an existing first pair keeps its place, and a new pair is appended |
| Home.SetParamAppends | app/home/home-client.tsx:31 | `set` of a new name appends the only pair with it |
| Home.SetParamReplaces | app/home/home-client.tsx:31 | `set` of a present name updates the first pair in place and removes the later ones |
| Home.SetParamOthers | app/home/home-client.tsx:31 | `set` keeps the pairs with other names, in order |
| Home.SetParamIdempotent | app/home/home-client.tsx:31 | setting the same pair twice sets it once |
| Home.Serialize | app/home/home-client.tsx:36 | the query string is empty exactly when there are no pairs |
| Home.TargetUrl | app/home/home-client.tsx:37 | an empty query gives the bare path; otherwise the path, `?` and the query |
| Home.Synced | app/home/home-client.tsx:29-35 | definition only: `set("login", "1")` when opening, `delete("login")` then `delete("error")` when closing (stated by `OpenSpec` and `CloseSpec`) |
| Home.OpenSpec | app/home/home-client.tsx:29-31 | opening leaves exactly one `login`, with value `1`, keeps every other pair in order, and opening again changes nothing |
| Home.CloseSpec | app/home/home-client.tsx:32-35 | closing leaves no `login` and no `error` pair, keeps every other pair, and closing again changes nothing |
| Home.OpenKeepsQuery | app/home/home-client.tsx:30-37 | opening never navigates to the bare path |
| Home.DisplayedError | app/home/home-client.tsx:24-25 | the URL's error if non-empty, else the initial error if non-empty, else none; never an empty message |
| Home.CloseDropsUrlError | app/home/home-client.tsx:32-35 | after closing, only the initial error can still show |
| Home.SearchParams.constructor | app/home/home-client.tsx:29 | the copy holds the pairs of the current query |
| Home.SearchParams.Set | app/home/home-client.tsx:31 | the pairs become those of `set` |
| Home.SearchParams.Delete | app/home/home-client.tsx:33-34 | the pairs become those of `delete` |
| Home.SearchParams.ToString | app/home/home-client.tsx:36 | definition only: the serialised pairs; stated by `Home.Serialize` (empty exactly when there are no pairs) and `Home.HomeClient.SetLoginOpenAndSyncUrl` |
| Home.HomeClient.Error | app/home/home-client.tsx:24-25 | definition only: the error the dialog shows, from the URL's `error` and the initial error (stated by `DisplayedError`) |
| Home.HomeClient.constructor | app/home/home-client.tsx:17-22 | the dialog starts in its initial state |
| Home.HomeClient.SetLoginOpenAndSyncUrl | app/home/home-client.tsx:27-38 | records the dialog state and returns the URL for the query with `login=1` set, or with `login` and `error` deleted |

## Left out

- Network, I/O and timing are left out:
  - the backend calls themselves (`chatStream`, `backendFetch`, `disconnectRepo`);
  - the 5-second polling interval and its cancellation;
  - `AbortController` wiring;
  - the `IntersectionObserver` that tracks the active heading;
  - scrolling, rendering, the modal and every table row.

  Each backend call is a parameter holding its outcome.
- The order of awaits and React state updates is not modelled. Each
  handler is a single atomic step. Races between a handler and a concurrent
  poll or effect are out of scope.
- `TextDecoder` is not modelled: the reply is the sequence of already
  decoded string pieces. Strings are sequences of Unicode scalar values
  (`char`), not of UTF-16 code units, so lone surrogates cannot occur and
  a character outside the Basic Multilingual Plane is one element.
- `JSON.parse` of a payload is the parameter `parse`. Chat: a `chunk`
  event whose `text` is not a string is not modelled; the model appends a
  string, where the source would append its `String(...)` form.
- `Date.now()` is the parameter `now`. `new Date().toISOString()` is the
  parameter `nowIso`.
- Chat.Posted: the source reads the clock twice, once for the user's id
  and once more for the assistant's id (that second reading plus one). The
  model reads it once, so the ids are `now` and `now + 1`. A clock that
  ticks between the two readings is not modelled.
- `encodeURIComponent` and the `application/x-www-form-urlencoded` byte
  serializer are the parameter `encode`.
- `Toc.AnchorIdIsSlug`: lower-casing maps ASCII `A-Z` explicitly and any
  other character through the parameter `caseMap`, because Unicode case
  mapping is not modelled. The slug properties hold for every `caseMap`.
- `console.error` is not modelled. The `alert` text is returned as the
  value `alert`.
- `Repos.ReposList.HandleConnect`: the refetch after a connect or a 409 is
  a parameter outcome, an arbitrary list not tied to the insert. As in the
  source, `Fetched` replaces the optimistic list with it. The model proves
  nothing about whether the refetched list holds the new repository.
- Home.HomeClient.SetLoginOpenAndSyncUrl: the copy
  `new URLSearchParams(searchParams.toString())` is taken as the same list
  of pairs. Serialising and parsing back is not modelled, and neither is
  the later URL update that `router.replace` causes.
- Nav: an `orgOptions` that is `undefined` is modelled as the empty list.
  `router.refresh()` and the navigation itself are not modelled.
- Chat: the stream loop is split into `RunStream`, `FoldFrames` and
  `ApplyEvent`, so each can be proved on its own. Together they do what
  the single loop body does, in the same order.
