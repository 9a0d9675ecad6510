# Job Command Center — a Dafny model of the dashboard's logic

The dashboard lists job postings that an external pipeline has already scored
and annotated. It lets the user filter the list, open a job's detail panel, mark
a job as applied or delete it, and keep a free-text "resume context" in the
browser's local storage. This project models the decision rules and state
changes of the five files that carry that logic. It proves what each one
promises.

- `wrappers.dfy` (`Wrappers`): `Option` for TypeScript's `T | null`. Also `Truthy`,
  the JavaScript test behind `x && …`, `x || fallback` and `if (x)` on a nullable
  string (`null` and `""` are both falsy).
- `toasts.dfy` (`Toasts`): the text of a notice (toast).
- `sequences.dfy` (`Sequences`): `Array.prototype.filter` (`Filter`). `KeptIndices`
  gives the positions it keeps, as an independent description of what it selects.
- `circular_progress.dfy` (`CircularProgress`): the score indicator. One banding
  rule at 70 and 50 is shared by three colour choices (arc stroke, number text,
  glow).
- `job_card.dfy` (`JobCard`): the `Job` record, the status badge and the card summary.
- `job_detail_sidebar.dfy` (`JobDetailSidebar`): what the detail panel shows and
  its guards. Also its `copied` flag, as class `Sidebar`.
- `dashboard.dfy` (`DashboardPage`): the job store as a class over a sequence of
  rows (`JobStore`), and the view-model (`Dashboard`). The view-model's fields are
  the loaded list, the selected job, the sidebar flag and the low-score filter.
  Its methods are the page's handlers and the two mutations. The two sidebar
  action buttons are methods of `Dashboard` because they run the dashboard's
  callbacks. A newest-first ordering function (`NewestFirst`) models how the
  store answers a Load. Two client methods (`LoadAndFilterScenario`, `MarkAppliedScenario`) walk through a
  two-job session using only the contracts.
- `profile.dfy` (`ProfilePage`): local storage as a class over a key→string map,
  and the settings page as a class holding the edited text.

Every store outcome that depends on the network, and whether the browser
refuses a local-storage write, is a `bool` parameter (`fails`, `updateFails`,
`reloadFails`, `writeFails`, …). The query cache's
"invalidate" is modelled as running Load again. A failed Load keeps the
previously loaded list. `created_at` is an abstract ordered timestamp (`int`).
`score` is an `int`.

Behaviours of the code that the model keeps:

- The selection is a copy of the clicked `Job`, not an id (src/pages/Dashboard.tsx:13, 69).
  A re-fetch does not refresh it. A delete does not clear it.
- After any delete through the sidebar, the sidebar closes, whichever job was
  deleted (src/components/JobDetailSidebar.tsx:166-169). Closing is not tied to
  the deleted id matching the selection.
- A failed mutation has no error handler: the model raises no notice and changes
  nothing (src/pages/Dashboard.tsx:34-66).
- The number in the indicator is the raw score, not clamped to 0–100
  (src/components/CircularProgress.tsx:66).

## Model

| member | source | states |
|---|---|---|
| Sequences.Filter | src/pages/Dashboard.tsx:73-75 | the result is no longer than the input and holds exactly the input's elements that pass the test |
| Sequences.KeptIndices | src/pages/Dashboard.tsx:73-75 | the kept positions are in range, strictly ascending, and include every position whose element passes the test |
| Sequences.FilterSelectsKeptIndices | src/pages/Dashboard.tsx:73-75 | filter returns the elements at exactly the kept positions, in ascending order, so relative order is preserved |
| CircularProgress.BandOf | src/components/CircularProgress.tsx:20-30 | every score is in exactly one band: green iff >= 70, amber iff 50 <= score < 70, red iff < 50 |
| CircularProgress.ScoreColor | src/components/CircularProgress.tsx:20-24 | the arc's stroke class is the stroke class of the score's band |
| CircularProgress.ScoreTextColor | src/components/CircularProgress.tsx:26-30 | the number's text class is the text class of the score's band |
| CircularProgress.GlowColor | src/components/CircularProgress.tsx:57-59 | the glow colour is the glow colour of the score's band |
| CircularProgress.Render | src/components/CircularProgress.tsx:32-71 | the indicator prints the score unchanged (no clamping), and its stroke, text and glow all come from the same band |
| CircularProgress.ColoursAgree | src/components/CircularProgress.tsx:20-30 | two scores share a stroke colour iff they share a band, likewise for text colour and glow, so the three never disagree |
| CircularProgress.BandMonotone | src/components/CircularProgress.tsx:20-30 | a higher score never gets a worse band |
| JobCard.BadgeVariantOf | src/components/JobCard.tsx:26-37 | the mapping is total: "applied" iff secondary, "rejected" iff destructive, every other status (including "new") default |
| JobCard.RenderCard | src/components/JobCard.tsx:52-68 | the badge text is the literal status and its variant is the normalised one; the indicator shows the score; the description paragraph appears iff the description is non-null and non-empty |
| JobDetailSidebar.VerdictText | src/components/JobDetailSidebar.tsx:94 | reasoning verbatim when non-null and non-empty, otherwise "No AI reasoning provided."; never empty |
| JobDetailSidebar.BenefitTags | src/components/JobDetailSidebar.tsx:102 | the benefits section appears iff the list is non-null with length > 0, and then shows that list |
| JobDetailSidebar.Section | src/components/JobDetailSidebar.tsx:115 | a guarded section (link, description, cover letter) appears iff its field is non-null and non-empty, showing that field |
| JobDetailSidebar.Render | src/components/JobDetailSidebar.tsx:39-161 | with no job the panel renders nothing; otherwise it shows the job's title and company, "Mark as Applied" is disabled iff the status is "applied" (`MarkAppliedDisabled`), the copy button reads "Copied" iff `copied`, and link, benefits, description and cover letter each show their field exactly when its guard passes |
| JobDetailSidebar.CopyButtonActs | src/components/JobDetailSidebar.tsx:124-131 | whenever the cover-letter section (and its copy button) is shown, the copy guard passes |
| JobDetailSidebar.Sidebar.constructor | src/components/JobDetailSidebar.tsx:24 | `copied` starts false |
| JobDetailSidebar.Sidebar.HandleCopy | src/components/JobDetailSidebar.tsx:27-37 | with a non-null, non-empty cover letter: writes it, sets `copied` and raises the notice; otherwise nothing changes and nothing is written |
| DashboardPage.InsertByDate | src/pages/Dashboard.tsx:23-26 | inserting into a newest-first list keeps it newest first and adds exactly that row |
| DashboardPage.NewestFirst | src/pages/Dashboard.tsx:23-26 | a Load lists the store's rows (as a permutation) ordered by `created_at` descending |
| DashboardPage.NewestFirstOfTwo | src/pages/Dashboard.tsx:23-26 | two rows stored oldest first are listed newest first |
| DashboardPage.HideLowOfTwo | src/pages/Dashboard.tsx:73-75 | with the filter on, a job scoring >= 50 followed by one scoring below 50 displays as the first alone |
| DashboardPage.MarkFirstOfTwo | src/pages/Dashboard.tsx:36-39 | marking the first of two rows with distinct ids applied changes that row's status and leaves the second row as it was |
| DashboardPage.SetStatus | src/pages/Dashboard.tsx:36-39 | the update sets the status on rows with that id only; every other row and every other field is unchanged |
| DashboardPage.VisibleJobs | src/pages/Dashboard.tsx:73-75 | empty before the first Load; all jobs with the filter off; with it on, exactly the jobs scoring >= 50, equal to the order-preserving filter |
| DashboardPage.HiddenLowScoresKeepOrder | src/pages/Dashboard.tsx:73-75 | with the filter on, the list is the jobs at exactly the positions whose score is >= 50, in ascending order |
| DashboardPage.InsertNotice | src/pages/Dashboard.tsx:91-94 | the insert notice is "New Job Added" and its text begins with the new title and ends with the company |
| DashboardPage.JobStore.SelectNewestFirst | src/pages/Dashboard.tsx:22-29 | a failed query yields nothing; a successful one yields exactly the rows newest first, a permutation of the store's rows |
| DashboardPage.JobStore.UpdateStatus | src/pages/Dashboard.tsx:35-42 | on success the rows become the status update of the old rows; on failure they are unchanged |
| DashboardPage.JobStore.Delete | src/pages/Dashboard.tsx:54-58 | on success only rows with other ids remain, in order; on failure the rows are unchanged |
| DashboardPage.Dashboard.constructor | src/pages/Dashboard.tsx:13-15 | initially no job is selected, the sidebar is closed, the filter is off and nothing is loaded |
| DashboardPage.Dashboard.Load | src/pages/Dashboard.tsx:20-31 | a successful fetch replaces the list with the query's answer, the store's rows newest first; a failed one keeps the previous list; the sidebar-implies-selection invariant is kept |
| DashboardPage.Dashboard.HandleJobClick | src/pages/Dashboard.tsx:68-71 | selects a copy of the clicked job and opens the sidebar; the new state depends only on the job, so clicking it again changes nothing |
| DashboardPage.Dashboard.Close | src/pages/Dashboard.tsx:195 | closes the sidebar and changes nothing else, so closing twice equals closing once; afterwards the sidebar-implies-selection invariant holds |
| DashboardPage.Dashboard.SetHideLowScores | src/pages/Dashboard.tsx:147-151 | the switch sets the filter flag and nothing else |
| DashboardPage.Dashboard.MarkApplied | src/pages/Dashboard.tsx:34-50 | a successful update sets "applied" on that id, re-fetches and raises the success notice; a failed one changes neither store nor list and raises nothing |
| DashboardPage.Dashboard.Delete | src/pages/Dashboard.tsx:53-66 | a successful delete removes only that id's rows, re-fetches and raises the notice; a failed one changes nothing |
| DashboardPage.Dashboard.OnInsert | src/pages/Dashboard.tsx:88-95 | every insert notification re-fetches, whatever the filter, and raises a notice naming the new job and company |
| DashboardPage.Dashboard.SidebarMarkAppliedClick | src/components/JobDetailSidebar.tsx:155-164 | when enabled: marks the selected copy's id applied, then closes; when disabled (status "applied"): nothing happens; the selection is kept |
| DashboardPage.Dashboard.SidebarDeleteClick | src/components/JobDetailSidebar.tsx:165-174 | deletes the selected copy's id, then closes, so the sidebar ends closed whatever its prior state; the stale selection is kept |
| DashboardPage.ListedAfterMarkApplied | src/pages/Dashboard.tsx:34-44 | after mark-applied and re-fetch, every listed row with that id is "applied", every other row is still listed, and the count is unchanged |
| DashboardPage.ListedAfterDelete | src/pages/Dashboard.tsx:53-60 | after delete and re-fetch, no listed row has that id and every other row is still listed |
| ProfilePage.Get | src/pages/Profile.tsx:16 | a lookup yields a value iff the key is stored, and then the stored value |
| ProfilePage.MountedText | src/pages/Profile.tsx:10-20 | with nothing saved the page shows ""; with a saved value it shows that value, "" included |
| ProfilePage.LocalStorage.GetItem | src/pages/Profile.tsx:16 | reads the value under the key (the same lookup as `Get`), or null when absent, and changes nothing |
| ProfilePage.LocalStorage.SetItem | src/pages/Profile.tsx:23 | a successful write stores the value under the key and changes no other key; a refused write changes nothing |
| ProfilePage.Profile.constructor | src/pages/Profile.tsx:10-20 | on mount the text is the saved value, or "" when none is saved |
| ProfilePage.Profile.Edit | src/pages/Profile.tsx:74 | typing changes only the in-memory text; storage is untouched |
| ProfilePage.Profile.Save | src/pages/Profile.tsx:22-28 | a successful write stores the current text verbatim under "resumeContext", changes no other key and raises the saved notice; a refused write stores nothing and raises no notice |
| ProfilePage.SaveThenRemount | src/pages/Profile.tsx:10-28 | after a successful save a fresh mount shows exactly the saved text, for every string, "" included; after a refused save it shows what was stored before |
| ProfilePage.SaveRoundTrip | src/pages/Profile.tsx:16-23 | on the stored map: loading after saving s yields s, and every other key reads as before |

## Left out

- Rendering: JSX, Tailwind classes, icons, layout and the loading spinner (`isLoading`) carry no behaviour to state.
- SVG geometry of the indicator (radius, circumference, dash offset) uses floating point and `Math.PI`.
- `score` is modelled as an integer; a fractional JavaScript number is not modelled.
- The Supabase client and react-query's caching are external libraries. Their outcomes are `bool` parameters, and invalidation is re-running Load.
- A failed Load raises no notice in the code either; the model keeps the previous list.
- The real-time channel's setup and teardown (src/pages/Dashboard.tsx:78-102) is an async subscription lifecycle. Only the insert handler is modelled, as `Dashboard.OnInsert`; the payload is taken to be a full row.
- The console logging in the insert handler and the `checkConnection` debug action (src/pages/Dashboard.tsx:104-117) have no functional contract.
- `formatDistanceToNow` relative dates (src/components/JobCard.tsx:56) depend on the wall clock. `created_at` is an abstract ordered timestamp.
- Browser side effects are left out: the clipboard (the written text is returned as an output instead), the two-second timer that resets `copied`, `window.open`, and navigation between pages.
- Toast presentation: only each notice's title and text are recorded.
- ProfilePage.Profile.constructor: a `getItem` that throws because storage is blocked is not modelled. The source has no handler for it, so the mount effect would fail; the model always reads the map.
- Asynchrony inside the sidebar actions is not modelled. `mutate` returns at once and `onClose` runs before the store answers. The model runs the mutation, then the close. Each touches different fields, so the final state is the same.
- DashboardPage.NewestFirst: rows with equal `created_at` keep store order in the model (a stable insertion). That order is not proved, because the store does not promise one.
