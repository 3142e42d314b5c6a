# SkillCanvas handlers in Dafny

SkillCanvas is a Flask application in which engineers keep a skill sheet.
- A sheet lists **projects**.
- Each project has descriptive columns, a set of **technologies** and a set of development **phases**.
- A **technology** belongs to one of eight raw categories (`os`, `language`, …, `tools`) and carries a number of months.
- Engineers can also add **personal projects** (individual developments), each with its own technologies and phases.
- The sheet shows a per-category summary that adds up the months of every technology by name.
- It can be shared through an **active link** with a random code.
- Administrators can edit or create any project and read recent log lines.

This project models the request handlers that change or read those tables.

**The database.** `Tables.Store` is a class whose fields are the SQL tables, each a sequence in table order. Two counters hand out the project and personal-project keys.

**The handlers.** Each handler is a method on the store. Its postcondition states the response and the whole new state. The state is given through specification functions, and those functions have their own properties proved as lemmas:
- how a form's indexed fields `<kind>_<i>` / `<kind>_<i>_num` are read (`FormFields`);
- how an edit reconciles a project's stored rows with a submission (`Reconcile`);
- how the summary folds technology rows into categories (`SkillSummary`).

**Revisions.** The repository holds two revisions of the user's handlers:
- the newer one in `views/sheet_views.py`;
- the older one in `top_views.py` and the package-root `sheet_views.py`.

They are modelled side by side where they differ (`SheetViews` and `TopViews` / `LegacySheetViews`). Where they are the same, one member models both: `SheetViews.EditProject`, `SheetViews.CreateLink`, `SheetViews.InvalidateLink` and `SheetViews.DeleteProject` also model `edit_project` (`myapp/sheet_views.py:36-119`), `create_link` (129-144), `invalidate_link` (190-203) and `delete_project` (213-223) of the package-root file.

**Responses.**
- `Saved`: the handler committed.
- `Rejected(kind)`: redirect on a repeated technology name.
- `Refused`: redirect, the caller may not do this.
- `BadRequest`: a required form key is missing.
- `NotFound`: `get_or_404`.
- `Forbidden`: `admin_required`.
- `ServerError`: an exception escaped the handler.

A response other than `Saved` leaves the store unchanged. The one exception is older `input`: it has already committed the project when a duration fails to convert.

## Model

| member | source | states |
|---|---|---|
| Common.TypeLabel | myapp/views/sheet_views.py:122-131 | the category label exists exactly for the eight raw categories |
| Common.TypeLabelInjective | myapp/views/sheet_views.py:122-131 | different raw categories never share a label, so grouping by label is grouping by category |
| Common.TechTypesDistinct | myapp/views/sheet_views.py:29 | the eight categories every handler walks are pairwise different |
| Common.PhasesDistinct | myapp/views/admin_views.py:259 | the eight phases the administrator's handlers walk are pairwise different |
| Common.DistinctIffNoCollapse | myapp/views/sheet_views.py:244 | `len(xs) != len(set(xs))` holds exactly when the list repeats an element |
| Common.Dedup | myapp/views/sheet_views.py:175-178 | dict-key order: first occurrences only, no repeats, the same elements |
| Common.NatToStringRoundTrip | myapp/views/sheet_views.py:34 | reading back the decimal index written into a form key gives the index |
| Common.FieldKeyInjective | myapp/views/sheet_views.py:34 | different indices give different form keys `f'{kind}_{i}'` |
| Common.Prefix | myapp/views/sheet_views.py:20-21 | `s[:n]`: the whole string when it has at most `n` characters, otherwise its prefix of exactly `n` characters |
| Common.Lookup | myapp/views/ind_views.py:9-12 | `request.form.get(key)` is present exactly when the key is in the form, with its value |
| Tables.ProjectsOf | myapp/views/sheet_views.py:115 | exactly the user's projects, in table order |
| Tables.ProjectsOfAppend | myapp/views/sheet_views.py:115 | the query keeps table order: the user's projects of a concatenated table are those of the first part followed by those of the second |
| Tables.TechsOf | myapp/views/sheet_views.py:135 | exactly the project's technology rows |
| Tables.ProcessesOf | myapp/sheet_views.py:172 | exactly the project's phase rows |
| Tables.DevelopmentsOf | myapp/views/sheet_views.py:116 | exactly the user's personal projects |
| Tables.IndTechsOf | myapp/views/sheet_views.py:157 | exactly the personal project's technology rows |
| Tables.FindProject | myapp/views/sheet_views.py:431 | `get_or_404`: the stored project with that key, or none has it |
| Tables.FindUser | myapp/views/sheet_views.py:352 | the stored user with that key, or none has it |
| Tables.ReadProjectInfo | myapp/views/sheet_views.py:18-26 | present exactly when all six columns are sent (a missing one is a 400). The four text columns are taken as sent. In `input` each month is `Prefix(month, 7)`, its first seven characters, or the whole month when shorter; elsewhere the months are taken as sent. |
| Tables.SetProjectInfo | myapp/views/sheet_views.py:230-236 | only the project with that key gets the new columns; every other row and every key stays |
| Tables.SetProjectInfoKeys | myapp/views/sheet_views.py:230-236 | updating the columns keeps project keys unique and below the counter |
| Tables.ProjectKeysAppend | myapp/views/sheet_views.py:47-62 | a project stored under the next key keeps the keys unique |
| Tables.DevelopmentKeysAppend | myapp/views/ind_views.py:9-23 | a personal project stored under the next key keeps the keys unique |
| Tables.LinkCodesAppend | myapp/views/sheet_views.py:319-325 | a link whose code is new keeps link codes unique |
| Tables.Store.constructor | myapp/run.py:95-149 | an empty database with the given users is valid |
| FormFields.WalkCount | myapp/views/sheet_views.py:33-44 | the `while f'{kind}_{index}' in request.form` walk stops at the first absent index, having seen every index below |
| FormFields.WalkCountUnique | myapp/views/sheet_views.py:33-44 | that stopping index is the only one with every index below present and itself absent |
| FormFields.WalkEntriesUnique | myapp/views/sheet_views.py:33-44 | any run of entries read at indices 0.. up to an absent index is the walk's entries |
| FormFields.ReadWalk | myapp/views/admin_views.py:209-219 | the loop visits exactly the walk's entries, in index order |
| FormFields.KeptEntries | myapp/views/sheet_views.py:38 | exactly the visited entries with a non-blank name (and, in the newer `input`, a positive digit duration), in order |
| FormFields.Collect | myapp/views/sheet_views.py:38-43 | one category's walk into `tech_data[tech_type]`; by `CollectSpec`, refused exactly when two kept entries share a name, and otherwise the kept entries in order |
| FormFields.CollectSpec | myapp/views/sheet_views.py:38-43 | the walk refuses the category exactly when two kept entries share a name, and otherwise keeps the kept entries |
| FormFields.CollectStops | myapp/views/sheet_views.py:39-41 | once a repeat is met, later entries do not change the outcome |
| FormFields.CollectEntries | myapp/views/sheet_views.py:33-44 | the walk's duplicate check succeeds iff the kept names are distinct, and then returns the kept entries |
| FormFields.NoRepeatMeans | myapp/views/sheet_views.py:39-41 | a category passes the check exactly when its kept names are pairwise different |
| FormFields.CollectAll | myapp/views/sheet_views.py:32-44 | the walk over all categories; by `CollectAllCompletes`, `CollectAllGroups` and `CollectAllRepeated`, it completes exactly when no category repeats a kept name, then holds each category's kept entries, and otherwise names a category that repeats one |
| FormFields.CollectAllCompletes | myapp/views/sheet_views.py:32-44 | the walk over all categories completes exactly when no category repeats a kept name |
| FormFields.CollectAllGroups | myapp/views/sheet_views.py:32-44 | a completed walk yields, per category, its kept entries |
| FormFields.CollectAllRepeated | myapp/views/sheet_views.py:39-41 | a refused walk names a listed category that does repeat a kept name |
| FormFields.CollectAllNoRepeat | myapp/views/sheet_views.py:32-44 | a completed walk met no repeat in any category |
| FormFields.CollectAllStops | myapp/views/sheet_views.py:39-41 | the first refused category decides the outcome whatever follows |
| FormFields.CollectCategories | myapp/top_views.py:221-233 | the loop over categories computes the walk over all categories |
| FormFields.ScanValues | myapp/views/sheet_views.py:240-241 | the `range(len(request.form))` scan returns at most that many values; its values are given by ScanValuesMembers |
| FormFields.ScanValuesMembers | myapp/views/sheet_views.py:240-241 | a value is scanned exactly when some index below the bound has its key in the form with that value, past any gap |
| FormFields.ScanMatchesWalkBelow | myapp/views/sheet_views.py:240-241 | below the walk's stopping index, the scan reads the same names as the walk |
| FormFields.WalkNamesPrefixOfScan | myapp/views/sheet_views.py:240-241 | the walk's names are always a prefix of the scan's names |
| FormFields.GapStopsWalkButNotScan | myapp/views/admin_views.py:503-504 | with `os_0` and `os_2` but no `os_1`, the walk reads one name and the scan two |
| FormFields.Zip | myapp/views/sheet_views.py:252 | `zip` pairs up to the shorter length, the `k`-th pair being `(a[k], b[k])` |
| SkillSummary.LabelIndex | myapp/views/sheet_views.py:139-140 | the position of a category in the summary, or its end when absent |
| SkillSummary.NameIndex | myapp/views/sheet_views.py:143 | the position of a name in a category, or its end when absent |
| SkillSummary.Accumulate | myapp/views/sheet_views.py:133-146 | the fold of rows into the summary; by `AccumulateSummarizes`, it fails exactly when a row's category is unknown, and otherwise groups every row under its label and name with the summed months |
| SkillSummary.AccumulateSummarizes | myapp/views/sheet_views.py:133-146 | the fold succeeds exactly when every row's category is known. Then its categories are the rows' labels in first-seen order. Each category lists its names in first-seen order. Each total is the sum of months over the rows with that label and name. |
| SkillSummary.SummaryCategoriesNonEmpty | myapp/views/sheet_views.py:139-146 | no category of a summary is empty |
| SkillSummary.SummaryListsEveryRecord | myapp/views/sheet_views.py:137-146 | every row with a known category is listed under its label and name with the total of all rows sharing them |
| SkillSummary.TitlesDistinct | myapp/views/sheet_views.py:139-140 | no category appears twice in a summary |
| SkillSummary.AccumulateStaysNone | myapp/views/sheet_views.py:138 | once an unknown category has raised, no later row helps |
| SkillSummary.FlattenAppend | myapp/views/sheet_views.py:133-173 | folding project by project then personal project by personal project is folding their concatenation |
| SkillSummary.AddEntries | myapp/views/sheet_views.py:137-146 | the inner loop computes the fold of the rows seen so far |
| SkillSummary.Summarize | myapp/views/sheet_views.py:133-178 | the two loops yield the summary of all rows, present exactly when every category is known |
| SheetViews.ProcessRows | myapp/views/sheet_views.py:82-88 | one phase row per selected name, in order, all for the new project |
| SheetViews.InputRows | myapp/views/sheet_views.py:65-73 | the rows the `input` handler adds, category by category; by `InputRowsMembers`, exactly the rows of the collected entries |
| SheetViews.InputRowsMembers | myapp/views/sheet_views.py:65-73 | the stored technology rows are exactly the rows of the collected entries |
| SheetViews.InputStoresKeptEntries | myapp/views/sheet_views.py:32-79 | every stored row is for the new project, a listed category and a non-blank name (with positive months in the newer handler). Every kept entry of every category is stored. |
| SheetViews.AddProject | myapp/views/sheet_views.py:47-94 | the project goes under the next key, its rows follow, keys stay unique, and nothing else changes |
| SheetViews.InputOver | myapp/views/sheet_views.py:14-99 | a missing column gives 400, and a repeated kept name refuses the form with nothing stored. Otherwise it stores the project under the next key, the kept entries' rows and one phase row per selection. |
| SheetViews.Input | myapp/views/sheet_views.py:14-99 | the same over the eight categories |
| SheetViews.LatestActiveLink | myapp/views/sheet_views.py:181 | none exactly when the user has no active link, and otherwise an active link of the user |
| SheetViews.LatestActiveLinkIsLast | myapp/views/sheet_views.py:181 | the link shown is the user's last active link in table order |
| SheetViews.Sheet | myapp/views/sheet_views.py:111-188 | the summary of the user's projects' and personal projects' rows (a 500 when a category is unknown), and the latest active link |
| SheetViews.ResolveLink | myapp/views/sheet_views.py:344-348 | the owner of an active link with that code, and none exactly when there is no such link |
| SheetViews.ResolveSnoc | myapp/views/sheet_views.py:344-348 | `.first()`: a later link answers only when no earlier one does |
| SheetViews.ViewSheet | myapp/views/sheet_views.py:341-393 | the invalid page exactly when no active link has the code, and 404 exactly when its owner is gone. Otherwise it shows the owner's project summary; a row of an unknown category is the `KeyError` 500, shown as `Shown(owner, None)`. |
| SheetViews.CreateLink | myapp/views/sheet_views.py:315-330 | appends one active link of the user with the new code; codes stay unique; nothing else changes |
| SheetViews.CreatedLinkResolves | myapp/views/sheet_views.py:315-330 | the new code opens the creator's sheet, other codes resolve as before, and the sheet now shows the new link |
| SheetViews.WithoutUser | myapp/views/sheet_views.py:405-418 | exactly the links of other users remain |
| SheetViews.WithoutUserCodes | myapp/views/sheet_views.py:405-418 | removing a user's links keeps codes unique |
| SheetViews.InvalidateLink | myapp/views/sheet_views.py:405-418 | deactivating and deleting leaves exactly the other users' links, and nothing else changes |
| SheetViews.DeactivateLinks | myapp/views/sheet_views.py:409 | every link of the user is staged inactive and every other link is left as it was |
| SheetViews.DeleteInactive | myapp/views/sheet_views.py:412-415 | deleting the staged inactive links of the user leaves exactly the other users' links |
| SheetViews.InvalidatedCodesResolveNowhere | myapp/views/sheet_views.py:405-418 | afterwards a code that opened this user's sheet opens nothing, and every other code resolves as before |
| SheetViews.RemoveProject | myapp/views/sheet_views.py:432-434 | exactly the projects with another key remain |
| SheetViews.RemoveProjectKeys | myapp/views/sheet_views.py:432-434 | removing a project keeps keys unique |
| SheetViews.DeleteProject | myapp/views/sheet_views.py:428-438 | 404 exactly for an unknown key, and a redirect for a project of someone else. For the owner, the project is removed with its technology and phase rows, the other projects' rows stay in order, and nothing else changes. |
| SheetViews.DeleteOnlyForOwner | myapp/views/sheet_views.py:428-438 | a stored project survives exactly when it has another key |
| SheetViews.OtherProjectsMembers | myapp/views/sheet_views.py:433 | the deleted project's technology rows go and every other row stays |
| SheetViews.OtherProcessesMembers | myapp/views/sheet_views.py:433 | the deleted project's phase rows go and every other row stays |
| SheetViews.DeleteKeepsRowsAttached | myapp/run.py:105-133 | if every technology and phase row belongs to a stored project before the delete, the same holds after it |
| SheetViews.DeleteProjectAsWritten | myapp/views/sheet_views.py:428-438 | as written: 404 and the redirect as above. For the owner, a 500 with nothing deleted exactly when the project has a technology or phase row, and otherwise the project row alone is removed. |
| SheetViews.SavedPhasesBlockDelete | myapp/views/sheet_views.py:82-88 | a project saved with at least one phase selected has rows, so the handler as written answers 500 when its owner deletes it |
| SheetViews.EditSubmissions | myapp/views/sheet_views.py:239-241 | one submission per category, in order, with the scanned names and durations |
| SheetViews.EditNeverCrashes | myapp/views/sheet_views.py:240-264 | scanned durations are all present, so the edit never reaches `None.isdigit()` |
| SheetViews.EditRejectsRepeats | myapp/views/sheet_views.py:243-246 | the edit is refused exactly when some category's scanned names repeat |
| SheetViews.EditTwoBlanksRejected | myapp/views/sheet_views.py:243-246 | two blank `os` names count as a repeat |
| SheetViews.EditProjectTechnologies | myapp/views/sheet_views.py:239-270 | after an accepted edit, other projects' and other categories' rows are untouched. Each submitted category holds what reconciling it alone gives. |
| SheetViews.EditProjectOver | myapp/views/sheet_views.py:222-305 | 404 for an unknown key, 400 for a missing column, and a redirect, with nothing stored, on a repeated name. Otherwise: the new columns, the reconciled technologies and the reconciled phases. |
| SheetViews.EditProject | myapp/views/sheet_views.py:222-305 | the same over the eight categories |
| SheetViews.StoreEdit | myapp/views/sheet_views.py:272-291 | the two commits write the columns and the staged rows and keeps keys unique |
| SheetViews.ProjectsUsingMembers | myapp/views/sheet_views.py:449-453 | the joined query returns exactly the listed projects with a technology of that name |
| SheetViews.IdIndex | myapp/views/sheet_views.py:456-467 | `list.index` over either key list: the first position holding the key, no earlier position holds it |
| SheetViews.TechProjects | myapp/views/sheet_views.py:442-457 | the projects part of the response; by `TechProjectNumbers` and `TechProjectsComplete`, the reference numbering |
| SheetViews.NumberedProjectsSpec | myapp/views/sheet_views.py:456-457 | the reference numbering reports exactly the positions of the list's projects that use the technology, each with its name, once each, in increasing order |
| SheetViews.TechProjectNumbers | myapp/views/sheet_views.py:442-469 | with distinct project keys, `tech_projects` equals the reference numbering, and every reported entry is one of the user's projects that uses the technology, under its 1-based position in the user's project list, with its name |
| SheetViews.TechProjectsComplete | myapp/views/sheet_views.py:442-469 | no project is missed: every one of the user's projects that uses the technology is reported under its position, and the numbers strictly increase, so each is reported once and in list order |
| SheetViews.DevelopmentsUsingMembers | myapp/views/sheet_views.py:460-464 | the joined query returns exactly the listed personal projects with a technology of that name |
| SheetViews.TechDevelopments | myapp/views/sheet_views.py:459-469 | the personal-projects part of the response; by `TechDevelopmentNumbers` and `TechDevelopmentsComplete`, the reference numbering |
| SheetViews.NumberedDevelopmentsSpec | myapp/views/sheet_views.py:466-467 | the reference numbering reports exactly the positions of the list's personal projects that use the technology, once each, in increasing order |
| SheetViews.TechDevelopmentNumbers | myapp/views/sheet_views.py:442-469 | the same for personal projects: equal to the reference numbering, and every entry is one of the user's personal projects that uses the technology, under its 1-based position in the user's personal-project list, with its name |
| SheetViews.TechDevelopmentsComplete | myapp/views/sheet_views.py:442-469 | no personal project is missed, and the numbers strictly increase |
| TopViews.DurationsConvert | myapp/top_views.py:254-262 | the loop succeeds exactly when every collected duration converts with `int` |
| TopViews.InputOver | myapp/top_views.py:203-288 | a missing column gives 400, and a repeated non-blank name refuses the form. Otherwise the project is committed. Then either every kept row and phase is stored, or a duration fails to convert and the answer is 500 with the project stored alone. |
| TopViews.Input | myapp/top_views.py:203-288 | the same over the eight categories |
| TopViews.LegacyDurations | myapp/top_views.py:225-262 | a missing duration is stored as 0 months, "3" as 3, and "abc" fails to convert |
| TopViews.Sheet | myapp/top_views.py:300-352 | the summary of the user's projects only, and the latest active link |
| LegacySheetViews.ProjectCards | myapp/sheet_views.py:167-177 | one card per project of the owner, in order, each holding exactly that project's technology and phase rows |
| LegacySheetViews.ViewSheet | myapp/sheet_views.py:155-179 | the invalid page exactly when no active link has the code, and 404 exactly when the resolved owner is gone. Otherwise the owner is the user of the first active link with the code, and the cards are one per project of the owner in query order (`ProjectCards`), so every project of the owner has exactly one card holding exactly its rows. |
| Reconcile.FirstIndex | myapp/views/sheet_views.py:255 | `next(...)`: the first row of the category with that name |
| Reconcile.FindFirst | myapp/views/sheet_views.py:255 | the search loop finds that first row |
| Reconcile.ExistingIffMonths | myapp/views/sheet_views.py:248-249 | a name is an existing name exactly when the category holds a row with it |
| Reconcile.UpsertOne | myapp/views/sheet_views.py:253-264 | one round of the upsert loop, specified with the whole loop by `UpsertAllEffect` and `UpsertAllCrashes` |
| Reconcile.UpsertAll | myapp/views/sheet_views.py:252-264 | the upsert loop; by `UpsertAllEffect`, each name with a valid duration has its first row updated or gains a row, and every other row is kept; by `UpsertAllCrashes`, it fails exactly when a non-blank name has no duration |
| Reconcile.DropUnsubmitted | myapp/views/sheet_views.py:266-270 | the deletion loop; by `DropEffect`, exactly the category's rows with an unsubmitted name go |
| Reconcile.ReconcileCategory | myapp/views/sheet_views.py:248-270 | one category reconciled; by `ReconcileCategoryRows`, what each name ends with, other categories untouched |
| Reconcile.UpsertAllEffect | myapp/views/sheet_views.py:252-264 | a name with a valid duration has its first row updated or gains a row (the last such pair decides). Every other row is kept. |
| Reconcile.DropEffect | myapp/views/sheet_views.py:266-270 | the category's rows whose name was not submitted go, and every other row stays |
| Reconcile.ReconcileCategoryRows | myapp/views/sheet_views.py:248-270 | per name: no rows if not submitted; unchanged if submitted without a valid duration; otherwise the first row updated or one new row. Other categories are untouched. |
| Reconcile.UpsertAllCrashes | myapp/views/admin_views.py:232-233 | the upsert fails exactly when a non-blank name has no duration |
| Reconcile.PresentDurationsNeverCrash | myapp/views/sheet_views.py:240-241 | durations read by the scan are never missing |
| Reconcile.ReconcileTechnologies | myapp/views/sheet_views.py:248-270 | the two loops compute the reconciled category, failing exactly when a non-blank name has no duration |
| Reconcile.CategoryCrashes | myapp/views/admin_views.py:232-233 | one category fails exactly when a non-blank name has no duration |
| Reconcile.ReconcileAll | myapp/views/sheet_views.py:239-270 | the loop over categories; by `ReconcileAllCompletes` and `ReconcileAllRows`, it completes exactly when no category repeats a name or misses a duration, and then each category ends as reconciling it alone gives |
| Reconcile.ReconcileAllCompletes | myapp/views/sheet_views.py:239-270 | the loop over categories completes exactly when no category repeats a name or misses a duration |
| Reconcile.ReconcileAllFirstFailure | myapp/views/admin_views.py:209-253 | a stopped loop reports the first failing category: a repeat there gives a redirect, otherwise a crash |
| Reconcile.ReconcileAllStops | myapp/views/admin_views.py:222-226 | once stopped, later categories do not change the outcome |
| Reconcile.OtherCategoriesKept | myapp/views/sheet_views.py:248-270 | reconciling one category leaves other categories' rows alone |
| Reconcile.OtherProjectsKept | myapp/views/sheet_views.py:248-270 | and other projects' rows |
| Reconcile.ReconcileAllRows | myapp/views/sheet_views.py:239-270 | over distinct categories each submitted category ends as reconciling it alone gives, and the rest is untouched |
| Reconcile.ReconcileKinds | myapp/views/sheet_views.py:239-270 | the outer loop computes the staged table, completing exactly when no category fails |
| Reconcile.ProcessNamesIffCount | myapp/views/sheet_views.py:277 | a phase is an existing name exactly when the project holds a row with it |
| Reconcile.EditProcesses | myapp/views/sheet_views.py:275-291 | the phase table after the edit; by `EditProcessCounts` and `EditProcessesMatchSelection`, the project's phases become exactly the selected ones and other projects are untouched |
| Reconcile.EditProcessCounts | myapp/views/sheet_views.py:275-291 | a deselected phase has no rows left. A selected phase keeps its rows if it had any, and otherwise gets one row per time it was selected. Other projects are untouched. |
| Reconcile.EditProcessesMatchSelection | myapp/views/sheet_views.py:275-291 | afterwards the project's phases are exactly the selected ones |
| Reconcile.ReconcileProcesses | myapp/views/sheet_views.py:275-291 | the two phase loops compute that table and leave exactly the selected phases |
| Reconcile.FirstProcess | myapp/views/admin_views.py:267 | `next(...)`: the project's first row with that phase |
| Reconcile.FindFirstProcess | myapp/views/admin_views.py:267 | the search loop finds it |
| Reconcile.RemoveFirstEffect | myapp/views/admin_views.py:267-268 | deleting the first such row removes one row of that phase and nothing else |
| Reconcile.AdminPhasesEffect | myapp/views/admin_views.py:259-269 | over distinct phases: a phase outside the list keeps its rows, a selected one keeps them or gets one, and an unselected one loses one row if it had any |
| Reconcile.AdminProcesses | myapp/views/admin_views.py:255-269 | the phase table after the administrator's edit; by `AdminProcessCounts`, per phase what the loop leaves, with other projects untouched |
| Reconcile.AdminProcessCounts | myapp/views/admin_views.py:255-269 | the same over the eight phases, with other projects untouched |
| Reconcile.AdminProcessesMatchSelection | myapp/views/admin_views.py:255-269 | where each phase is held at most once, afterwards the project's phases are exactly the selected ones |
| Reconcile.AdminKeepsSecondRow | myapp/views/admin_views.py:265-268 | a phase held twice keeps one row although nothing is selected |
| Reconcile.AdminReconcileProcesses | myapp/views/admin_views.py:255-269 | the phase loop computes the administrator's phase table |
| AdminViews.AdminSubmissions | myapp/views/admin_views.py:209-219 | one submission per category, in order, with the walk's non-blank names and their durations |
| AdminViews.ReadAdminCategory | myapp/views/admin_views.py:212-219 | the walk loop builds that submission |
| AdminViews.KeepNamed | myapp/views/admin_views.py:216-219 | the `if tech_name` loop keeps exactly the visited entries with a non-blank name, in order |
| AdminViews.NameWithoutDuration | myapp/views/admin_views.py:213-219 | a name sent without its `_num` field is collected with a missing duration beside it |
| AdminViews.ReadAdminCategories | myapp/views/admin_views.py:209-219 | one per category |
| AdminViews.AdminCrashMeans | myapp/views/admin_views.py:213-233 | a category crashes exactly when some kept entry has no `_num` field |
| AdminViews.AdminDetailCompletes | myapp/views/admin_views.py:209-253 | the edit goes through exactly when every category's names are distinct and all have durations |
| AdminViews.AdminMissingDurationCrashes | myapp/views/admin_views.py:213-233 | a name without its `_num` field makes the handler raise |
| AdminViews.AdminDetailTechnologies | myapp/views/admin_views.py:209-253 | after an accepted edit, other projects and categories are untouched, and each category holds what reconciling it alone gives |
| AdminViews.AdminProjectDetailOver | myapp/views/admin_views.py:189-280 | 403 for a non-administrator; 404 for an unknown key; 400 for a missing column. A repeat redirects and a missing duration gives 500, both with nothing stored. Otherwise the new columns, the reconciled technologies and the administrator's phase table. |
| AdminViews.AdminProjectDetail | myapp/views/admin_views.py:189-280 | the same over the eight categories |
| AdminViews.StoreAdminEdit | myapp/views/admin_views.py:272 | the single commit writes the columns and the staged rows and keeps keys unique |
| AdminViews.CreateRows | myapp/views/admin_views.py:506-515 | exactly one row per scanned pair with a non-blank name and a positive digit duration |
| AdminViews.CreateTechRows | myapp/views/admin_views.py:500-515 | the rows the create handler adds; by `CreateTechRowsMembers`, exactly the storable scanned pairs of the listed categories |
| AdminViews.CreateTechRowsMembers | myapp/views/admin_views.py:500-515 | the stored rows are exactly the storable scanned pairs of the listed categories |
| AdminViews.CreatedRowsPositive | myapp/views/admin_views.py:506-515 | every stored row has a non-blank name and positive months |
| AdminViews.SelectedPhasesOnce | myapp/views/admin_views.py:518-525 | the new project holds each selected one of the eight phases once and nothing else |
| AdminViews.SelectedPhases | myapp/views/admin_views.py:518-525 | a phase row for the project is created exactly when the phase is in the fixed list and was selected |
| AdminViews.ScanCategoryRows | myapp/views/admin_views.py:506-515 | the loop builds the category's rows |
| AdminViews.CreateTechnologies | myapp/views/admin_views.py:501-515 | over every category |
| AdminViews.PhaseRows | myapp/views/admin_views.py:518-525 | the phase loop builds the phase rows |
| AdminViews.AdminProjectCreateOver | myapp/views/admin_views.py:478-534 | 403 for a non-administrator; 400 for a missing column. Otherwise the project goes under the next key, owned by the caller, then its storable rows and selected phases. |
| AdminViews.AdminProjectCreate | myapp/views/admin_views.py:478-534 | the same over the eight categories |
| AdminViews.StoreCreated | myapp/views/admin_views.py:488-527 | the two commits store the project under the next key and then its rows, keeping keys unique |
| AdminViews.WordLength | myapp/views/admin_views.py:644 | the leading run of non-space characters |
| AdminViews.Words | myapp/views/admin_views.py:644 | `str.split()`: the words are non-empty and hold no whitespace; WordsEmptyIffBlank and WordsConcat tie them to the line |
| AdminViews.WordsEmptyIffBlank | myapp/views/admin_views.py:644 | a line splits into no words exactly when it is all whitespace |
| AdminViews.WordsConcat | myapp/views/admin_views.py:644 | joined, the words are exactly the line's non-whitespace characters in order |
| AdminViews.RecentLogs | myapp/views/admin_views.py:641-651 | exactly the lines whose timestamp parses and lies in the last ten days, never more than the file holds |
| AdminViews.RecentLogsAppend | myapp/views/admin_views.py:641-651 | the kept lines keep file order |
| AdminViews.RecentLogsAsWritten | myapp/views/admin_views.py:641-651 | the filter as written; by `AsWrittenFailsOnShortLines`, it fails exactly when a line has fewer than two words, and otherwise keeps the intended lines |
| AdminViews.AsWrittenFailsOnShortLines | myapp/views/admin_views.py:644-646 | as written, the page fails exactly when a line has fewer than two words, and otherwise matches the corrected filter |
| AdminViews.BlankLineBreaksLogs | myapp/views/admin_views.py:644-646 | a blank line breaks the page as written, and is skipped by the corrected filter |
| AdminViews.AdminLogs | myapp/views/admin_views.py:626-657 | 403 exactly for a non-administrator; a missing file gives an empty page; otherwise the recent lines |
| IndViews.IndRowsForAt | myapp/views/ind_views.py:28-41 | one row per kept entry, in walk order |
| IndViews.IndRowsForMembers | myapp/views/ind_views.py:33-40 | one category's rows are exactly its kept entries' rows |
| IndViews.IndTechRows | myapp/views/ind_views.py:26-41 | the personal project's technology rows; by `IndTechRowsMembers`, exactly the kept entries of the listed categories |
| IndViews.IndTechRowsMembers | myapp/views/ind_views.py:26-41 | the stored rows are exactly the kept entries of the listed categories |
| IndViews.IndTechRowOrigin | myapp/views/ind_views.py:26-41 | every stored row comes from a kept entry (non-blank name, positive digit duration) of a listed category |
| IndViews.IndTechRowPresent | myapp/views/ind_views.py:26-41 | every kept entry of a listed category is stored as a row |
| IndViews.IndRowsPositive | myapp/views/ind_views.py:33-40 | every stored row is for the new personal project and a listed category, with a non-blank name and positive months |
| IndViews.IndProcessRows | myapp/views/ind_views.py:44-51 | a row exists exactly for each non-blank selected phase |
| IndViews.IndProcessRowsAppend | myapp/views/ind_views.py:44-51 | rows follow the submitted order: the rows of a concatenated list are those of its first part followed by those of its second |
| IndViews.IndProcessCounts | myapp/views/ind_views.py:44-51 | a non-blank phase is stored once per time it was selected, and a blank one never |
| IndViews.IndCategoryRows | myapp/views/ind_views.py:28-41 | the walk builds the category's rows |
| IndViews.IndKeptRows | myapp/views/ind_views.py:29-41 | the loop builds the rows of the kept entries |
| IndViews.IndTechnologies | myapp/views/ind_views.py:26-41 | over every category |
| IndViews.IndPhases | myapp/views/ind_views.py:44-51 | the phase loop builds the phase rows |
| IndViews.IndividualInputOver | myapp/views/ind_views.py:4-57 | always saves the personal project under the next key, with its kept rows and non-blank phases, and nothing else changes |
| IndViews.IndividualInput | myapp/views/ind_views.py:4-57 | the same over the eight categories |

## Left out

- Rendering, `flash` messages, logging, redirects' targets and JSON bodies: a handler's answer is reduced to a `Response` value, or to the data it would render.
- GET branches that only render a form (`input`, `edit_project`, the administrator's pages) are not modelled.
- Authentication (`login_required`, sessions, `current_user`) is taken as given. The caller's key or `User` record is a parameter.
- `uuid4()` in `create_link` is a parameter, `code`, assumed different from every stored code (the column is unique). `datetime.now()` and `strptime` in `admin_logs` are parameters `now` and `parse`, in microseconds.
- Reading the log file is a parameter: `None` stands for `FileNotFoundError`, and otherwise it is the sequence of lines the file iterator yields.
- `Link.created_at` ordering: links are kept in creation order, so "latest" is the last active link in table order. Ties between equal timestamps are not modelled.
- Query results are taken in table (insertion) order. The database does not promise any order without `ORDER BY`.
- `str.isdigit` and `int` are modelled on ASCII only. Unicode digits, surrounding whitespace and underscores, which Python's `int` also accepts, are not.
- `str.split()` splits on ASCII whitespace only.
- Form fields with several values keep their first value (`request.form[...]`), except `getlist('process')`.
- Commits are assumed to succeed, except the as-written `delete_project` above. The `try/except` around older `input` that would turn a database error into a 500 is not modelled beyond the `int` conversion.
- `delete_project`: the relationships `Project.technologies` and `Project.processes` (`run.py:105-106`) carry no delete cascade, and the children's `project_id` columns are non-null (`run.py:118`, `run.py:133`). Deleting a project that has rows therefore makes the flush set those keys to NULL, and the commit fails. `SheetViews.DeleteProjectAsWritten` models that as a 500 with nothing deleted, and `SheetViews.DeleteProject` models the intended delete with its rows (see Findings). The ORM's flush itself is not modelled: the failure condition is stated directly.
- `view_sheet` and `sheet` also pass each project's and personal project's rows and `experience_years` to the template. Only the summary, the link and (in the older `view_sheet`) the per-project cards are modelled.
- The `IndividualDevelopment`, `IndividualTechnology` and `IndividualProcess` tables are not defined in `run.py`. Their columns are taken from how the handlers use them.
- Handlers outside the skill sheet are not modelled: registration, e-mail confirmation, profile and account pages, `edit_profile`, user deletion, the administrator's user list and pagination, contact and features pages.
- Concurrency between requests is not modelled: every handler runs alone against the store.
- Integer columns are unbounded integers; database overflow of `duration_months` is not modelled.

## Findings

| source | as written | input that shows it | evidently intended | confidence | as-written member | corrected member |
|---|---|---|---|---|---|---|
| myapp/views/admin_views.py:644-646 | `line.split()[1]` raises `IndexError` on a line with fewer than two words, and the handler only catches `ValueError`, so the whole page fails | a log file holding the blank line `"\n"` (`AdminViews.BlankLineBreaksLogs`; `AdminViews.AsWrittenFailsOnShortLines` gives every failing file) | skip lines without a timestamp, as unparsable lines are skipped | not executed | AdminViews.RecentLogsAsWritten | AdminViews.AdminLogs |
| myapp/views/sheet_views.py:431-434 | `db.session.delete(project)` with no delete cascade on `Project.technologies` / `Project.processes` (`run.py:105-106`): the flush sets the rows' non-null `project_id` (`run.py:118`, `run.py:133`) to NULL, so the commit fails with 500 and nothing is deleted. The package-root `sheet_views.py:213-223` is the same. | the owner deletes a project saved with one phase selected (`SheetViews.SavedPhasesBlockDelete`) | delete the project together with its technology and phase rows | not executed | SheetViews.DeleteProjectAsWritten | SheetViews.DeleteProject |
