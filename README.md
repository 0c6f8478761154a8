# Archive session of the sanatorium deduction game

The game shows a corpus of in-world documents, sorted into four folders, beside
a case-file form (the "archive"). The player picks values for the victim's room,
the victim's identity, the decisive method and the accused suspect from
drop-down menus and submits the report. A first-match-wins cascade turns the
record into one of four endings, which a dialog shows until the player closes it.

This project models that session:

- `archive.dfy` (module `CaseArchive`): the five-key record, its all-empty
  initial value, the copy-with-one-key-replaced update, and the values each
  menu offers.
- `verdict.dfy` (module `Verdict`): the `Ending` type, the four ending
  constants, the cascade `Evaluate`, and the same decision written as an
  ordered table of tagged rules (`Rules`, `FirstMatch`). The table is proved
  equal to the cascade. The lemmas state precedence, totality and the keys
  the verdict ignores.
- `documents.dfy` (module `Documents`): the document catalogue by id and
  folder, and the folder listing `InFolder`.
- `session.dfy` (module `CaseSession`): the class `Session` holding the
  record, the shown ending and the active folder, with one method per handler.

## Behaviour notes

- The full solution checks only the room ("104"), the method
  ("maintenance_window") and the suspect ("dean"). The victim's identity and
  the murder time are never read.
- The partial dean ending ("结局 A-") shares the id `truth` with the full one;
  only the title tells them apart.
- Any suspect other than guest 101 and the dean, the empty choice included,
  gets the "案件驳回" (case rejected) ending.
- The id `misjudge_susanna` is declared but no branch produces it.

## Model

| member | source | states |
|---|---|---|
| CaseArchive.Update | index.tsx:253-255 | after the update, key `f` holds `v` and every other key holds what it held before |
| CaseArchive.InitialIsEmpty | index.tsx:243-249 | every key of the initial record is the empty string |
| CaseArchive.UpdateSameValue | index.tsx:253-255 | writing back the value a key already holds gives the same record |
| CaseArchive.UpdateOverwrites | index.tsx:253-255 | a second write to the same key replaces the first: only the last value counts |
| CaseArchive.UpdatesCommute | index.tsx:253-255 | writes to two different keys give the same record in either order |
| CaseArchive.Options | index.tsx:397-453 | the values each menu offers, always including the empty "nothing selected" choice; the murder time has no menu, so its only value is "" |
| CaseArchive.InitialSelectable | index.tsx:243-249 | the initial record holds, on every key, a value its menu offers |
| CaseArchive.UpdatePreservesSelectable | index.tsx:397-453 | starting from a selectable record, an update keeps the record selectable if and only if the new value is one of that key's menu options |
| Verdict.Evaluate | index.tsx:278-302 | the result is always one of the four produced endings and never `misjudge_susanna`; its id is `truth` iff the dean is accused, and `misjudge_edgar` iff guest 101 is accused |
| Verdict.HoldsDependsOnlyOnReads | index.tsx:278-302 | a rule's condition gives the same answer on two records that agree on the keys the condition reads |
| Verdict.FirstMatch | index.tsx:278-302 | first-match selection over an ordered rule list: it yields an ending iff some rule holds, and the ending is that of a rule that holds while no earlier rule does |
| Verdict.FirstMatchDependsOnlyOnReads | index.tsx:278-302 | first-match selection gives the same ending on two records that agree on every key the table reads |
| Verdict.EvaluateIsFirstMatch | index.tsx:278-302 | the cascade equals first-match selection over the four-rule table (guest 101; dean+method+room; dean; anything), and the table always yields an ending |
| Verdict.RulesRead | index.tsx:263-302 | the rule table reads exactly the suspect, the method and the room |
| Verdict.EmptyArchiveIncomplete | index.tsx:296-302 | the all-empty initial record yields the `incomplete` ending |
| Verdict.RedHerringWins | index.tsx:278-283 | accusing guest 101 yields the `misjudge_edgar` ending whatever the other keys hold |
| Verdict.FullSolution | index.tsx:284-289 | the ending is "结局 A: 完美的归档" iff the dean is accused, the method is the maintenance window and the room is 104 |
| Verdict.PartialSolution | index.tsx:290-295 | the ending is "结局 A-" iff the dean is accused and the method or the room is wrong |
| Verdict.DeanOutcomesShareId | index.tsx:284-295 | two dean accusations always share the id `truth`; their titles agree iff both or neither have method and room right |
| Verdict.FallThrough | index.tsx:296-302 | the ending is `incomplete` iff the accused is neither guest 101 nor the dean (so also for "", guest 102 and arthur) |
| Verdict.IgnoredFields | index.tsx:258-303 | two records that agree on suspect, method and room get the same ending: identity and time never matter |
| Verdict.UpdateIgnoredFieldKeepsEnding | index.tsx:253-303 | changing the identity or the time through the update never changes the ending |
| Documents.InFolder | index.tsx:332 | the listing is never longer than the catalogue it filters |
| Documents.InFolderMembers | index.tsx:332 | a document is listed iff it is in the catalogue and its folder is the active one |
| Documents.InFolderAppend | index.tsx:332 | the listing of a concatenation is the concatenation of the listings, so the catalogue's order is kept |
| Documents.InFolderSingle | index.tsx:332 | a single document is listed iff its folder is the active one |
| Documents.InFolderIdempotent | index.tsx:332 | filtering a listing by the same folder again changes nothing |
| Documents.CatalogueFolders | index.tsx:40-236 | every catalogue document belongs to one of the four sidebar folders |
| Documents.StartFolderListing | index.tsx:241 | the start folder `admin` lists the guest list and then the staff roster |
| CaseSession.Session.constructor | index.tsx:241-250 | a new session has the empty record, no dialog and the `admin` folder open |
| CaseSession.Session.Listed | index.tsx:332 | the documents shown are exactly the catalogue documents of the active folder |
| CaseSession.Session.UpdateArchive | index.tsx:253-255 | the record becomes the one-key update of the old record; the dialog and the folder are unchanged |
| CaseSession.Session.CheckCase | index.tsx:258-303 | the dialog shows the cascade's ending for the current record, and the record is unchanged |
| CaseSession.Session.Dismiss | index.tsx:483-502 | the dialog closes, and the record and folder are unchanged |
| CaseSession.Session.SelectFolder | index.tsx:513-523 | the active folder becomes the chosen one, and the listing becomes that folder's documents |
| CaseSession.Resubmit | index.tsx:258-303 | submitting, dismissing and submitting again shows the same ending both times; only the dialog state changes, so the record and the folder are untouched |
| CaseSession.SolveFromStart | index.tsx:397-463 | from a fresh session, choosing room 104, the fake Smith, the maintenance window and the dean, then submitting, opens the perfect ending |

## Left out

- Rendering: the JSX layout, styling, icons and `createRoot` mounting are presentation only.
- Document titles, types and contents, and the character list: these are static story text. Documents are kept by id and folder only.
- Ending descriptions: the description text is kept as an opaque placeholder constant per ending. Ids and titles are exact.
- The selected document (`activeDoc`) and the reader pane: this is display state that no verdict or listing depends on.
- The password-calculation box: it is static text with no input and no comparison.
- CaseArchive.Update: the source record is a string-keyed dictionary, and an arbitrary key would add a new entry. The model has exactly the five keys, because the form only ever passes those.
- CaseSession.Session.CheckCase: React applies state updates asynchronously and between renders. The model runs each handler as one atomic step on the current state.
