# LeetCode streak tracker: state logic of the page

The tracker is a single page. A user picks a date and fills in problem slots
for each of three fixed people. Each slot holds a problem identifier, a
difficulty tier and a URL. The user then commits the day as one entry of a
history table, kept newest first. This project models the page's state
logic and proves its properties: the draft edits, the commit, the history
ordering and the initial state.

Modules, one per part of the page's logic:

- `Problems` (`problems.dfy`): the value types. These are `Difficulty`,
  `Problem`, the roster `Person` (Saketh, Aditya, Kushagra), the cell value
  `Submitted(problems) | Missed`, and `Entry` (a date as an integer
  timestamp plus one cell per person).
- `Drafts` (`drafts.dfy`): the per-person slot lists and the three edit
  handlers. Each handler is a pure function of the old drafts, as in the
  source's state updaters. The module also models runs of edits, and which
  edits the page's controls offer.
- `Commit` (`commit.dfy`): the filter that keeps complete slots and the
  Missed marker. It also holds `BuildProblems`, the accumulating loop that
  builds the entry's cells.
- `History` (`history.dfy`): the append-then-sort of the history. The sort is
  modelled as a stable insertion sort, with later dates first. A lemma shows
  that every stable sort gives the same result, so the choice of algorithm
  does not matter.
- `Home` (`home.dfy`): the component as a class. Its fields are `entries`,
  `date` and `problemInputs`, and each handler is a method that performs one
  atomic transition.

Two behaviours of the page are worth stating explicitly:

- `removeProblemForPerson` (app/page.tsx:71) has no lower-bound guard of its
  own. Only the page hides the remove button while a person has one slot
  (app/page.tsx:274). The model keeps the unguarded
  handler (`RemoveOnlySlotEmpties`) and proves the "always one slot"
  invariant only for edits the controls offer (`OfferedRunKeepsSlots`).
- The re-sort at app/page.tsx:107 uses ECMAScript's `Array.prototype.sort`,
  which has been stable since the 2019 edition. So entries with equal dates
  keep their commit order: a new entry
  goes after every existing entry dated no earlier. The model states this
  outright.

## Model

| member | source | states |
|---|---|---|
| Home.Page.constructor | app/page.tsx:45-53 | history empty, no date, each of the three people has exactly one blank easy slot |
| Drafts.InitialDrafts | app/page.tsx:47-53 | every roster member has a slot list, and it is exactly one blank easy slot |
| Drafts.AppendBlank | app/page.tsx:59-62 | the new list is the old list followed by one blank easy slot |
| Drafts.AddProblemFor | app/page.tsx:55-65 | same people; the person's list gains a blank slot at the end; everyone else's list is unchanged |
| Drafts.DropAppendedBlank | app/page.tsx:55-74 | removing the slot just appended gives back the old list (remove undoes add) |
| Drafts.DropIndex | app/page.tsx:71 | an index inside the list removes exactly that slot, keeping the others in order (one shorter); an index outside it (negative or too large) changes nothing |
| Drafts.RemoveProblemFor | app/page.tsx:67-74 | same people; the person's list loses only slot i; everyone else's list is unchanged |
| Drafts.Apply | app/page.tsx:86 | only the edited field takes the new value; the other two fields are kept |
| Drafts.Undo | app/page.tsx:86 | writing back the old field value restores the slot |
| Drafts.UpdateAt | app/page.tsx:85-87 | length kept; slot i is edited, every other slot is identical; an index outside the list changes nothing |
| Drafts.UndoUpdate | app/page.tsx:76-90 | an edit followed by writing back the old value restores the list |
| Drafts.UpdateTwice | app/page.tsx:76-90 | repeating the same edit changes nothing more (idempotent) |
| Drafts.UpdateProblemFor | app/page.tsx:76-90 | same people; only the person's list is edited; everyone else's list is unchanged |
| Drafts.Offered | app/page.tsx:237-283 | an edit the page offers (add always; update only of an existing row; remove only of an existing row while the person has more than one slot) never empties a person's list |
| Drafts.OfferedRun | app/page.tsx:228-235 | the add button is always rendered, so any run made only of adds is offered |
| Drafts.Step | app/page.tsx:55-90 | each handler keeps a slot list for every roster member |
| Drafts.Run | app/page.tsx:55-90 | any sequence of handler calls keeps a slot list for every roster member |
| Drafts.OfferedRunKeepsSlots | app/page.tsx:274-283 | if only the edits the page offers are made (remove is shown only while a person has more than one slot), nobody is ever left without a slot |
| Drafts.OfferedEditsKeepSlots | app/page.tsx:274-283 | from the initial drafts, offered edits always leave every person at least one slot |
| Drafts.RemoveOnlySlotEmpties | app/page.tsx:67-74 | the handler itself has no lower-bound guard: removing a person's only slot leaves the list empty |
| Commit.IsComplete | app/page.tsx:99 | a slot that is complete (non-empty identifier and URL) is never the blank slot |
| Commit.TierNeverDisqualifies | app/page.tsx:99 | changing a slot's tier never changes whether it is committed |
| Commit.ValidProblems | app/page.tsx:98-100 | the kept slots are exactly the complete ones of the list (identifier and URL non-empty), copied unchanged |
| Commit.ValidProblemsAppend | app/page.tsx:98-100 | the filter distributes over concatenation, so it keeps order and skips incomplete slots anywhere in the list |
| Commit.ValidProblemsCount | app/page.tsx:98-100 | each complete slot is kept as many times as it occurs; each incomplete slot is dropped |
| Commit.ValidProblemsOfComplete | app/page.tsx:98-100 | a list of complete slots passes unchanged, so the filter is idempotent |
| Commit.CellOf | app/page.tsx:101 | Missed exactly when no slot is complete; otherwise the non-empty ordered list of complete slots |
| Commit.ProblemsOf | app/page.tsx:97-103 | the entry has a cell for exactly the people with drafts, each the cell of that person's slots |
| Commit.BuildProblems | app/page.tsx:97-103 | the accumulating loop over the drafts yields a cell for exactly the people with drafts, each the cell of that person's slots |
| Commit.TypedSlotIsCommitted | app/page.tsx:95-103 | an identifier and a URL typed into a slot reach the committed entry verbatim, with the slot's tier |
| Commit.FreshSlotCommitsEasy | app/page.tsx:98-101 | a fresh slot that is filled in and committed is recorded with tier easy |
| Commit.PartialSlotDropped | app/page.tsx:98-101 | a slot with an identifier but no URL is dropped, and a later complete slot is kept |
| Commit.BlankSlotsMissed | app/page.tsx:101 | For every number of blank slots, the person's cell is Missed. |
| History.Insert | app/page.tsx:106-108 | the new entry is added once: one longer, the old entries plus the new one as a multiset |
| History.SortByDate | app/page.tsx:107 | the sort keeps length and is a permutation of its input |
| History.InsertKeepsSorted | app/page.tsx:106-108 | inserting into a newest-first history keeps it newest first |
| History.InsertPosition | app/page.tsx:106-108 | the new entry lands right after the leading entries dated no earlier than it |
| History.InsertOnDate | app/page.tsx:106-108 | on every date, the new entry comes after the entries of that date already present |
| History.InsertLast | app/page.tsx:106-108 | an entry no later than every existing one is appended at the end |
| History.SortByDateSorted | app/page.tsx:107 | the sorted history is newest first |
| History.SortByDateStable | app/page.tsx:107 | the sort is stable: on every date the same entries in the same order |
| History.SortByDateOfSorted | app/page.tsx:107 | sorting a history that is already newest first changes nothing |
| History.SortedStableUnique | app/page.tsx:107 | two newest-first sequences with the same per-date subsequences are equal |
| History.StableSortIsSortByDate | app/page.tsx:107 | any stable newest-first sort of the input equals the modelled sort |
| History.AddEntry | app/page.tsx:106-107 | append-then-sort adds exactly the new entry: one longer and, as a multiset, the old entries plus the new one; its placement and order are proved in AddEntryIsInsert and AddEntryHistory |
| History.AddEntryIsInsert | app/page.tsx:106-108 | for a newest-first history, append-then-sort is insertion after every entry dated no earlier |
| History.AddEntryHistory | app/page.tsx:106-108 | after a commit the history is one longer, a permutation of the old entries plus the new one, sorted newest first, and equal dates keep commit order |
| History.ThreeCommits | app/page.tsx:106-108 | committing dates 5, 1, then 10 lists them as 10, 5, 1 |
| Home.Page.SelectDate | app/page.tsx:218 | the picker sets or clears the date; history and drafts are unchanged |
| Home.Page.AddProblemForPerson | app/page.tsx:55-65 | the drafts become the add-slot result; history and date are unchanged |
| Home.Page.RemoveProblemForPerson | app/page.tsx:67-74 | the drafts become the remove-slot result; history and date are unchanged |
| Home.Page.UpdateProblem | app/page.tsx:76-90 | the drafts become the edit result; history and date are unchanged |
| Home.Page.HandleAddEntry | app/page.tsx:92-117 | with no date, nothing changes. With a date, the entry built from the drafts is inserted after every entry dated no earlier; the drafts reset to one blank slot each; the date is cleared; the history stays newest first |

## Left out

- Rendering: the table, the inputs, the buttons and the scroll region. What
  the controls let a user do is modelled in `Drafts.Offered`: one row of
  inputs per existing slot, so updates and removes name an existing slot, and
  a remove button only while a person has more than one slot.
- The theme toggle: its state belongs to an external theming library.
- The difficulty-to-style mapping, `getDifficultyColor`: it only builds
  style class strings through a foreign helper.
- Date formatting, and the calendar, popover and select widgets. The picked
  date is an opaque integer timestamp.
- The asynchronous, batched state updates of React. Each handler is one
  atomic transition.
- Real `Date` arithmetic and invalid dates. The comparator
  `b.date.getTime() - a.date.getTime()` is modelled as integer comparison
  of timestamps, and a `Date` whose time is NaN is not modelled.
- Home.Page.UpdateProblem: the handler's value is a `string` for every
  field, so a caller could store an arbitrary string as a difficulty. The
  model's `Edit` carries a `Difficulty` for that field, which is all the
  select control can produce.
- The handlers take a person's name as a string and fail if the name is
  not a roster key. The model's `Person` type admits only the three roster
  members.
