/** The page component: the history, the picked date and the drafts, with
    each handler one atomic transition of the three fields. */
module Home {
  import opened Problems
  import opened Drafts
  import opened Commit
  import opened History

  /** Every person of the roster has a cell in the entry. */
  predicate CoversRoster(e: Entry) {
    forall p: Person :: p in e.problems
  }

  class Page {
    var entries: seq<Entry>
    var date: Option<int>
    var problemInputs: DraftState

    /** The drafts cover the roster, the history is newest first, and every
        committed entry has a cell for every person. */
    ghost predicate Valid()
      reads this
    {
      && Covers(problemInputs)
      && SortedByDateDesc(entries)
      && forall e :: e in entries ==> CoversRoster(e)
    }

    /** No history, no date, one blank slot per person. */
    constructor ()
      ensures Valid()
      ensures entries == [] && date == None
      ensures problemInputs == InitialDrafts()
      ensures forall p: Person :: problemInputs[p] == [Blank]
    {
      entries := [];
      date := None;
      problemInputs := InitialDrafts();
    }

    /** The date picker's selection, or its clearing. */
    method SelectDate(d: Option<int>)
      requires Valid()
      modifies this
      ensures Valid()
      ensures date == d
      ensures entries == old(entries) && problemInputs == old(problemInputs)
    {
      date := d;
    }

    method AddProblemForPerson(p: Person)
      requires Valid()
      modifies this
      ensures Valid()
      ensures problemInputs == AddProblemFor(old(problemInputs), p)
      ensures entries == old(entries) && date == old(date)
    {
      problemInputs := AddProblemFor(problemInputs, p);
    }

    method RemoveProblemForPerson(p: Person, i: int)
      requires Valid()
      modifies this
      ensures Valid()
      ensures problemInputs == RemoveProblemFor(old(problemInputs), p, i)
      ensures entries == old(entries) && date == old(date)
    {
      problemInputs := RemoveProblemFor(problemInputs, p, i);
    }

    method UpdateProblem(p: Person, i: int, e: Edit)
      requires Valid()
      modifies this
      ensures Valid()
      ensures problemInputs == UpdateProblemFor(old(problemInputs), p, i, e)
      ensures entries == old(entries) && date == old(date)
    {
      problemInputs := UpdateProblemFor(problemInputs, p, i, e);
    }

    /** Without a date nothing happens. With one, the drafts are committed as
        an entry placed behind every entry dated no earlier, and the drafts and
        the date are reset. */
    method HandleAddEntry()
      requires Valid()
      modifies this
      ensures Valid()
      ensures old(date) == None ==>
        entries == old(entries) && problemInputs == old(problemInputs) && date == None
      ensures old(date).Some? ==>
        var e := Entry(old(date).value, ProblemsOf(old(problemInputs)));
        && entries == AddEntry(old(entries), e)
        && entries == Insert(old(entries), e)
        && problemInputs == InitialDrafts()
        && date == None
    {
      if date == None {
        return;
      }
      var problems := BuildProblems(problemInputs);
      assert problems == ProblemsOf(problemInputs);
      var newEntry := Entry(date.value, problems);
      AddEntryHistory(entries, newEntry);
      AddEntryIsInsert(entries, newEntry);
      assert forall x :: x in AddEntry(entries, newEntry) ==> x in multiset(entries) + multiset{newEntry};
      entries := AddEntry(entries, newEntry);
      problemInputs := InitialDrafts();
      date := None;
    }
  }
}
