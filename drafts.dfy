/** The draft state of the page: for each person, the ordered problem slots
    being filled in before the day's entry is committed, and the three edits
    the page offers on them (append a blank slot, remove a slot, overwrite one
    field of a slot). */
module Drafts {
  import opened Problems

  type DraftState = map<Person, seq<Problem>>

  /** Every person of the roster has a slot list. */
  predicate Covers(d: DraftState) {
    forall p: Person :: p in d
  }

  /** The state the page starts in and returns to after every commit. */
  function InitialDrafts(): (d: DraftState)
    ensures Covers(d)
    ensures forall p :: p in d ==> d[p] == [Blank]
  {
    var d := map[Saketh := [Blank], Aditya := [Blank], Kushagra := [Blank]];
    assert forall p: Person :: p.Saketh? || p.Aditya? || p.Kushagra? ==> p in d;
    d
  }

  // ---------------------------------------------------------------------------
  // Edits of one slot list

  /** The old slots followed by one blank slot. */
  function AppendBlank(s: seq<Problem>): (r: seq<Problem>)
    ensures |r| == |s| + 1 && r[..|s|] == s && r[|s|] == Blank
  {
    s + [Blank]
  }

  /** Keeps every slot whose position differs from i, in order. This is the
      index filter of removeProblemForPerson, which has no range guard: an
      index outside the list (negative or too large) keeps every slot. */
  function DropIndex(s: seq<Problem>, i: int): (r: seq<Problem>)
    ensures 0 <= i < |s| ==> |r| == |s| - 1 && r == s[..i] + s[i + 1..]
    ensures !(0 <= i < |s|) ==> r == s
  {
    if s == [] then []
    else (if i == 0 then [] else [s[0]]) + DropIndex(s[1..], i - 1)
  }

  /** The field an edit overwrites, with its new value. */
  datatype Edit = SetNumber(number: string) | SetDifficulty(difficulty: Difficulty) | SetLink(link: string)

  /** The slot with the one field named by e overwritten. */
  function Apply(x: Problem, e: Edit): (y: Problem)
    ensures y.number == (if e.SetNumber? then e.number else x.number)
    ensures y.difficulty == (if e.SetDifficulty? then e.difficulty else x.difficulty)
    ensures y.link == (if e.SetLink? then e.link else x.link)
  {
    match e
    case SetNumber(n) => x.(number := n)
    case SetDifficulty(t) => x.(difficulty := t)
    case SetLink(l) => x.(link := l)
  }

  /** The edit that writes back the value x holds in the field e overwrites. */
  function Undo(x: Problem, e: Edit): (u: Edit)
    ensures Apply(Apply(x, e), u) == x
  {
    match e
    case SetNumber(_) => SetNumber(x.number)
    case SetDifficulty(_) => SetDifficulty(x.difficulty)
    case SetLink(_) => SetLink(x.link)
  }

  /** The slot list mapped position by position: the slot at i is edited,
      every other slot is kept. An index outside the list edits nothing. */
  function UpdateAt(s: seq<Problem>, i: int, e: Edit): (r: seq<Problem>)
    ensures |r| == |s|
    ensures forall j :: 0 <= j < |s| ==> r[j] == if j == i then Apply(s[j], e) else s[j]
    ensures !(0 <= i < |s|) ==> r == s
  {
    if s == [] then []
    else [if i == 0 then Apply(s[0], e) else s[0]] + UpdateAt(s[1..], i - 1, e)
  }

  lemma DropAppendedBlank(s: seq<Problem>)
    ensures DropIndex(AppendBlank(s), |s|) == s
  {
    assert AppendBlank(s)[..|s|] == s;
  }

  lemma UndoUpdate(s: seq<Problem>, i: int, e: Edit)
    requires 0 <= i < |s|
    ensures UpdateAt(UpdateAt(s, i, e), i, Undo(s[i], e)) == s
  {
    var t := UpdateAt(s, i, e);
    var r := UpdateAt(t, i, Undo(s[i], e));
    forall j | 0 <= j < |s| ensures r[j] == s[j] {
      if j == i {
        assert t[i] == Apply(s[i], e);
      }
    }
  }

  lemma UpdateTwice(s: seq<Problem>, i: int, e: Edit)
    ensures UpdateAt(UpdateAt(s, i, e), i, e) == UpdateAt(s, i, e)
  {
    var t := UpdateAt(s, i, e);
    var r := UpdateAt(t, i, e);
    forall j | 0 <= j < |s| ensures r[j] == t[j] {
      if j == i {
        assert Apply(Apply(s[i], e), e) == Apply(s[i], e);
      }
    }
  }

  // ---------------------------------------------------------------------------
  // The three handlers, each replacing one person's list

  function AddProblemFor(d: DraftState, p: Person): (r: DraftState)
    requires p in d
    ensures r.Keys == d.Keys
    ensures r[p] == AppendBlank(d[p])
    ensures forall q :: q in d && q != p ==> r[q] == d[q]
  {
    d[p := AppendBlank(d[p])]
  }

  function RemoveProblemFor(d: DraftState, p: Person, i: int): (r: DraftState)
    requires p in d
    ensures r.Keys == d.Keys
    ensures r[p] == DropIndex(d[p], i)
    ensures forall q :: q in d && q != p ==> r[q] == d[q]
  {
    d[p := DropIndex(d[p], i)]
  }

  function UpdateProblemFor(d: DraftState, p: Person, i: int, e: Edit): (r: DraftState)
    requires p in d
    ensures r.Keys == d.Keys
    ensures r[p] == UpdateAt(d[p], i, e)
    ensures forall q :: q in d && q != p ==> r[q] == d[q]
  {
    d[p := UpdateAt(d[p], i, e)]
  }

  // ---------------------------------------------------------------------------
  // Sequences of handler calls, and what the page's controls let through

  datatype DraftOp =
    | AddSlot(who: Person)
    | RemoveSlot(who: Person, index: int)
    | UpdateSlot(who: Person, index: int, edit: Edit)

  function Step(d: DraftState, op: DraftOp): (r: DraftState)
    requires Covers(d)
    ensures Covers(r)
  {
    match op
    case AddSlot(p) => AddProblemFor(d, p)
    case RemoveSlot(p, i) => RemoveProblemFor(d, p, i)
    case UpdateSlot(p, i, e) => UpdateProblemFor(d, p, i, e)
  }

  function Run(d: DraftState, ops: seq<DraftOp>): (r: DraftState)
    requires Covers(d)
    ensures Covers(r)
    decreases |ops|
  {
    if ops == [] then d else Run(Step(d, ops[0]), ops[1..])
  }

  /** The page renders one row of inputs per existing slot, and a slot's
      remove button only while its person has more than one slot. */
  predicate Offered(d: DraftState, op: DraftOp)
    requires Covers(d)
    ensures Offered(d, op) && NoEmptyList(d) ==> NoEmptyList(Step(d, op))
  {
    match op
    case AddSlot(_) => true
    case RemoveSlot(p, i) => |d[p]| > 1 && 0 <= i < |d[p]|
    case UpdateSlot(p, i, _) => 0 <= i < |d[p]|
  }

  /** Every call of the run is one the page offers in the state it meets. */
  predicate OfferedRun(d: DraftState, ops: seq<DraftOp>)
    requires Covers(d)
    ensures (forall k :: 0 <= k < |ops| ==> ops[k].AddSlot?) ==> OfferedRun(d, ops)
    decreases |ops|
  {
    ops == [] || (Offered(d, ops[0]) && OfferedRun(Step(d, ops[0]), ops[1..]))
  }

  predicate NoEmptyList(d: DraftState) {
    forall p :: p in d ==> |d[p]| > 0
  }

  /** Through the page's controls nobody is ever left without a slot. */
  lemma {:induction false} OfferedRunKeepsSlots(d: DraftState, ops: seq<DraftOp>)
    requires Covers(d) && NoEmptyList(d) && OfferedRun(d, ops)
    ensures NoEmptyList(Run(d, ops))
    decreases |ops|
  {
    if ops != [] {
      var next := Step(d, ops[0]);
      assert NoEmptyList(next) by {
        forall p | p in next ensures |next[p]| > 0 {
          if p != ops[0].who {
            assert next[p] == d[p];
          }
        }
      }
      OfferedRunKeepsSlots(next, ops[1..]);
    }
  }

  /** Edits made through the page's controls, starting from the initial
      drafts, never leave a person without a slot. */
  lemma OfferedEditsKeepSlots(ops: seq<DraftOp>)
    requires OfferedRun(InitialDrafts(), ops)
    ensures forall p: Person :: |Run(InitialDrafts(), ops)[p]| > 0
  {
    OfferedRunKeepsSlots(InitialDrafts(), ops);
  }

  /** The handler itself does not keep a slot: called directly on a single
      slot it leaves the list empty. */
  lemma RemoveOnlySlotEmpties(d: DraftState, p: Person)
    requires p in d && |d[p]| == 1
    ensures RemoveProblemFor(d, p, 0)[p] == []
  {
  }
}
