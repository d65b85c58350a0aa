/** Committing the drafts: each person's complete slots are kept in order,
    and a person with none is recorded as Missed. */
module Commit {
  import opened Problems
  import opened Drafts

  /** A slot counts for the day when both its identifier and its URL are
      filled in; the tier always has a value and never disqualifies it. */
  predicate IsComplete(x: Problem)
    ensures IsComplete(x) ==> x != Blank
  {
    x.number != "" && x.link != ""
  }

  /** Changing a slot's tier never changes whether it is committed. */
  lemma TierNeverDisqualifies(x: Problem, t: Difficulty)
    ensures IsComplete(Apply(x, SetDifficulty(t))) == IsComplete(x)
  {
  }

  /** The complete slots of s, in their order in s, copied unchanged. */
  function ValidProblems(s: seq<Problem>): (r: seq<Problem>)
    ensures |r| <= |s|
    ensures forall x :: x in r ==> x in s && IsComplete(x)
    ensures forall x :: x in s && IsComplete(x) ==> x in r
  {
    if s == [] then []
    else (if IsComplete(s[0]) then [s[0]] else []) + ValidProblems(s[1..])
  }

  /** The filter distributes over concatenation: it keeps slots in order and
      never skips past an incomplete slot to stop early. */
  lemma {:induction false} ValidProblemsAppend(a: seq<Problem>, b: seq<Problem>)
    ensures ValidProblems(a + b) == ValidProblems(a) + ValidProblems(b)
    decreases |a|
  {
    if a != [] {
      assert (a + b)[1..] == a[1..] + b;
      ValidProblemsAppend(a[1..], b);
    } else {
      assert a + b == b;
    }
  }

  /** Each complete slot is kept as often as it occurs, each incomplete one
      is dropped. */
  lemma {:induction false} ValidProblemsCount(s: seq<Problem>, x: Problem)
    ensures multiset(ValidProblems(s))[x] == if IsComplete(x) then multiset(s)[x] else 0
    decreases |s|
  {
    if s != [] {
      ValidProblemsCount(s[1..], x);
      assert s == [s[0]] + s[1..];
    }
  }

  /** A list of complete slots passes the filter unchanged; in particular the
      filter is idempotent. */
  lemma {:induction false} ValidProblemsOfComplete(s: seq<Problem>)
    requires forall x :: x in s ==> IsComplete(x)
    ensures ValidProblems(s) == s
    decreases |s|
  {
    if s != [] {
      ValidProblemsOfComplete(s[1..]);
    }
  }

  /** A person's cell in a new entry. */
  function CellOf(s: seq<Problem>): (c: Cell)
    ensures c == Missed <==> forall x :: x in s ==> !IsComplete(x)
    ensures c.Submitted? ==> c.problems == ValidProblems(s) && |c.problems| > 0
  {
    var valid := ValidProblems(s);
    if |valid| > 0 then assert valid[0] in valid; Submitted(valid) else Missed
  }

  /** The cells of the entry committed from d: one per person with drafts. */
  function ProblemsOf(d: DraftState): (m: map<Person, Cell>)
    ensures m.Keys == d.Keys
    ensures forall p :: p in d ==> m[p] == CellOf(d[p])
  {
    map p | p in d :: CellOf(d[p])
  }

  /** The accumulating reduce over the drafts: one assignment per person into
      an initially empty record. The order in which persons are visited does
      not matter to the result. */
  method BuildProblems(d: DraftState) returns (acc: map<Person, Cell>)
    ensures acc.Keys == d.Keys
    ensures forall p :: p in d ==> acc[p] == CellOf(d[p])
  {
    acc := map[];
    var rest := d.Keys;
    while rest != {}
      invariant rest <= d.Keys
      invariant acc.Keys == d.Keys - rest
      invariant forall p :: p in acc ==> acc[p] == CellOf(d[p])
      decreases rest
    {
      var p :| p in rest;
      var valid := ValidProblems(d[p]);
      acc := acc[p := if |valid| > 0 then Submitted(valid) else Missed];
      rest := rest - {p};
    }
  }

  /** Whatever was typed into a slot reaches the entry verbatim once both
      identifier and URL are filled in. */
  lemma TypedSlotIsCommitted(s: seq<Problem>, i: int, number: string, link: string)
    requires 0 <= i < |s| && number != "" && link != ""
    ensures var t := UpdateAt(UpdateAt(s, i, SetNumber(number)), i, SetLink(link));
            CellOf(t).Submitted? && Problem(number, s[i].difficulty, link) in CellOf(t).problems
  {
    var t1 := UpdateAt(s, i, SetNumber(number));
    assert t1[i] == Apply(s[i], SetNumber(number));
    var t := UpdateAt(t1, i, SetLink(link));
    var x := Problem(number, s[i].difficulty, link);
    assert t[i] == Apply(t1[i], SetLink(link)) == x;
    assert x in t && IsComplete(x);
    assert x in ValidProblems(t);
  }

  /** A fresh slot filled in and committed: the tier stays easy. */
  lemma FreshSlotCommitsEasy(number: string, link: string)
    requires number != "" && link != ""
    ensures CellOf(UpdateAt(UpdateAt([Blank], 0, SetNumber(number)), 0, SetLink(link)))
            == Submitted([Problem(number, Easy, link)])
  {
    var t := UpdateAt(UpdateAt([Blank], 0, SetNumber(number)), 0, SetLink(link));
    assert t == [Problem(number, Easy, link)];
  }

  /** A slot with an identifier but no URL is dropped; a later complete one
      is kept. */
  lemma PartialSlotDropped()
    ensures CellOf([Problem("1", Easy, ""), Problem("2", Hard, "u2")])
            == Submitted([Problem("2", Hard, "u2")])
  {
    var s := [Problem("1", Easy, ""), Problem("2", Hard, "u2")];
    assert s[1..][1..] == [];
  }

  lemma BlankSlotsMissed(n: nat)
    ensures CellOf(seq(n, _ => Blank)) == Missed
  {
  }
}
