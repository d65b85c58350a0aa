/** The history table: committed entries kept newest first. The page appends
    each new entry and re-sorts with the comparator "later date first"; the
    sort of ECMAScript (2019 and later) is stable, so entries with the same
    date keep the order in which they were committed. */
module History {
  import opened Problems

  /** No entry is older than an entry after it. */
  predicate SortedByDateDesc(s: seq<Entry>) {
    forall i, j :: 0 <= i < j < |s| ==> s[i].date >= s[j].date
  }

  /** The entries of s dated d, in their order in s. */
  function OnDate(s: seq<Entry>, d: int): (r: seq<Entry>)
    ensures forall e :: e in r <==> e in s && e.date == d
  {
    if s == [] then [] else (if s[0].date == d then [s[0]] else []) + OnDate(s[1..], d)
  }

  /** t is a stable reordering of s: on every date, the same entries in the
      same order. */
  ghost predicate SameOnEveryDate(s: seq<Entry>, t: seq<Entry>) {
    forall d :: OnDate(s, d) == OnDate(t, d)
  }

  /** e placed after the leading entries dated no earlier than e. */
  function Insert(s: seq<Entry>, e: Entry): (r: seq<Entry>)
    ensures |r| == |s| + 1
    ensures multiset(r) == multiset(s) + multiset{e}
  {
    if s == [] then [e]
    else if s[0].date >= e.date then assert s == [s[0]] + s[1..]; [s[0]] + Insert(s[1..], e)
    else [e] + s
  }

  /** A stable sort, later dates first: each entry in turn is inserted behind
      the entries already placed that are dated no earlier. */
  function SortByDate(s: seq<Entry>): (r: seq<Entry>)
    ensures |r| == |s|
    ensures multiset(r) == multiset(s)
    decreases |s|
  {
    if s == [] then []
    else
      assert s == s[..|s| - 1] + [s[|s| - 1]];
      Insert(SortByDate(s[..|s| - 1]), s[|s| - 1])
  }

  /** The history after committing e: [...prev, e] sorted by date, later first. */
  function AddEntry(prev: seq<Entry>, e: Entry): (r: seq<Entry>)
    ensures |r| == |prev| + 1
    ensures multiset(r) == multiset(prev) + multiset{e}
  {
    SortByDate(prev + [e])
  }

  // ---------------------------------------------------------------------------
  // Insertion

  lemma {:induction false} InsertKeepsSorted(s: seq<Entry>, e: Entry)
    requires SortedByDateDesc(s)
    ensures SortedByDateDesc(Insert(s, e))
    decreases |s|
  {
    if s != [] && s[0].date >= e.date {
      InsertKeepsSorted(s[1..], e);
      var rest := Insert(s[1..], e);
      var r := Insert(s, e);
      assert r == [s[0]] + rest;
      forall j | 0 <= j < |rest| ensures s[0].date >= rest[j].date {
        var x := rest[j];
        assert x in multiset(rest);
        if x != e {
          assert x in multiset(s[1..]);
          var k :| 0 <= k < |s[1..]| && s[1..][k] == x;
          assert s[k + 1] == x;
        }
      }
    }
  }

  /** Where the new entry lands: when the first k entries are dated no
      earlier than e and the others earlier than e, right after the first k. */
  lemma {:induction false} InsertPosition(s: seq<Entry>, e: Entry, k: nat)
    requires k <= |s|
    requires forall j :: 0 <= j < k ==> s[j].date >= e.date
    requires forall j :: k <= j < |s| ==> s[j].date < e.date
    ensures Insert(s, e) == s[..k] + [e] + s[k..]
    decreases |s|
  {
    if s == [] {
    } else if k == 0 {
      assert Insert(s, e) == [e] + s;
      assert s[..0] == [] && s[0..] == s;
    } else {
      InsertPosition(s[1..], e, k - 1);
      assert Insert(s, e) == [s[0]] + Insert(s[1..], e);
      assert s[..k] == [s[0]] + s[1..][..k - 1];
      assert s[1..][k - 1..] == s[k..];
    }
  }

  lemma {:induction false} OnDateAppend(a: seq<Entry>, b: seq<Entry>, d: int)
    ensures OnDate(a + b, d) == OnDate(a, d) + OnDate(b, d)
    decreases |a|
  {
    if a == [] {
      assert a + b == b;
    } else {
      assert (a + b)[1..] == a[1..] + b;
      OnDateAppend(a[1..], b, d);
    }
  }

  /** Insertion is stable: on every date the new entry comes after the entries
      of that date already present. */
  lemma {:induction false} InsertOnDate(s: seq<Entry>, e: Entry, d: int)
    requires SortedByDateDesc(s)
    ensures OnDate(Insert(s, e), d) == OnDate(s, d) + OnDate([e], d)
    decreases |s|
  {
    if s == [] {
    } else if s[0].date >= e.date {
      SortedTail(s);
      InsertOnDate(s[1..], e, d);
      InsertBehindOnDate(s, e, d);
    } else {
      InsertInFrontOnDate(s, e, d);
    }
  }

  lemma SortedTail(s: seq<Entry>)
    requires s != [] && SortedByDateDesc(s)
    ensures SortedByDateDesc(s[1..])
  {
  }

  /** The step of InsertOnDate where e passes the first entry. */
  lemma InsertBehindOnDate(s: seq<Entry>, e: Entry, d: int)
    requires s != [] && s[0].date >= e.date
    requires OnDate(Insert(s[1..], e), d) == OnDate(s[1..], d) + OnDate([e], d)
    ensures OnDate(Insert(s, e), d) == OnDate(s, d) + OnDate([e], d)
  {
    ConsOnDate(s, Insert(s[1..], e), OnDate([e], d), d);
    assert Insert(s, e) == [s[0]] + Insert(s[1..], e);
  }

  /** Putting the first entry of a in front of t keeps a relation between
      the subsequences of one date of a's tail and of t. */
  lemma ConsOnDate(a: seq<Entry>, t: seq<Entry>, b: seq<Entry>, d: int)
    requires a != [] && OnDate(t, d) == OnDate(a[1..], d) + b
    ensures OnDate([a[0]] + t, d) == OnDate(a, d) + b
  {
    var c := [a[0]] + t;
    assert c != [] && c[0] == a[0] && c[1..] == t;
    var head := if a[0].date == d then [a[0]] else [];
    assert OnDate(c, d) == head + OnDate(t, d);
    assert OnDate(a, d) == head + OnDate(a[1..], d);
    assert head + (OnDate(a[1..], d) + b) == (head + OnDate(a[1..], d)) + b;
  }

  /** The step of InsertOnDate where e goes in front: nothing of s is dated
      as late as e. */
  lemma InsertInFrontOnDate(s: seq<Entry>, e: Entry, d: int)
    requires SortedByDateDesc(s) && s != [] && s[0].date < e.date
    ensures OnDate(Insert(s, e), d) == OnDate(s, d) + OnDate([e], d)
  {
    var r := Insert(s, e);
    assert r == [e] + s;
    assert r[0] == e && r[1..] == s;
    if e.date == d {
      forall j | 0 <= j < |s| ensures s[j].date != d {
        FirstIsLatest(s, s[j]);
      }
      OnDateNone(s, d);
    }
  }

  lemma {:induction false} OnDateNone(s: seq<Entry>, d: int)
    requires forall j :: 0 <= j < |s| ==> s[j].date != d
    ensures OnDate(s, d) == []
    decreases |s|
  {
    if s != [] {
      OnDateNone(s[1..], d);
    }
  }

  lemma OnOwnDate(s: seq<Entry>)
    requires s != []
    ensures s[0] in OnDate(s, s[0].date)
  {
  }

  /** All entries no later than e: e goes to the end. */
  lemma {:induction false} InsertLast(s: seq<Entry>, e: Entry)
    requires forall j :: 0 <= j < |s| ==> s[j].date >= e.date
    ensures Insert(s, e) == s + [e]
  {
    InsertPosition(s, e, |s|);
    assert s[..|s|] == s && s[|s|..] == [];
  }

  // ---------------------------------------------------------------------------
  // The sort

  lemma {:induction false} SortByDateSorted(s: seq<Entry>)
    ensures SortedByDateDesc(SortByDate(s))
    decreases |s|
  {
    if s != [] {
      SortByDateSorted(s[..|s| - 1]);
      InsertKeepsSorted(SortByDate(s[..|s| - 1]), s[|s| - 1]);
    }
  }

  lemma {:induction false} SortByDateStable(s: seq<Entry>)
    ensures SameOnEveryDate(SortByDate(s), s)
    decreases |s|
  {
    if s != [] {
      var front, last := s[..|s| - 1], s[|s| - 1];
      SortByDateSorted(front);
      SortByDateStable(front);
      assert s == front + [last];
      forall d ensures OnDate(SortByDate(s), d) == OnDate(s, d) {
        InsertOnDate(SortByDate(front), last, d);
        OnDateAppend(front, [last], d);
      }
    }
  }

  /** Sorting an already sorted history changes nothing. */
  lemma {:induction false} SortByDateOfSorted(s: seq<Entry>)
    requires SortedByDateDesc(s)
    ensures SortByDate(s) == s
    decreases |s|
  {
    if s != [] {
      var front, last := s[..|s| - 1], s[|s| - 1];
      SortByDateOfSorted(front);
      InsertLast(front, last);
    }
  }

  lemma FirstIsLatest(s: seq<Entry>, x: Entry)
    requires SortedByDateDesc(s) && x in s
    ensures s[0].date >= x.date
  {
    var j :| 0 <= j < |s| && s[j] == x;
  }

  /** Same per-date subsequences: both empty or both non-empty. */
  lemma BothEmptyOrNot(t: seq<Entry>, u: seq<Entry>)
    requires SameOnEveryDate(t, u)
    ensures t == [] <==> u == []
  {
    if t != [] {
      OnOwnDate(t);
      assert OnDate(u, t[0].date) != [];
    }
    if u != [] {
      OnOwnDate(u);
      assert OnDate(t, u[0].date) != [];
    }
  }

  /** Two sorted non-empty sequences with the same per-date subsequences
      start with the same entry. */
  lemma SameFirst(t: seq<Entry>, u: seq<Entry>)
    requires t != [] && u != []
    requires SortedByDateDesc(t) && SortedByDateDesc(u) && SameOnEveryDate(t, u)
    ensures t[0] == u[0]
  {
    OnOwnDate(t);
    OnOwnDate(u);
    assert t[0] in OnDate(u, t[0].date);
    assert u[0] in OnDate(t, u[0].date);
    FirstIsLatest(u, t[0]);
    FirstIsLatest(t, u[0]);
    var date := t[0].date;
    assert OnDate(t, date)[0] == t[0];
    assert OnDate(u, date)[0] == u[0];
  }

  /** Dropping the same first entry keeps the per-date subsequences equal. */
  lemma SameTails(t: seq<Entry>, u: seq<Entry>)
    requires t != [] && u != [] && t[0] == u[0] && SameOnEveryDate(t, u)
    ensures SameOnEveryDate(t[1..], u[1..])
  {
    forall d ensures OnDate(t[1..], d) == OnDate(u[1..], d) {
      var head := if t[0].date == d then [t[0]] else [];
      assert OnDate(t, d) == head + OnDate(t[1..], d);
      assert OnDate(u, d) == head + OnDate(u[1..], d);
      assert OnDate(t[1..], d) == OnDate(t, d)[|head|..];
      assert OnDate(u[1..], d) == OnDate(u, d)[|head|..];
    }
  }

  /** A sorted sequence is determined by its per-date subsequences, so every
      stable sort of the same input gives the same result. */
  lemma {:induction false} SortedStableUnique(t: seq<Entry>, u: seq<Entry>)
    requires SortedByDateDesc(t) && SortedByDateDesc(u) && SameOnEveryDate(t, u)
    ensures t == u
    decreases |t|
  {
    BothEmptyOrNot(t, u);
    if t != [] {
      SameFirst(t, u);
      SameTails(t, u);
      SortedStableUnique(t[1..], u[1..]);
      assert t == [t[0]] + t[1..] && u == [u[0]] + u[1..];
    }
  }

  /** Any stable "later first" sort of s equals SortByDate(s). */
  lemma StableSortIsSortByDate(s: seq<Entry>, t: seq<Entry>)
    requires SortedByDateDesc(t) && SameOnEveryDate(t, s)
    ensures t == SortByDate(s)
  {
    SortByDateSorted(s);
    SortByDateStable(s);
    SortedStableUnique(t, SortByDate(s));
  }

  // ---------------------------------------------------------------------------
  // Committing to a sorted history

  /** With a sorted history, append-and-resort is an insertion behind every
      entry dated no earlier than the new one. */
  lemma AddEntryIsInsert(prev: seq<Entry>, e: Entry)
    requires SortedByDateDesc(prev)
    ensures AddEntry(prev, e) == Insert(prev, e)
  {
    assert (prev + [e])[..|prev|] == prev;
    SortByDateOfSorted(prev);
  }

  /** The history after a commit: one entry longer, a permutation of the old
      entries and the new one, newest first, and stable on equal dates. */
  lemma AddEntryHistory(prev: seq<Entry>, e: Entry)
    requires SortedByDateDesc(prev)
    ensures |AddEntry(prev, e)| == |prev| + 1
    ensures multiset(AddEntry(prev, e)) == multiset(prev) + multiset{e}
    ensures SortedByDateDesc(AddEntry(prev, e))
    ensures forall d :: OnDate(AddEntry(prev, e), d) == OnDate(prev, d) + OnDate([e], d)
  {
    AddEntryIsInsert(prev, e);
    InsertKeepsSorted(prev, e);
    forall d ensures OnDate(AddEntry(prev, e), d) == OnDate(prev, d) + OnDate([e], d) {
      InsertOnDate(prev, e, d);
    }
  }

  /** Committing dates 5, 1 and 10 (in that order) lists them 10, 5, 1. */
  lemma ThreeCommits(m: map<Person, Cell>)
    ensures var h := AddEntry(AddEntry(AddEntry([], Entry(5, m)), Entry(1, m)), Entry(10, m));
            h == [Entry(10, m), Entry(5, m), Entry(1, m)]
  {
    var a, b, c := Entry(5, m), Entry(1, m), Entry(10, m);
    AddEntryIsInsert([], a);
    assert AddEntry([], a) == [a];
    AddEntryIsInsert([a], b);
    assert Insert([a], b) == [a] + Insert([], b);
    assert AddEntry([a], b) == [a, b];
    AddEntryIsInsert([a, b], c);
    assert AddEntry([a, b], c) == [c] + [a, b];
  }
}
