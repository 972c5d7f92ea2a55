/**
 * Newest-first ordering of readings. Both the store and the report sort
 * with the comparator `b.timestamp - a.timestamp`; the JavaScript sort is
 * stable, so readings with equal timestamps keep their input order. The
 * model is a stable insertion sort.
 */
module LogOrder {
  import opened BPTypes

  predicate SortedNewestFirst(s: seq<Reading>)
  {
    forall i, j :: 0 <= i < j < |s| ==> s[i].timestamp >= s[j].timestamp
  }

  /**
   * Puts `r` in front of the first reading that is not newer than it, so
   * `r` precedes every reading with an equal timestamp.
   */
  function Insert(r: Reading, s: seq<Reading>): (t: seq<Reading>)
    ensures |t| == |s| + 1
    ensures multiset(t) == multiset(s) + multiset{r}
  {
    if s == [] then [r]
    else if r.timestamp >= s[0].timestamp then [r] + s
    else
      assert s == [s[0]] + s[1..];
      [s[0]] + Insert(r, s[1..])
  }

  lemma {:induction false} InsertSorted(r: Reading, s: seq<Reading>)
    requires SortedNewestFirst(s)
    ensures SortedNewestFirst(Insert(r, s))
  {
    if s != [] && r.timestamp < s[0].timestamp {
      InsertSorted(r, s[1..]);
      var t := Insert(r, s[1..]);
      forall x | x in t
        ensures x.timestamp <= s[0].timestamp
      {
        assert x in multiset(t);
        if x != r {
          assert x in s[1..];
        }
      }
      forall j | 0 <= j < |t|
        ensures t[j].timestamp <= s[0].timestamp
      {
        assert t[j] in t;
      }
    }
  }

  /** `sortLogsDescending`: a permutation of the input, newest first. */
  function SortNewestFirst(s: seq<Reading>): (t: seq<Reading>)
    ensures |t| == |s|
    ensures multiset(t) == multiset(s)
    ensures SortedNewestFirst(t)
  {
    if s == [] then []
    else
      var rest := SortNewestFirst(s[1..]);
      InsertSorted(s[0], rest);
      assert s == [s[0]] + s[1..];
      Insert(s[0], rest)
  }

  /** The sort takes the head out and inserts it into the sorted rest. */
  lemma SortCons(x: Reading, t: seq<Reading>)
    ensures SortNewestFirst([x] + t) == Insert(x, SortNewestFirst(t))
  {
    assert ([x] + t)[0] == x;
    assert ([x] + t)[1..] == t;
  }

  /** The tail of a newest-first list is newest first. */
  lemma SortedTail(s: seq<Reading>)
    requires s != [] && SortedNewestFirst(s)
    ensures SortedNewestFirst(s[1..])
  {
    forall i, j | 0 <= i < j < |s[1..]|
      ensures s[1..][i].timestamp >= s[1..][j].timestamp
    {
      assert s[1..][i] == s[i + 1] && s[1..][j] == s[j + 1];
    }
  }

  /** A reading at least as new as the head of a sorted list goes in front. */
  lemma InsertAtHead(x: Reading, t: seq<Reading>)
    requires SortedNewestFirst([x] + t)
    ensures Insert(x, t) == [x] + t
  {
    if t != [] {
      assert t[0] == ([x] + t)[1] && x == ([x] + t)[0];
    }
  }

  /** A reading older than the head is inserted into the tail. */
  lemma InsertPastHead(x: Reading, r: Reading, t: seq<Reading>)
    requires x.timestamp < r.timestamp
    ensures Insert(x, [r] + t) == [r] + Insert(x, t)
  {
    assert ([r] + t)[0] == r;
    assert ([r] + t)[1..] == t;
  }

  lemma SortKeepsMembers(s: seq<Reading>, r: Reading)
    ensures r in SortNewestFirst(s) <==> r in s
  {
    assert r in SortNewestFirst(s) <==> r in multiset(SortNewestFirst(s));
  }

  lemma SortKeepsAllMembers(s: seq<Reading>)
    ensures forall r :: r in SortNewestFirst(s) <==> r in s
  {
    forall r
      ensures r in SortNewestFirst(s) <==> r in s
    {
      SortKeepsMembers(s, r);
    }
  }

  /** Sorting a list that is already newest first leaves it as it is. */
  lemma {:induction false} SortOfSorted(s: seq<Reading>)
    requires SortedNewestFirst(s)
    ensures SortNewestFirst(s) == s
  {
    if s != [] {
      SortOfSorted(s[1..]);
      assert SortNewestFirst(s) == Insert(s[0], s[1..]);
    }
  }

  /** The first element of the sorted list carries the largest timestamp. */
  lemma NewestFirstIsMax(s: seq<Reading>)
    requires s != []
    ensures SortNewestFirst(s)[0] in s
    ensures forall r :: r in s ==> r.timestamp <= SortNewestFirst(s)[0].timestamp
  {
    var t := SortNewestFirst(s);
    SortKeepsMembers(s, t[0]);
    forall r | r in s
      ensures r.timestamp <= t[0].timestamp
    {
      SortKeepsMembers(s, r);
      var j :| 0 <= j < |t| && t[j] == r;
    }
  }
}
