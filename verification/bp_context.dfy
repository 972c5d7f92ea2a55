/**
 * The in-memory store behind the app: the readings (kept newest first),
 * the current AI insights, the "analysing" flag and the user profile.
 */
module BPContext {
  import opened BPTypes
  import opened LogOrder

  const DefaultProfile: Profile := Profile("30", "Other", "150", "5.08", "", "")

  /** `logs.filter(l => l.id !== id)` */
  function RemoveId(s: seq<Reading>, id: string): seq<Reading>
  {
    if s == [] then []
    else if s[0].id != id then [s[0]] + RemoveId(s[1..], id)
    else RemoveId(s[1..], id)
  }

  /** Removal drops every reading with the id and keeps every other one as often as it occurs. */
  lemma {:induction false} RemoveIdCounts(s: seq<Reading>, id: string)
    ensures forall r ::
      multiset(RemoveId(s, id))[r] == (if r.id == id then 0 else multiset(s)[r])
  {
    if s != [] {
      RemoveIdCounts(s[1..], id);
      assert s == [s[0]] + s[1..];
    }
  }

  lemma RemoveIdMembers(s: seq<Reading>, id: string)
    ensures forall r :: r in RemoveId(s, id) <==> r in s && r.id != id
  {
    RemoveIdCounts(s, id);
    forall r
      ensures r in RemoveId(s, id) <==> r in s && r.id != id
    {
      assert r in RemoveId(s, id) <==> r in multiset(RemoveId(s, id));
      assert r in s <==> r in multiset(s);
    }
  }

  lemma RemoveIdCons(x: Reading, s: seq<Reading>, id: string)
    ensures RemoveId([x] + s, id) == if x.id != id then [x] + RemoveId(s, id) else RemoveId(s, id)
  {
    assert ([x] + s)[0] == x && ([x] + s)[1..] == s;
  }

  /** Removal works piecewise, so the remaining readings keep their relative order. */
  lemma {:induction false} RemoveIdAppend(a: seq<Reading>, b: seq<Reading>, id: string)
    ensures RemoveId(a + b, id) == RemoveId(a, id) + RemoveId(b, id)
  {
    if a == [] {
      assert a + b == b;
    } else {
      var x, a' := a[0], a[1..];
      assert a == [x] + a';
      assert a + b == [x] + (a' + b);
      RemoveIdAppend(a', b, id);
      RemoveIdCons(x, a' + b, id);
      RemoveIdCons(x, a', id);
    }
  }

  /** Removing an id nobody has changes nothing. */
  lemma {:induction false} RemoveIdAbsent(s: seq<Reading>, id: string)
    requires forall r :: r in s ==> r.id != id
    ensures RemoveId(s, id) == s
  {
    if s != [] {
      assert s[0] in s;
      assert forall r :: r in s[1..] ==> r in s;
      RemoveIdAbsent(s[1..], id);
      assert s == [s[0]] + s[1..];
    }
  }

  /** Removal keeps a newest-first list newest first. */
  lemma {:induction false} RemoveIdSorted(s: seq<Reading>, id: string)
    requires SortedNewestFirst(s)
    ensures SortedNewestFirst(RemoveId(s, id))
  {
    if s != [] {
      RemoveIdSorted(s[1..], id);
      var rest := RemoveId(s[1..], id);
      RemoveIdMembers(s[1..], id);
      forall j | 0 <= j < |rest|
        ensures rest[j].timestamp <= s[0].timestamp
      {
        assert rest[j] in rest;
        var k :| 0 <= k < |s[1..]| && s[1..][k] == rest[j];
      }
    }
  }

  /** How many leading readings of `s` are at least as new as `r`. */
  function NewerCount(r: Reading, s: seq<Reading>): (k: nat)
    ensures k <= |s|
  {
    if s == [] || s[0].timestamp < r.timestamp then 0
    else 1 + NewerCount(r, s[1..])
  }

  /**
   * The count splits a newest-first list: readings before it are at least
   * as new as `r`, readings from it on are older.
   */
  lemma {:induction false} NewerCountSplits(r: Reading, s: seq<Reading>)
    requires SortedNewestFirst(s)
    ensures forall i :: 0 <= i < NewerCount(r, s) ==> s[i].timestamp >= r.timestamp
    ensures forall i :: NewerCount(r, s) <= i < |s| ==> s[i].timestamp < r.timestamp
  {
    if s != [] && s[0].timestamp >= r.timestamp {
      SortedTail(s);
      NewerCountSplits(r, s[1..]);
    }
  }

  /** `r` placed after every leading reading at least as new as it. */
  function AfterTies(r: Reading, s: seq<Reading>): seq<Reading>
  {
    if s == [] || s[0].timestamp < r.timestamp then [r] + s
    else [s[0]] + AfterTies(r, s[1..])
  }

  lemma {:induction false} AfterTiesSplit(r: Reading, s: seq<Reading>)
    ensures AfterTies(r, s) == s[..NewerCount(r, s)] + [r] + s[NewerCount(r, s)..]
  {
    if s == [] || s[0].timestamp < r.timestamp {
      assert s[..0] + [r] + s[0..] == [r] + s;
    } else {
      var k' := NewerCount(r, s[1..]);
      AfterTiesSplit(r, s[1..]);
      assert s[..k' + 1] == [s[0]] + s[1..][..k'];
      assert s[k' + 1..] == s[1..][k'..];
    }
  }

  /** Inserting an older-or-equal head in front of a placement keeps it a placement. */
  lemma InsertIntoAfterTies(x: Reading, s': seq<Reading>, r: Reading)
    requires SortedNewestFirst([x] + s')
    ensures Insert(x, AfterTies(r, s')) == AfterTies(r, [x] + s')
  {
    var s := [x] + s';
    assert s[0] == x && s[1..] == s';
    var rest := AfterTies(r, s');
    if s' != [] {
      assert s'[0] == s[1];
    }
    if x.timestamp >= r.timestamp {
      assert rest[0] == r || rest[0] == s'[0];
      assert Insert(x, rest) == [x] + rest;
    } else {
      assert rest == [r] + s';
      InsertPastHead(x, r, s');
      InsertAtHead(x, s');
    }
  }

  lemma {:induction false} SortAppendIsAfterTies(s: seq<Reading>, r: Reading)
    requires SortedNewestFirst(s)
    ensures SortNewestFirst(s + [r]) == AfterTies(r, s)
  {
    if s == [] {
      assert s + [r] == [r] + [];
      SortCons(r, []);
    } else {
      var x, s' := s[0], s[1..];
      assert s == [x] + s';
      assert s + [r] == [x] + (s' + [r]);
      SortCons(x, s' + [r]);
      SortedTail(s);
      SortAppendIsAfterTies(s', r);
      InsertIntoAfterTies(x, s', r);
    }
  }

  /**
   * On a newest-first list, appending and re-sorting puts the new reading
   * right after every reading at least as new as it and before every older
   * one; the others stay where they were.
   */
  lemma AddLogPlacement(s: seq<Reading>, r: Reading)
    requires SortedNewestFirst(s)
    ensures SortNewestFirst(s + [r])
      == s[..NewerCount(r, s)] + [r] + s[NewerCount(r, s)..]
    ensures forall i :: 0 <= i < NewerCount(r, s) ==> s[i].timestamp >= r.timestamp
    ensures forall i :: NewerCount(r, s) <= i < |s| ==> s[i].timestamp < r.timestamp
  {
    SortAppendIsAfterTies(s, r);
    AfterTiesSplit(r, s);
    NewerCountSplits(r, s);
  }
  /** Removing the id of a placed reading that no other reading has undoes the placement. */
  lemma {:induction false} RemovePlaced(r: Reading, s: seq<Reading>)
    requires forall x :: x in s ==> x.id != r.id
    ensures RemoveId(AfterTies(r, s), r.id) == s
  {
    if s == [] || s[0].timestamp < r.timestamp {
      var t := [r] + s;
      assert t[0] == r && t[1..] == s;
      RemoveIdAbsent(s, r.id);
    } else {
      var t := AfterTies(r, s[1..]);
      assert s[0] in s;
      assert forall x :: x in s[1..] ==> x in s;
      RemovePlaced(r, s[1..]);
      assert ([s[0]] + t)[0] == s[0] && ([s[0]] + t)[1..] == t;
      assert s == [s[0]] + s[1..];
    }
  }

  /**
   * Deleting the id of a reading just added (an id no other reading has)
   * gives back the readings as they were before the add.
   */
  lemma DeleteUndoesAdd(s: seq<Reading>, r: Reading)
    requires SortedNewestFirst(s)
    requires forall x :: x in s ==> x.id != r.id
    ensures RemoveId(SortNewestFirst(s + [r]), r.id) == s
  {
    SortAppendIsAfterTies(s, r);
    RemovePlaced(r, s);
  }

  class BPStore {
    var logs: seq<Reading>
    var insights: Option<Insight>
    var isAnalysing: bool
    var profile: Profile

    /** The readings are always newest first. */
    ghost predicate Valid()
      reads this
    {
      SortedNewestFirst(logs)
    }

    constructor ()
      ensures Valid()
      ensures logs == [] && insights == None && !isAnalysing && profile == DefaultProfile
    {
      logs := [];
      insights := None;
      isAnalysing := false;
      profile := DefaultProfile;
    }

    /**
     * The mount-time load of what was saved: saved readings come back
     * sorted newest first; each missing item leaves its field as it was.
     */
    method Load(savedLogs: Option<seq<Reading>>, savedProfile: Option<Profile>, savedInsights: Option<Insight>)
      requires Valid()
      modifies this
      ensures Valid()
      ensures logs == if savedLogs.Some? then SortNewestFirst(savedLogs.value) else old(logs)
      ensures profile == if savedProfile.Some? then savedProfile.value else old(profile)
      ensures insights == if savedInsights.Some? then savedInsights else old(insights)
      ensures isAnalysing == old(isAnalysing)
    {
      if savedLogs.Some? {
        logs := SortNewestFirst(savedLogs.value);
      }
      if savedProfile.Some? {
        profile := savedProfile.value;
      }
      if savedInsights.Some? {
        insights := savedInsights;
      }
    }

    /**
     * `addLog`: gives the submitted reading its id, adds it, re-sorts and
     * discards the insights, which no longer describe the readings.
     */
    method AddLog(entry: NewReading, freshId: string)
      requires Valid()
      modifies this
      ensures Valid()
      ensures logs == SortNewestFirst(old(logs) + [WithId(entry, freshId)])
      ensures |logs| == |old(logs)| + 1 && WithId(entry, freshId) in logs
      ensures multiset(logs) == multiset(old(logs)) + multiset{WithId(entry, freshId)}
      ensures insights == None
      ensures profile == old(profile) && isAnalysing == old(isAnalysing)
    {
      var logWithId := WithId(entry, freshId);
      var updatedLogs := SortNewestFirst(logs + [logWithId]);
      SortKeepsMembers(logs + [logWithId], logWithId);
      assert logWithId in logs + [logWithId];
      logs := updatedLogs;
      insights := None;
    }

    /** `deleteLog`: drops every reading with the id; nothing else changes. */
    method DeleteLog(id: string)
      requires Valid()
      modifies this
      ensures Valid()
      ensures logs == RemoveId(old(logs), id)
      ensures forall r :: r in logs <==> r in old(logs) && r.id != id
      ensures insights == old(insights) && profile == old(profile) && isAnalysing == old(isAnalysing)
    {
      RemoveIdSorted(logs, id);
      RemoveIdMembers(logs, id);
      logs := RemoveId(logs, id);
    }

    /** `updateProfile`: replaces the profile wholesale. */
    method UpdateProfile(newProfile: Profile)
      requires Valid()
      modifies this
      ensures Valid()
      ensures profile == newProfile
      ensures logs == old(logs) && insights == old(insights) && isAnalysing == old(isAnalysing)
    {
      profile := newProfile;
    }

    /** `clearInsights` */
    method ClearInsights()
      requires Valid()
      modifies this
      ensures Valid()
      ensures insights == None
      ensures logs == old(logs) && profile == old(profile) && isAnalysing == old(isAnalysing)
    {
      insights := None;
    }

    /**
     * `generateInsights`. `service` stands for the insight request: it
     * returns the report, or None when the awaited call is rejected, in
     * which case the rejection is passed on (`rejected`). With no readings
     * nothing happens; otherwise the flag is raised for the call and
     * lowered again however it ends.
     */
    method GenerateInsights(service: (seq<Reading>, Profile) -> Option<Insight>) returns (rejected: bool)
      requires Valid()
      modifies this
      ensures Valid()
      ensures old(logs) == [] ==> !rejected && unchanged(this)
      ensures old(logs) != [] ==>
        && !isAnalysing
        && rejected == service(old(logs), old(profile)).None?
        && insights == (if rejected then old(insights) else service(old(logs), old(profile)))
      ensures logs == old(logs) && profile == old(profile)
    {
      rejected := false;
      if |logs| == 0 {
        return;
      }
      isAnalysing := true;
      var result := service(logs, profile);
      if result.Some? {
        insights := result;
      } else {
        rejected := true;
      }
      isAnalysing := false;
    }
  }
}
