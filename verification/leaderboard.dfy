/**
 * `getLeaderboard`: the performances of one event (and of one apparatus,
 * when a non-zero apparatus id is given), joined with their athlete,
 * apparatus and final score, ordered by final score descending with
 * unscored performances last and ties broken by the athlete's last name.
 */
module Leaderboard {
  import opened Wrappers
  import opened Records
  import opened Tables

  /** One leaderboard row; `score` is absent when the performance has no final score yet. */
  datatype Entry = Entry(
    performanceId: int,
    apparatusId: int,
    apparatusName: string,
    apparatusCode: string,
    athleteId: int,
    firstName: string,
    lastName: string,
    country: Option<string>,
    club: Option<string>,
    score: Option<FinalScoreRow>)

  function FinalScoreOf(e: Entry): Option<int>
  {
    match e.score
    case Some(s) => Some(s.figures.finalScore)
    case None => None
  }

  /** Lexicographic order of names by character code. */
  predicate NameLeq(a: string, b: string)
  {
    a == [] || (b != [] && (a[0] < b[0] || (a[0] == b[0] && NameLeq(a[1..], b[1..]))))
  }

  lemma {:induction false} NameLeqTotal(a: string, b: string)
    ensures NameLeq(a, b) || NameLeq(b, a)
  {
    if a != [] && b != [] && a[0] == b[0] {
      NameLeqTotal(a[1..], b[1..]);
    }
  }

  lemma {:induction false} NameLeqTransitive(a: string, b: string, c: string)
    requires NameLeq(a, b) && NameLeq(b, c)
    ensures NameLeq(a, c)
  {
    if a != [] && b != [] && c != [] && a[0] == b[0] == c[0] {
      NameLeqTransitive(a[1..], b[1..], c[1..]);
    }
  }

  /** `ORDER BY fs.final_score DESC NULLS LAST, ath.last_name`: may `a` be listed before `b`? */
  predicate RanksBefore(a: Entry, b: Entry)
  {
    match (FinalScoreOf(a), FinalScoreOf(b))
    case (Some(x), Some(y)) => x > y || (x == y && NameLeq(a.lastName, b.lastName))
    case (Some(_), None) => true
    case (None, Some(_)) => false
    case (None, None) => NameLeq(a.lastName, b.lastName)
  }

  lemma RanksBeforeTotal(a: Entry, b: Entry)
    ensures RanksBefore(a, b) || RanksBefore(b, a)
  {
    NameLeqTotal(a.lastName, b.lastName);
  }

  lemma RanksBeforeTransitive(a: Entry, b: Entry, c: Entry)
    requires RanksBefore(a, b) && RanksBefore(b, c)
    ensures RanksBefore(a, c)
  {
    if NameLeq(a.lastName, b.lastName) && NameLeq(b.lastName, c.lastName) {
      NameLeqTransitive(a.lastName, b.lastName, c.lastName);
    }
  }

  lemma {:induction false} NameLeqReflexive(a: string)
    ensures NameLeq(a, a)
  {
    if a != [] {
      NameLeqReflexive(a[1..]);
    }
  }

  ghost predicate Ranked(s: seq<Entry>)
  {
    forall i, j :: 0 <= i < j < |s| ==> RanksBefore(s[i], s[j])
  }

  /**
   * In a ranked list, an entry that the other may not precede comes first:
   * higher final scores before lower, scored before unscored, and equal
   * scores by last name.
   */
  lemma StrictlyBetterFirst(s: seq<Entry>, i: nat, j: nat)
    requires Ranked(s) && i < |s| && j < |s|
    requires !RanksBefore(s[j], s[i])
    ensures i < j
  {
    if i == j {
      NameLeqReflexive(s[i].lastName);
    }
  }

  function InsertEntry(x: Entry, s: seq<Entry>): (r: seq<Entry>)
    requires Ranked(s)
    ensures Ranked(r)
    ensures multiset(r) == multiset(s) + multiset{x}
  {
    if s == [] then
      [x]
    else if RanksBefore(x, s[0]) then
      EntryAtFront(x, s);
      [x] + s
    else
      RanksBeforeTotal(x, s[0]);
      var rest := InsertEntry(x, s[1..]);
      EntryBehindHead(x, s, rest);
      [s[0]] + rest
  }

  /** An entry that ranks before the head of a ranked list may go in front of it. */
  lemma EntryAtFront(x: Entry, s: seq<Entry>)
    requires Ranked(s) && s != [] && RanksBefore(x, s[0])
    ensures Ranked([x] + s)
  {
    forall j | 0 <= j < |s| ensures RanksBefore(x, s[j]) {
      if j > 0 {
        RanksBeforeTransitive(x, s[0], s[j]);
      }
    }
  }

  /** Putting the head of `s` back in front of `x` inserted into its tail. */
  lemma EntryBehindHead(x: Entry, s: seq<Entry>, rest: seq<Entry>)
    requires Ranked(s) && s != [] && RanksBefore(s[0], x)
    requires Ranked(rest) && multiset(rest) == multiset(s[1..]) + multiset{x}
    ensures Ranked([s[0]] + rest)
    ensures multiset([s[0]] + rest) == multiset(s) + multiset{x}
  {
    assert s == [s[0]] + s[1..];
    forall k | 0 <= k < |rest| ensures RanksBefore(s[0], rest[k]) {
      assert rest[k] in multiset(rest);
      if rest[k] != x {
        assert rest[k] in multiset(s[1..]);
        var j :| 0 <= j < |s| - 1 && s[1..][j] == rest[k];
        assert s[j + 1] == rest[k];
      }
    }
  }

  /** The ordered copy: ranked, and a permutation of the input. */
  function SortEntries(s: seq<Entry>): (r: seq<Entry>)
    ensures Ranked(r)
    ensures multiset(r) == multiset(s)
  {
    if s == [] then
      []
    else
      assert s == [s[0]] + s[1..];
      InsertEntry(s[0], SortEntries(s[1..]))
  }

  /** `if (apparatusId)`: an absent or zero apparatus id does not filter. */
  predicate FiltersApparatus(apparatusId: Option<int>)
  {
    apparatusId.Some? && apparatusId.value != 0
  }

  /** The WHERE clause and the two inner joins. */
  predicate Selected(p: Performance, eventId: int, apparatusId: Option<int>,
                     athletes: map<int, Athlete>, apparatus: map<int, Apparatus>)
  {
    && p.eventId == eventId
    && (FiltersApparatus(apparatusId) ==> p.apparatusId == apparatusId.value)
    && p.athleteId in athletes
    && p.apparatusId in apparatus
  }

  /** The joined row of a selected performance; the final score is a left join. */
  function EntryOf(p: Performance, athletes: map<int, Athlete>, apparatus: map<int, Apparatus>,
                   finals: map<int, FinalScoreRow>): Entry
    requires p.athleteId in athletes && p.apparatusId in apparatus
  {
    var ath, app := athletes[p.athleteId], apparatus[p.apparatusId];
    Entry(p.id, p.apparatusId, app.name, app.code, p.athleteId, ath.firstName, ath.lastName,
          ath.country, ath.club, if p.id in finals then Some(finals[p.id]) else None)
  }

  /** The selected, joined rows in table order. */
  function Joined(perfs: seq<Performance>, athletes: map<int, Athlete>, apparatus: map<int, Apparatus>,
                  finals: map<int, FinalScoreRow>, eventId: int, apparatusId: Option<int>): (r: seq<Entry>)
    ensures forall i :: 0 <= i < |perfs| && Selected(perfs[i], eventId, apparatusId, athletes, apparatus) ==>
      EntryOf(perfs[i], athletes, apparatus, finals) in r
    ensures forall e :: e in r ==>
      exists i :: 0 <= i < |perfs| && Selected(perfs[i], eventId, apparatusId, athletes, apparatus)
                  && e == EntryOf(perfs[i], athletes, apparatus, finals)
  {
    if perfs == [] then []
    else
      var front, last := perfs[..|perfs| - 1], perfs[|perfs| - 1];
      var rest := Joined(front, athletes, apparatus, finals, eventId, apparatusId);
      assert forall i :: 0 <= i < |front| ==> front[i] == perfs[i];
      if Selected(last, eventId, apparatusId, athletes, apparatus) then
        rest + [EntryOf(last, athletes, apparatus, finals)]
      else
        rest
  }

  /** The positions of the selected performances whose joined row is `e`. */
  ghost function JoinedIndices(perfs: seq<Performance>, athletes: map<int, Athlete>, apparatus: map<int, Apparatus>,
                               finals: map<int, FinalScoreRow>, eventId: int, apparatusId: Option<int>, e: Entry): set<int>
  {
    set i | 0 <= i < |perfs| && Selected(perfs[i], eventId, apparatusId, athletes, apparatus)
                             && EntryOf(perfs[i], athletes, apparatus, finals) == e
  }

  lemma JoinedIndicesSnoc(perfs: seq<Performance>, athletes: map<int, Athlete>, apparatus: map<int, Apparatus>,
                          finals: map<int, FinalScoreRow>, eventId: int, apparatusId: Option<int>, e: Entry)
    requires perfs != []
    ensures
      var last := perfs[|perfs| - 1];
      |JoinedIndices(perfs, athletes, apparatus, finals, eventId, apparatusId, e)| ==
        |JoinedIndices(perfs[..|perfs| - 1], athletes, apparatus, finals, eventId, apparatusId, e)|
        + (if Selected(last, eventId, apparatusId, athletes, apparatus)
              && EntryOf(last, athletes, apparatus, finals) == e then 1 else 0)
  {
    var n := |perfs|;
    var front, last := perfs[..n - 1], perfs[n - 1];
    assert forall i :: 0 <= i < |front| ==> front[i] == perfs[i];
    var before := JoinedIndices(front, athletes, apparatus, finals, eventId, apparatusId, e);
    var after := JoinedIndices(perfs, athletes, apparatus, finals, eventId, apparatusId, e);
    var hit := Selected(last, eventId, apparatusId, athletes, apparatus) && EntryOf(last, athletes, apparatus, finals) == e;
    var lastOnes: set<int> := if hit then {n - 1} else {};
    forall i ensures i in after <==> i in before + lastOnes {
      if 0 <= i < n - 1 {
        assert front[i] == perfs[i];
      }
    }
    assert after == before + lastOnes;
    assert before !! lastOnes;
  }

  /** Each joined row occurs once per selected performance that yields it. */
  lemma {:induction false} JoinedCount(perfs: seq<Performance>, athletes: map<int, Athlete>, apparatus: map<int, Apparatus>,
                                       finals: map<int, FinalScoreRow>, eventId: int, apparatusId: Option<int>, e: Entry)
    ensures multiset(Joined(perfs, athletes, apparatus, finals, eventId, apparatusId))[e] ==
      |JoinedIndices(perfs, athletes, apparatus, finals, eventId, apparatusId, e)|
  {
    if perfs != [] {
      JoinedCount(perfs[..|perfs| - 1], athletes, apparatus, finals, eventId, apparatusId, e);
      JoinedIndicesSnoc(perfs, athletes, apparatus, finals, eventId, apparatusId, e);
    }
  }

  /**
   * The leaderboard: exactly the selected performances (each joined with
   * its final score, when there is one), ranked by final score descending,
   * unscored last, then by last name.
   */
  function GetLeaderboard(perfs: seq<Performance>, athletes: map<int, Athlete>, apparatus: map<int, Apparatus>,
                          finals: map<int, FinalScoreRow>, eventId: int, apparatusId: Option<int>): (r: seq<Entry>)
    ensures Ranked(r)
    ensures multiset(r) == multiset(Joined(perfs, athletes, apparatus, finals, eventId, apparatusId))
    ensures forall i :: 0 <= i < |perfs| && Selected(perfs[i], eventId, apparatusId, athletes, apparatus) ==>
      EntryOf(perfs[i], athletes, apparatus, finals) in r
    ensures forall e :: e in r ==>
      exists i :: 0 <= i < |perfs| && Selected(perfs[i], eventId, apparatusId, athletes, apparatus)
                  && e == EntryOf(perfs[i], athletes, apparatus, finals)
  {
    var joined := Joined(perfs, athletes, apparatus, finals, eventId, apparatusId);
    var r := SortEntries(joined);
    assert forall e :: e in r <==> e in joined by {
      forall e ensures e in r <==> e in joined {
        assert e in r <==> e in multiset(r);
        assert e in joined <==> e in multiset(joined);
      }
    }
    r
  }

  /**
   * Performance ids are unique, so every selected performance is listed
   * exactly once on the leaderboard.
   */
  lemma OncePerPerformance(perfs: seq<Performance>, athletes: map<int, Athlete>, apparatus: map<int, Apparatus>,
                           finals: map<int, FinalScoreRow>, eventId: int, apparatusId: Option<int>, k: nat)
    requires UniquePerformances(perfs)
    requires k < |perfs| && Selected(perfs[k], eventId, apparatusId, athletes, apparatus)
    ensures multiset(GetLeaderboard(perfs, athletes, apparatus, finals, eventId, apparatusId))
              [EntryOf(perfs[k], athletes, apparatus, finals)] == 1
  {
    var e := EntryOf(perfs[k], athletes, apparatus, finals);
    JoinedCount(perfs, athletes, apparatus, finals, eventId, apparatusId, e);
    var indices := JoinedIndices(perfs, athletes, apparatus, finals, eventId, apparatusId, e);
    forall i | i in indices ensures i == k {
      assert EntryOf(perfs[i], athletes, apparatus, finals).performanceId == perfs[i].id;
    }
    assert indices == {k};
  }
}
