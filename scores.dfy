/** The persistent high-score ranking (data/score_manager.py): the entries
    read back from the scores file, the stable descending sort that keeps the
    ten best, and the two queries the game asks of it. */
module Scores {
  import opened Common

  /** How many entries the ranking keeps. */
  const RankingSize := 10

  /** One ranking entry: the keys "score", "level" and "name". */
  datatype Entry = Entry(score: int, level: int, name: string)

  /** A decoded JSON value, as the loader receives it. */
  datatype Json =
    | JNull
    | JBool(b: bool)
    | JInt(i: int)
    | JFloat(r: real)
    | JString(s: string)
    | JArray(items: seq<Json>)
    | JObject(fields: map<string, Json>)

  /** An integer in the sense of the loader's type test, under which a boolean
      is an integer too. */
  predicate IsInteger(j: Json) {
    j.JInt? || j.JBool?
  }

  /** The integer value of an integer-like JSON value; true stands for 1. */
  function IntegerValue(j: Json): int
    requires IsInteger(j)
  {
    if j.JInt? then j.i else if j.b then 1 else 0
  }

  /** An object holding an integer "score", an integer "level" and a string
      "name"; other keys do not matter (data/score_manager.py:54-64). */
  predicate IsValidEntry(j: Json) {
    && j.JObject?
    && "score" in j.fields && "level" in j.fields && "name" in j.fields
    && IsInteger(j.fields["score"])
    && IsInteger(j.fields["level"])
    && j.fields["name"].JString?
  }

  function ToEntry(j: Json): Entry
    requires IsValidEntry(j)
  {
    Entry(IntegerValue(j.fields["score"]), IntegerValue(j.fields["level"]), j.fields["name"].s)
  }

  /** The valid elements of a JSON array, in their order. */
  function ValidEntries(items: seq<Json>): seq<Entry> {
    if items == [] then []
    else (if IsValidEntry(items[0]) then [ToEntry(items[0])] else []) + ValidEntries(items[1..])
  }

  /** The filter keeps exactly the valid elements: nothing else gets in
      and nothing valid is dropped. */
  lemma {:induction false} ValidEntriesKeepsExactlyTheValid(items: seq<Json>)
    ensures |ValidEntries(items)| <= |items|
    ensures forall e :: e in ValidEntries(items) <==> exists j :: j in items && IsValidEntry(j) && ToEntry(j) == e
  {
    if items != [] {
      var head, tail := items[0], items[1..];
      ValidEntriesKeepsExactlyTheValid(tail);
      assert ValidEntries(items) == (if IsValidEntry(head) then [ToEntry(head)] else []) + ValidEntries(tail);
      assert items == [head] + tail;
      forall e ensures e in ValidEntries(items) <==> exists j :: j in items && IsValidEntry(j) && ToEntry(j) == e {
        if e in ValidEntries(tail) {
          var j :| j in tail && IsValidEntry(j) && ToEntry(j) == e;
          assert j in items;
        }
      }
    }
  }

  /** The filter works element by element, so the order of the file is the
      order of the result. */
  lemma {:induction false} ValidEntriesKeepsOrder(items: seq<Json>, more: seq<Json>)
    ensures ValidEntries(items + more) == ValidEntries(items) + ValidEntries(more)
  {
    if items == [] {
      assert items + more == more;
    } else {
      ValidEntriesKeepsOrder(items[1..], more);
      DropOfAppend(items, more);
    }
  }

  /** The scores as loaded: `None` stands for a missing file and for a file
      that cannot be read or decoded; anything but an array gives no scores
      (data/score_manager.py:35-52). */
  function LoadScores(data: Option<Json>): (r: seq<Entry>)
    ensures data.None? ==> r == []
    ensures (data.Some? && !data.value.JArray?) ==> r == []
  {
    match data
    case Some(JArray(items)) => ValidEntries(items)
    case _ => []
  }

  /** What a loaded ranking holds: the valid entries of the stored array and
      nothing else. */
  lemma LoadKeepsOnlyValidEntries(data: Option<Json>)
    ensures forall e :: e in LoadScores(data) <==>
              data.Some? && data.value.JArray? &&
              exists j :: j in data.value.items && IsValidEntry(j) && ToEntry(j) == e
  {
    if data.Some? && data.value.JArray? {
      ValidEntriesKeepsExactlyTheValid(data.value.items);
    }
  }

  /** Splitting off the first element of an appended sequence. */
  lemma DropOfAppend<T>(a: seq<T>, b: seq<T>)
    requires a != []
    ensures (a + b)[0] == a[0] && (a + b)[1..] == a[1..] + b
  {
  }

  /** A non-empty sequence is its first element followed by the rest. */
  lemma SplitHead<T>(s: seq<T>)
    requires s != []
    ensures s == [s[0]] + s[1..]
  {
  }

  /** A prefix that fits in the first part of an appended sequence. */
  lemma TakeOfAppend<T>(a: seq<T>, b: seq<T>, n: int)
    requires 0 <= n <= |a|
    ensures (a + b)[..n] == a[..n]
  {
  }

  /** A non-empty sequence is its front followed by its last element. */
  lemma SplitLast<T>(s: seq<T>)
    requires s != []
    ensures s == s[..|s| - 1] + [s[|s| - 1]]
  {
  }

  /** Non-increasing by score. */
  predicate Ranked(s: seq<Entry>) {
    forall i, j :: 0 <= i < j < |s| ==> s[i].score >= s[j].score
  }

  /** `[x]` when `x` scores `v`, else nothing. */
  function KeepIfScores(x: Entry, v: int): seq<Entry> {
    if x.score == v then [x] else []
  }

  /** The entries of `s` whose score is `v`, in their order. */
  function WithScore(s: seq<Entry>, v: int): seq<Entry> {
    if s == [] then [] else KeepIfScores(s[0], v) + WithScore(s[1..], v)
  }

  /** Insertion into a ranked list behind every entry scoring at least as
      much: the step of a stable sort by descending score. It adds exactly
      the one entry. */
  function InsertByScore(s: seq<Entry>, e: Entry): (r: seq<Entry>)
    ensures |r| == |s| + 1
    ensures multiset(r) == multiset(s) + multiset{e}
  {
    if s == [] then [e]
    else if s[0].score >= e.score then
      assert s == [s[0]] + s[1..];
      [s[0]] + InsertByScore(s[1..], e)
    else [e] + s
  }

  /** The stable sort by descending score that the list sort with a score key
      and `reverse=True` performs: each entry in turn is inserted behind the
      ones already placed that score at least as much. It permutes its input. */
  function SortByScore(s: seq<Entry>): (r: seq<Entry>)
    ensures |r| == |s|
    ensures multiset(r) == multiset(s)
  {
    if s == [] then []
    else
      assert s == s[..|s| - 1] + [s[|s| - 1]];
      InsertByScore(SortByScore(s[..|s| - 1]), s[|s| - 1])
  }

  /** The entries of `s` whose score is `v`, after `s ++ t`. */
  lemma {:induction false} WithScoreAppend(s: seq<Entry>, t: seq<Entry>, v: int)
    ensures WithScore(s + t, v) == WithScore(s, v) + WithScore(t, v)
  {
    if s == [] {
      assert s + t == t;
    } else {
      DropOfAppend(s, t);
      WithScoreAppend(s[1..], t, v);
    }
  }

  lemma WithScoreSingle(x: Entry, v: int)
    ensures WithScore([x], v) == KeepIfScores(x, v)
  {
    assert [x][1..] == [];
  }

  /** An entry placed in front of a list it does not score below keeps it
      ranked. */
  lemma ConsKeepsRanked(x: Entry, s: seq<Entry>)
    requires Ranked(s) && forall i :: 0 <= i < |s| ==> x.score >= s[i].score
    ensures Ranked([x] + s)
  {
    var r := [x] + s;
    forall i, j | 0 <= i < j < |r| ensures r[i].score >= r[j].score {
      assert r[j] == s[j - 1];
      if i > 0 {
        assert r[i] == s[i - 1];
      }
    }
  }

  /** Inserting keeps a ranked list ranked. */
  lemma {:induction false} InsertKeepsRanked(s: seq<Entry>, e: Entry)
    requires Ranked(s)
    ensures Ranked(InsertByScore(s, e))
  {
    if s == [] {
    } else if s[0].score >= e.score {
      var rest := InsertByScore(s[1..], e);
      InsertKeepsRanked(s[1..], e);
      forall i | 0 <= i < |rest| ensures s[0].score >= rest[i].score {
        assert rest[i] in multiset(rest);
        if rest[i] != e {
          assert rest[i] in multiset(s[1..]);
          var k :| 0 <= k < |s[1..]| && s[1..][k] == rest[i];
          assert s[k + 1] == rest[i];
        }
      }
      ConsKeepsRanked(s[0], rest);
    } else {
      ConsKeepsRanked(e, s);
    }
  }

  /** Inserting puts the new entry behind every entry of equal score. */
  lemma {:induction false} InsertIsStable(s: seq<Entry>, e: Entry, v: int)
    requires Ranked(s)
    ensures WithScore(InsertByScore(s, e), v) == WithScore(s, v) + KeepIfScores(e, v)
  {
    if s == [] {
      WithScoreSingle(e, v);
    } else if s[0].score >= e.score {
      InsertIsStable(s[1..], e, v);
      SplitHead(s);
      ConsKeepsSplit(s[0], InsertByScore(s[1..], e), s[1..], KeepIfScores(e, v), v);
    } else {
      WithScoreSingle(e, v);
      WithScoreAppend([e], s, v);
      if e.score == v {
        WithScoreNone(s, v);
      }
    }
  }

  /** Putting the same entry in front of two lists keeps a relation between
      their entries of score `v`. */
  lemma ConsKeepsSplit(x: Entry, s: seq<Entry>, t: seq<Entry>, u: seq<Entry>, v: int)
    requires WithScore(s, v) == WithScore(t, v) + u
    ensures WithScore([x] + s, v) == WithScore([x] + t, v) + u
  {
    assert ([x] + s)[1..] == s && ([x] + t)[1..] == t;
  }

  /** Nothing in a list that is ranked below `v` scores `v`. */
  lemma {:induction false} WithScoreNone(s: seq<Entry>, v: int)
    requires Ranked(s) && (s != [] ==> s[0].score < v)
    ensures WithScore(s, v) == []
  {
    if s != [] {
      WithScoreNone(s[1..], v);
    }
  }

  /** The sort yields a ranked list (it permutes its input, by its own
      contract). */
  lemma {:induction false} SortByScoreIsRanked(s: seq<Entry>)
    ensures Ranked(SortByScore(s))
  {
    if s != [] {
      var init, last := s[..|s| - 1], s[|s| - 1];
      assert SortByScore(s) == InsertByScore(SortByScore(init), last);
      SortByScoreIsRanked(init);
      InsertKeepsRanked(SortByScore(init), last);
    }
  }

  /** The sort is stable: the entries of each score keep their input order. */
  lemma {:induction false} SortByScoreIsStable(s: seq<Entry>, v: int)
    ensures WithScore(SortByScore(s), v) == WithScore(s, v)
  {
    if s != [] {
      var init, last := s[..|s| - 1], s[|s| - 1];
      assert SortByScore(s) == InsertByScore(SortByScore(init), last);
      SortByScoreIsRanked(init);
      SortByScoreIsStable(init, v);
      InsertIsStable(SortByScore(init), last, v);
      SplitLast(s);
      WithScoreAppend(init, [last], v);
      WithScoreSingle(last, v);
    }
  }

  /** Every entry of `s` scores at least `v`. */
  predicate AllScoreAtLeast(s: seq<Entry>, v: int) {
    forall i :: 0 <= i < |s| ==> s[i].score >= v
  }

  /** Every entry of a ranked list scores at least as much as its last. */
  lemma RankedAboveLast(s: seq<Entry>)
    requires Ranked(s) && s != []
    ensures AllScoreAtLeast(s, s[|s| - 1].score)
  {
    forall i | 0 <= i < |s| ensures s[i].score >= s[|s| - 1].score {
      if i < |s| - 1 {
        assert s[i].score >= s[|s| - 1].score;
      }
    }
  }

  /** Sorting a ranked list with one entry appended inserts that entry. */
  lemma SortAfterRanked(s: seq<Entry>, e: Entry)
    requires Ranked(s)
    ensures SortByScore(s + [e]) == InsertByScore(s, e)
  {
    SortOfRankedIsIdentity(s);
    assert (s + [e])[..|s|] == s;
  }

  /** A ranked list is already in sort order. */
  lemma {:induction false} SortOfRankedIsIdentity(s: seq<Entry>)
    requires Ranked(s)
    ensures SortByScore(s) == s
  {
    if s != [] {
      var init, last := s[..|s| - 1], s[|s| - 1];
      assert SortByScore(s) == InsertByScore(SortByScore(init), last);
      PrefixKeepsRanked(s, init);
      SortOfRankedIsIdentity(init);
      RankedAboveLast(s);
      assert AllScoreAtLeast(init, last.score);
      InsertBehindAll(init, last);
      SplitLast(s);
    }
  }

  /** An entry scoring no more than any in the list goes to the end. */
  lemma {:induction false} InsertBehindAll(s: seq<Entry>, e: Entry)
    requires AllScoreAtLeast(s, e.score)
    ensures InsertByScore(s, e) == s + [e]
  {
    if s != [] {
      InsertBehindAll(s[1..], e);
      SplitHead(s);
    }
  }

  /** An entry beating the last of a non-empty ranked list lands within the
      first |s| places. */
  lemma {:induction false} InsertAheadOfLast(s: seq<Entry>, e: Entry)
    requires Ranked(s) && |s| > 0 && s[|s| - 1].score < e.score
    ensures |InsertByScore(s, e)| == |s| + 1
    ensures e in InsertByScore(s, e)[..|s|]
  {
    if s[0].score >= e.score {
      assert |s| > 1;
      InsertAheadOfLast(s[1..], e);
      var rest := InsertByScore(s[1..], e);
      assert ([s[0]] + rest)[..|s|] == [s[0]] + rest[..|s| - 1];
    } else {
      assert ([e] + s)[0] == e;
    }
  }

  /** `s[:n]` for any integer `n`: a negative `n` counts from the end. */
  function Prefix(s: seq<Entry>, n: int): (r: seq<Entry>)
    ensures r <= s
    ensures n >= 0 ==> |r| == if n < |s| then n else |s|
    ensures n < 0 ==> |r| == if |s| + n > 0 then |s| + n else 0
  {
    if n >= 0 then s[..if n < |s| then n else |s|]
    else s[..if |s| + n > 0 then |s| + n else 0]
  }

  /** The ranking after adding `e`: append, stable sort by descending score,
      keep the first ten (data/score_manager.py:78-82). */
  function Added(scores: seq<Entry>, e: Entry): seq<Entry> {
    Prefix(SortByScore(scores + [e]), RankingSize)
  }

  /** The ranking after an addition holds at most ten entries, is ranked, is
      drawn from the old entries and the new one, drops nothing while there
      is room, and places the new entry behind the entries of equal score
      that were already there, which keep their order. */
  lemma AddedIsRanking(scores: seq<Entry>, e: Entry)
    ensures var r := Added(scores, e);
            && |r| <= RankingSize && Ranked(r)
            && multiset(r) <= multiset(scores) + multiset{e}
            && (|scores| < RankingSize ==> multiset(r) == multiset(scores) + multiset{e})
            && WithScore(SortByScore(scores + [e]), e.score) == WithScore(scores, e.score) + [e]
  {
    var sorted := SortByScore(scores + [e]);
    SortByScoreIsRanked(scores + [e]);
    SortByScoreIsStable(scores + [e], e.score);
    WithScoreAppend(scores, [e], e.score);
    WithScoreSingle(e, e.score);
    var r := Added(scores, e);
    PrefixKeepsRanked(sorted, r);
    assert sorted == r + sorted[|r|..];
    assert multiset(sorted) == multiset(r) + multiset(sorted[|r|..]);
  }

  /** A prefix of a ranked list is ranked. */
  lemma PrefixKeepsRanked(s: seq<Entry>, r: seq<Entry>)
    requires Ranked(s) && r <= s
    ensures Ranked(r)
  {
    forall i, j | 0 <= i < j < |r| ensures r[i].score >= r[j].score {
      assert r[i] == s[i] && r[j] == s[j];
    }
  }

  /** The qualifying rule: while fewer than ten entries are held any score
      qualifies, otherwise it must beat the last entry
      (data/score_manager.py:107-119). */
  predicate Qualifies(scores: seq<Entry>, score: int) {
    |scores| < RankingSize || score > scores[|scores| - 1].score
  }

  /** On a ranked list of at most ten entries, a qualifying score enters the
      ranking. */
  lemma {:induction false} QualifyingScoreEnters(scores: seq<Entry>, e: Entry)
    requires Ranked(scores) && |scores| <= RankingSize
    requires Qualifies(scores, e.score)
    ensures e in Added(scores, e)
  {
    SortAfterRanked(scores, e);
    var ins := InsertByScore(scores, e);
    if |scores| < RankingSize {
      assert Added(scores, e) == ins;
      assert e in multiset(ins);
    } else {
      InsertAheadOfLast(scores, e);
      assert Added(scores, e) == ins[..|scores|];
    }
  }

  /** On a ranked list of ten or more entries, a score that does not qualify
      leaves the first ten entries as they were. */
  lemma {:induction false} NonQualifyingScoreChangesNothing(scores: seq<Entry>, e: Entry)
    requires Ranked(scores)
    requires !Qualifies(scores, e.score)
    ensures Added(scores, e) == scores[..RankingSize]
  {
    SortAfterRanked(scores, e);
    RankedAboveLast(scores);
    InsertBehindAll(scores, e);
    TakeOfAppend(scores, [e], RankingSize);
  }

  /** Why the qualifying rule needs the ten-entry bound: a stored file of
      eleven ranked entries lets a score qualify that then falls out. */
  lemma LongFileBreaksQualifying()
    ensures var scores := seq(10, _ => Entry(100, 1, "A")) + [Entry(50, 1, "B")];
            && Ranked(scores) && Qualifies(scores, 60)
            && Entry(60, 1, "C") !in Added(scores, Entry(60, 1, "C"))
  {
    var scores := seq(10, _ => Entry(100, 1, "A")) + [Entry(50, 1, "B")];
    var e := Entry(60, 1, "C");
    assert Ranked(scores);
    var init := scores[..10];
    assert AllScoreAtLeast(init, e.score);
    SortAfterRanked(scores, e);
    assert scores == init + [scores[10]];
    InsertIntoRankedAt(init, scores[10], e);
    assert Added(scores, e) == init;
  }

  /** Insertion behind a prefix that scores at least as much. */
  lemma {:induction false} InsertIntoRankedAt(init: seq<Entry>, last: Entry, e: Entry)
    requires AllScoreAtLeast(init, e.score)
    requires last.score < e.score
    ensures InsertByScore(init + [last], e) == init + [e, last]
  {
    if init != [] {
      InsertIntoRankedAt(init[1..], last, e);
      DropOfAppend(init, [last]);
      SplitHead(init);
    }
  }

  /** The ranking held by the game. */
  class ScoreManager {
    var scores: seq<Entry>

    /** Starts from what the scores file yields. */
    constructor (data: Option<Json>)
      ensures scores == LoadScores(data)
    {
      scores := LoadScores(data);
    }

    /** Appends the entry, re-sorts, keeps the ten best and reports whether an
        entry equal to the new one is among them. */
    method AddScore(score: int, level: int, name: string) returns (entered: bool)
      modifies this
      ensures scores == Added(old(scores), Entry(score, level, name))
      ensures entered <==> Entry(score, level, name) in scores
      ensures |scores| <= RankingSize && Ranked(scores)
    {
      var newEntry := Entry(score, level, name);
      ghost var before := scores;
      AddedIsRanking(before, newEntry);
      scores := scores + [newEntry];
      scores := SortByScore(scores);
      scores := Prefix(scores, RankingSize);
      entered := newEntry in scores;
    }

    /** The first `n` entries, with the slicing rule for negative `n`. */
    function TopScores(n: int): (r: seq<Entry>)
      reads this
      ensures r <= scores
      ensures n >= 0 ==> |r| == if n < |scores| then n else |scores|
    {
      Prefix(scores, n)
    }

    /** Whether a score would qualify for the ranking held now: always while
        fewer than ten entries are held, otherwise only above the last one;
        any higher score then qualifies too. */
    predicate IsHighScore(score: int): (r: bool)
      reads this
      ensures r <==> |scores| < RankingSize || score > scores[|scores| - 1].score
      ensures r ==> forall s :: s > score ==> Qualifies(scores, s)
    {
      Qualifies(scores, score)
    }
  }
}
