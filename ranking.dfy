/** The ranking step of `recommend`: pair every row index of a similarity row with its
    score, sort the pairs by score, highest first, with Python's stable sort, and keep the
    entries at sorted positions 1 to 5. */
module Ranking {
  import opened Wrappers

  /** Similarity scores are only ever compared, so any totally ordered type will do. */
  type Score = real

  /** One `(row index, score)` pair produced by `enumerate` over a similarity row. */
  datatype Entry = Entry(row: nat, score: Score)

  /** `list(enumerate(scores))`. */
  function Enumerate(scores: seq<Score>): (r: seq<Entry>)
    ensures |r| == |scores|
    ensures RowsIncreasing(r)
    ensures forall j :: 0 <= j < |r| ==> r[j].row == j && r[j].score == scores[j]
  {
    seq(|scores|, j requires 0 <= j < |scores| => Entry(j, scores[j]))
  }

  /** The order in which the stable descending sort leaves two entries of an enumeration:
      the higher score first, and on equal scores the lower row index first. */
  predicate RanksBefore(a: Entry, b: Entry)
  {
    a.score > b.score || (a.score == b.score && a.row < b.row)
  }

  predicate Ranked(s: seq<Entry>)
  {
    forall i, j :: 0 <= i < j < |s| ==> RanksBefore(s[i], s[j])
  }

  predicate RowsIncreasing(s: seq<Entry>)
  {
    forall i, j :: 0 <= i < j < |s| ==> s[i].row < s[j].row
  }

  /** Inserts `x` in front of the first entry whose score is not above its own, so that
      `x`, which came earlier in the input, stays ahead of the entries it ties with. */
  function Insert(x: Entry, t: seq<Entry>): (r: seq<Entry>)
    ensures multiset(r) == multiset(t) + multiset{x}
  {
    if t == [] || x.score >= t[0].score then [x] + t
    else
      assert t == [t[0]] + t[1..];
      [t[0]] + Insert(x, t[1..])
  }

  /** `sorted(s, reverse=True, key=lambda x: x[1])`: a stable sort on descending score. */
  function SortDescending(s: seq<Entry>): (r: seq<Entry>)
    ensures multiset(r) == multiset(s)
  {
    if s == [] then []
    else
      assert s == [s[0]] + s[1..];
      Insert(s[0], SortDescending(s[1..]))
  }

  /** The `distances` list of `recommend` for one similarity row. */
  function Distances(scores: seq<Score>): (r: seq<Entry>)
    ensures multiset(r) == multiset(Enumerate(scores))
    ensures Ranked(r)
  {
    SortDescendingRanked(Enumerate(scores));
    SortDescending(Enumerate(scores))
  }

  /** Python's `s[lo:hi]` for non-negative bounds: both ends are clamped to the length. */
  function Slice<T>(s: seq<T>, lo: nat, hi: nat): (r: seq<T>)
    ensures |r| == if Min(hi, |s|) <= lo then 0 else Min(hi, |s|) - lo
    ensures forall k :: 0 <= k < |r| ==> lo + k < |s| && r[k] == s[lo + k]
  {
    var a := Min(lo, |s|);
    var b := Min(hi, |s|);
    if a <= b then s[a..b] else []
  }

  /** `distances[1:6]`: the entries at sorted positions 1 to 5. */
  function Selected(scores: seq<Score>): (r: seq<Entry>)
    ensures |r| <= 5
    ensures forall k :: 0 <= k < |r| ==> r[k].row < |scores| && r[k].score == scores[r[k].row]
  {
    DistancesAreSortedEnumeration(scores);
    Slice(Distances(scores), 1, 6)
  }

  /** An entry that ranks before every entry of a ranked sequence can go in front of it. */
  lemma ConsRanked(h: Entry, t: seq<Entry>)
    requires Ranked(t)
    requires forall e :: e in t ==> RanksBefore(h, e)
    ensures Ranked([h] + t)
  {
    var r := [h] + t;
    forall i, j | 0 <= i < j < |r| ensures RanksBefore(r[i], r[j]) {
      assert r[j] == t[j - 1];
      if i == 0 {
        assert t[j - 1] in t;
      } else {
        assert r[i] == t[i - 1];
      }
    }
  }

  lemma {:induction false} InsertRanked(x: Entry, t: seq<Entry>)
    requires Ranked(t)
    requires forall e :: e in t ==> x.row < e.row
    ensures Ranked(Insert(x, t))
  {
    if t == [] || x.score >= t[0].score {
      forall e | e in t ensures RanksBefore(x, e) {
        HeadRanksFirst(t, e);
      }
      ConsRanked(x, t);
    } else {
      var rest := Insert(x, t[1..]);
      assert forall e :: e in t[1..] ==> e in t;
      assert Ranked(t[1..]);
      InsertRanked(x, t[1..]);
      forall e | e in rest ensures RanksBefore(t[0], e) {
        assert e in multiset(rest);
        if e != x {
          assert e in multiset(t[1..]);
          var j :| 0 <= j < |t[1..]| && t[1..][j] == e;
          assert RanksBefore(t[0], t[j + 1]);
        }
      }
      ConsRanked(t[0], rest);
    }
  }

  /** Sorting an input whose row indices increase (as those of an enumeration do) yields
      the entries in `RanksBefore` order: descending score, ties by ascending row. */
  lemma {:induction false} SortDescendingRanked(s: seq<Entry>)
    requires RowsIncreasing(s)
    ensures Ranked(SortDescending(s))
  {
    if s != [] {
      var t := SortDescending(s[1..]);
      SortDescendingRanked(s[1..]);
      forall e | e in t ensures s[0].row < e.row {
        assert e in multiset(t);
        assert e in multiset(s[1..]);
        var j :| 0 <= j < |s[1..]| && s[1..][j] == e;
        assert s[j + 1] == e;
      }
      InsertRanked(s[0], t);
    }
  }

  /** The sorted list holds every `(j, scores[j])` exactly once, in `RanksBefore` order. */
  lemma DistancesAreSortedEnumeration(scores: seq<Score>)
    ensures multiset(Distances(scores)) == multiset(Enumerate(scores))
    ensures |Distances(scores)| == |scores|
    ensures Ranked(Distances(scores))
    ensures forall k :: 0 <= k < |scores| ==>
              Distances(scores)[k].row < |scores| && Distances(scores)[k].score == scores[Distances(scores)[k].row]
    ensures forall j :: 0 <= j < |scores| ==> Entry(j, scores[j]) in Distances(scores)
    ensures forall k, l :: 0 <= k < l < |scores| ==> Distances(scores)[k].row != Distances(scores)[l].row
  {
    var e := Enumerate(scores);
    var r := Distances(scores);
    SortDescendingRanked(e);
    assert |r| == |multiset(r)| == |multiset(e)| == |e|;
    forall k | 0 <= k < |r|
      ensures r[k].row < |scores| && r[k].score == scores[r[k].row]
    {
      assert r[k] in multiset(e);
    }
    forall j | 0 <= j < |scores| ensures Entry(j, scores[j]) in r {
      assert e[j] in multiset(r);
    }
  }

  /** The first entry of a ranked sequence ranks before every other entry in it. */
  lemma HeadRanksFirst(s: seq<Entry>, e: Entry)
    requires Ranked(s)
    requires e in s
    ensures e == s[0] || RanksBefore(s[0], e)
  {
    var k :| 0 <= k < |s| && s[k] == e;
    if k != 0 { assert RanksBefore(s[0], s[k]); }
  }

  /** Two non-empty sequences ordered by `RanksBefore` that hold the same entries start with
      the same entry. */
  lemma RankedHeadsAgree(a: seq<Entry>, b: seq<Entry>)
    requires Ranked(a) && Ranked(b)
    requires multiset(a) == multiset(b)
    requires a != []
    ensures b != [] && a[0] == b[0]
  {
    assert a[0] in multiset(b);
    assert b != [] && b[0] in multiset(a);
    HeadRanksFirst(a, b[0]);
    HeadRanksFirst(b, a[0]);
  }

  /** Dropping the head of a ranked sequence leaves a ranked sequence of the other entries. */
  lemma RankedTail(a: seq<Entry>)
    requires Ranked(a) && a != []
    ensures Ranked(a[1..])
    ensures multiset(a[1..]) == multiset(a) - multiset{a[0]}
  {
    assert a == [a[0]] + a[1..];
  }

  /** Two sequences ordered by `RanksBefore` that hold the same entries are equal: the order
      fixes the result completely, which is what makes the ranking deterministic. */
  lemma {:induction false} RankedUnique(a: seq<Entry>, b: seq<Entry>)
    requires Ranked(a) && Ranked(b)
    requires multiset(a) == multiset(b)
    ensures a == b
  {
    if a == [] {
      assert |b| == |multiset(b)| == 0;
    } else {
      RankedHeadsAgree(a, b);
      RankedTail(a);
      RankedTail(b);
      RankedUnique(a[1..], b[1..]);
    }
  }

  /** Any arrangement of the enumerated pairs in descending score order with ties by
      ascending row index is exactly the sorted list of `recommend`. */
  lemma DistancesAreUnique(scores: seq<Score>, t: seq<Entry>)
    requires multiset(t) == multiset(Enumerate(scores))
    requires Ranked(t)
    ensures t == Distances(scores)
  {
    DistancesAreSortedEnumeration(scores);
    RankedUnique(t, Distances(scores));
  }

  /** The entry that `[1:6]` drops is the highest score of the row, at the lowest row index
      that reaches it. */
  lemma TopEntryIsFirstMaximum(scores: seq<Score>)
    requires |scores| > 0
    ensures var top := Distances(scores)[0];
            top.row < |scores| && top.score == scores[top.row] &&
            (forall j :: 0 <= j < |scores| ==> scores[j] <= top.score) &&
            (forall j :: 0 <= j < top.row ==> scores[j] < top.score)
  {
    DistancesAreSortedEnumeration(scores);
    var r := Distances(scores);
    forall j | 0 <= j < |scores| ensures scores[j] <= r[0].score && (j < r[0].row ==> scores[j] < r[0].score) {
      var k :| 0 <= k < |r| && r[k] == Entry(j, scores[j]);
      if k != 0 { assert RanksBefore(r[0], r[k]); }
    }
  }

  /** Exactly the first sorted entry is excluded: the result is the sorted list from
      position 1 on, cut at five entries, so its length is `min(5, n - 1)`. */
  lemma SelectedIsDistancesAfterTop(scores: seq<Score>)
    requires |scores| > 0
    ensures |Selected(scores)| == Min(5, |scores| - 1)
    ensures forall k :: 0 <= k < |Selected(scores)| ==> Selected(scores)[k] == Distances(scores)[k + 1]
    ensures forall k :: 0 <= k < |Selected(scores)| ==>
              Selected(scores)[k].row < |scores| && Selected(scores)[k].score == scores[Selected(scores)[k].row]
    ensures Distances(scores)[0] !in Selected(scores)
  {
    DistancesAreSortedEnumeration(scores);
    var r := Distances(scores);
    var s := Selected(scores);
    forall k | 0 <= k < |s| ensures s[k] != r[0] {
      assert RanksBefore(r[0], r[k + 1]);
    }
  }

  /** The dropped first entry is row `i` exactly when `i` holds the row's highest score and
      every lower row index scores strictly less. */
  lemma TopIsRowIff(scores: seq<Score>, i: nat)
    requires i < |scores|
    ensures Distances(scores)[0].row == i <==>
              (forall j :: 0 <= j < |scores| ==> scores[j] <= scores[i]) &&
              (forall j :: 0 <= j < i ==> scores[j] < scores[i])
  {
    TopEntryIsFirstMaximum(scores);
    var top := Distances(scores)[0];
    if (forall j :: 0 <= j < |scores| ==> scores[j] <= scores[i]) &&
       (forall j :: 0 <= j < i ==> scores[j] < scores[i]) {
      assert top.score == scores[i];
      assert top.row == i;
    }
  }

  /** When the query's self-score is the highest of its row and every lower row index
      scores strictly less, the query's own row is never among the selected entries. */
  lemma SelfExcluded(scores: seq<Score>, i: nat)
    requires i < |scores|
    requires forall j :: 0 <= j < |scores| ==> scores[j] <= scores[i]
    requires forall j :: 0 <= j < i ==> scores[j] < scores[i]
    ensures forall k :: 0 <= k < |Selected(scores)| ==> Selected(scores)[k].row != i
  {
    TopIsRowIff(scores, i);
    SelectedIsDistancesAfterTop(scores);
    DistancesAreSortedEnumeration(scores);
  }

  /** Without the strict maximum the query can be recommended to itself: a lower row that
      ties its self-score takes the dropped first place. */
  lemma SelfNotExcludedOnTie()
    ensures Selected([1.0, 1.0]) == [Entry(1, 1.0)]
  {
    var scores: seq<Score> := [1.0, 1.0];
    assert Enumerate(scores) == [Entry(0, 1.0), Entry(1, 1.0)];
    assert Distances(scores) == [Entry(0, 1.0), Entry(1, 1.0)];
  }

  lemma ThreeScoreEnumeration()
    ensures Enumerate([1.0, 0.8, 0.3]) == [Entry(0, 1.0), Entry(1, 0.8), Entry(2, 0.3)]
  {
  }

  lemma ThreeScoreSort()
    ensures SortDescending([Entry(0, 1.0), Entry(1, 0.8), Entry(2, 0.3)]) == [Entry(0, 1.0), Entry(1, 0.8), Entry(2, 0.3)]
  {
    var e0, e1, e2 := Entry(0, 1.0), Entry(1, 0.8), Entry(2, 0.3);
    assert [e0, e1, e2][1..] == [e1, e2] && [e1, e2][1..] == [e2];
    assert SortDescending([e2]) == [e2];
    assert SortDescending([e1, e2]) == Insert(e1, [e2]) == [e1, e2];
    assert SortDescending([e0, e1, e2]) == Insert(e0, [e1, e2]) == [e0, e1, e2];
  }

  /** The row `[1.0, 0.8, 0.3]` of the first movie selects rows 1 and 2, in that order. */
  lemma ThreeScoreExample()
    ensures Selected([1.0, 0.8, 0.3]) == [Entry(1, 0.8), Entry(2, 0.3)]
  {
    ThreeScoreEnumeration();
    ThreeScoreSort();
    var e0, e1, e2 := Entry(0, 1.0), Entry(1, 0.8), Entry(2, 0.3);
    assert [e0, e1, e2][1..3] == [e1, e2];
  }
}
