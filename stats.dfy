/**
  The statistics screen over the saved practice history: filtering by list,
  average and best score, the per-list breakdown and the chart window of the
  ten most recent records. Everything here is a pure function of the history.
*/
module Stats {
  import opened Wrappers
  import Scoring

  /** `PracticeResult`: one finished session. The date is the display string the session stored. */
  datatype Record = Record(date: string, score: int, listId: int, listName: string)

  /** `history.filter(result => result.listId === id)`. */
  function ForList(h: seq<Record>, id: int): (r: seq<Record>)
    ensures |r| <= |h|
    ensures forall x :: x in r <==> x in h && x.listId == id
  {
    if h == [] then [] else (if h[0].listId == id then [h[0]] else []) + ForList(h[1..], id)
  }

  /** Filtering distributes over concatenation, so it keeps the history's order. */
  lemma {:induction false} ForListConcat(a: seq<Record>, b: seq<Record>, id: int)
    ensures ForList(a + b, id) == ForList(a, id) + ForList(b, id)
  {
    if a != [] {
      var head := if a[0].listId == id then [a[0]] else [];
      assert (a + b)[0] == a[0] && (a + b)[1..] == a[1..] + b;
      calc {
        ForList(a + b, id);
        head + ForList(a[1..] + b, id);
        { ForListConcat(a[1..], b, id); }
        head + (ForList(a[1..], id) + ForList(b, id));
        (head + ForList(a[1..], id)) + ForList(b, id);
        ForList(a, id) + ForList(b, id);
      }
    } else {
      assert a + b == b;
    }
  }

  /** Appending one record to the history adds it to the list's records exactly when it is for that list. */
  lemma ForListAppend(h: seq<Record>, x: Record, id: int)
    ensures ForList(h + [x], id) == ForList(h, id) + (if x.listId == id then [x] else [])
  {
    ForListConcat(h, [x], id);
  }

  /** No record is lost or duplicated: each one occurs as often as in the history, or not at all. */
  lemma {:induction false} ForListCounts(h: seq<Record>, id: int, x: Record)
    ensures multiset(ForList(h, id))[x] == if x.listId == id then multiset(h)[x] else 0
  {
    if h != [] {
      ForListCounts(h[1..], id, x);
      assert h == [h[0]] + h[1..];
      assert multiset(h) == multiset{h[0]} + multiset(h[1..]);
      var head := if h[0].listId == id then [h[0]] else [];
      assert ForList(h, id) == head + ForList(h[1..], id);
      assert multiset(ForList(h, id)) == multiset(head) + multiset(ForList(h[1..], id));
    }
  }

  /** The history the screen shows: one list's records when a list is selected, otherwise all. */
  function Relevant(h: seq<Record>, selected: Option<int>): (r: seq<Record>)
    ensures selected.None? ==> r == h
    ensures selected.Some? ==> forall x :: x in r <==> x in h && x.listId == selected.value
  {
    match selected
    case None => h
    case Some(id) => ForList(h, id)
  }

  /** The total score; it is the left-to-right fold `reduce` computes, ending with the last record. */
  function Sum(h: seq<Record>): (r: int)
    ensures h != [] ==> r == Sum(h[..|h| - 1]) + h[|h| - 1].score
  {
    if h == [] then 0
    else
      assert h[1..] != [] ==> h[1..][..|h[1..]| - 1] == h[..|h| - 1][1..];
      h[0].score + Sum(h[1..])
  }

  /** Every score lies in `[lo, hi]`. */
  predicate ScoresWithin(h: seq<Record>, lo: int, hi: int) {
    forall k :: 0 <= k < |h| ==> lo <= h[k].score <= hi
  }

  lemma {:induction false} SumWithin(h: seq<Record>, lo: int, hi: int)
    requires ScoresWithin(h, lo, hi)
    ensures |h| * lo <= Sum(h) <= |h| * hi
  {
    if h != [] {
      SumWithin(h[1..], lo, hi);
      assert |h| * lo == lo + (|h| - 1) * lo;
      assert |h| * hi == hi + (|h| - 1) * hi;
    }
  }

  /** `getAverageScore`: 0 for no records, otherwise the rounded mean. */
  function Average(h: seq<Record>): (r: int)
    ensures h == [] ==> r == 0
    ensures h != [] ==> 2 * |h| * r - |h| <= 2 * Sum(h) < 2 * |h| * r + |h|
  {
    if |h| == 0 then 0 else Scoring.RoundHalfUp(Sum(h), |h|)
  }

  /** The average of scores in `[lo, hi]` stays in `[lo, hi]`; in particular a percentage stays a percentage. */
  lemma AverageWithin(h: seq<Record>, lo: int, hi: int)
    requires h != [] && ScoresWithin(h, lo, hi)
    ensures lo <= Average(h) <= hi
  {
    SumWithin(h, lo, hi);
    Scoring.RoundWithin(Sum(h), |h|, lo, hi);
  }

  /** `Math.max(...history.map(result => result.score))` for a non-empty history. */
  function MaxScore(h: seq<Record>): (m: int)
    requires h != []
    ensures exists k :: 0 <= k < |h| && h[k].score == m
    ensures forall k :: 0 <= k < |h| ==> h[k].score <= m
  {
    if |h| == 1 then h[0].score
    else
      var m := MaxScore(h[1..]);
      assert forall k :: 1 <= k < |h| ==> h[k] == h[1..][k - 1];
      if h[0].score >= m then h[0].score else m
  }

  /** `getBestScore`: 0 for no records, otherwise a score of the history that no score exceeds. */
  function Best(h: seq<Record>): (r: int)
    ensures h == [] ==> r == 0
    ensures h != [] ==> (exists k :: 0 <= k < |h| && h[k].score == r)
                        && forall k :: 0 <= k < |h| ==> h[k].score <= r
  {
    if |h| == 0 then 0 else MaxScore(h)
  }

  /** The average of a non-empty history never exceeds its best score. */
  lemma AverageAtMostBest(h: seq<Record>)
    requires h != []
    ensures Average(h) <= Best(h)
  {
    AverageWithin(h, Min(h), Best(h));
  }

  function Min(h: seq<Record>): (m: int)
    requires h != []
    ensures forall k :: 0 <= k < |h| ==> m <= h[k].score
  {
    if |h| == 1 then h[0].score
    else
      var m := Min(h[1..]);
      assert forall k :: 1 <= k < |h| ==> h[k] == h[1..][k - 1];
      if h[0].score <= m then h[0].score else m
  }

  /** The list identifiers of the history, each once, in order of first occurrence (`new Set(...)`). */
  function DistinctIds(h: seq<Record>): (d: seq<int>)
    ensures |d| <= |h|
  {
    if h == [] then []
    else
      var d := DistinctIds(h[..|h| - 1]);
      if h[|h| - 1].listId in d then d else d + [h[|h| - 1].listId]
  }

  /** No identifier is listed twice. */
  predicate NoDuplicates(d: seq<int>) {
    forall i, j :: 0 <= i < j < |d| ==> d[i] != d[j]
  }

  /** `id` occurs in the history before position `q`. */
  predicate OccursBefore(h: seq<Record>, id: int, q: int) {
    exists p :: 0 <= p < q && p < |h| && h[p].listId == id
  }

  /**
    The breakdown lists exactly the identifiers that occur, none twice, and in
    first-occurrence order: every record of a later-listed identifier comes
    after some record of each earlier-listed one.
  */
  lemma {:induction false} DistinctIdsSpec(h: seq<Record>)
    ensures NoDuplicates(DistinctIds(h))
    ensures forall id :: id in DistinctIds(h) <==> exists q :: 0 <= q < |h| && h[q].listId == id
    ensures forall i, j, q :: 0 <= i < j < |DistinctIds(h)| && 0 <= q < |h| && h[q].listId == DistinctIds(h)[j]
              ==> OccursBefore(h, DistinctIds(h)[i], q)
  {
    if h != [] {
      var g := h[..|h| - 1];
      var x := h[|h| - 1];
      DistinctIdsSpec(g);
      var dg := DistinctIds(g);
      var d := DistinctIds(h);
      assert forall q :: 0 <= q < |g| ==> g[q] == h[q];
      forall id
        ensures id in d <==> exists q :: 0 <= q < |h| && h[q].listId == id
      {
        if id in d && id != x.listId {
          assert id in dg;
          var q :| 0 <= q < |g| && g[q].listId == id;
          assert h[q].listId == id;
        }
        if id == x.listId {
          assert h[|h| - 1].listId == id;
        }
      }
      forall i, j, q | 0 <= i < j < |d| && 0 <= q < |h| && h[q].listId == d[j]
        ensures OccursBefore(h, d[i], q)
      {
        assert d[i] == dg[i];
        if q < |h| - 1 {
          assert g[q].listId == d[j];
          if j < |dg| {
            assert d[j] == dg[j];
            assert OccursBefore(g, dg[i], q);
            var p :| 0 <= p < q && p < |g| && g[p].listId == dg[i];
            assert h[p].listId == d[i];
          }
        } else {
          assert h[q].listId == x.listId;
          assert d[i] in dg;
          var q' :| 0 <= q' < |g| && g[q'].listId == d[i];
          assert h[q'].listId == d[i];
        }
      }
    }
  }

  /** One line of the per-list breakdown. */
  datatype ListSummary = ListSummary(listId: int, listName: string, average: int)

  /** Every identifier the breakdown lists has at least one record. */
  lemma IdHasRecords(h: seq<Record>, id: int)
    requires id in DistinctIds(h)
    ensures ForList(h, id) != []
  {
    DistinctIdsSpec(h);
    var q :| 0 <= q < |h| && h[q].listId == id;
    assert h[q] in ForList(h, id);
  }

  /**
    The per-list breakdown: for each distinct identifier, in order, the name
    of its first record and the average of all its records.
  */
  function Breakdown(h: seq<Record>): (rows: seq<ListSummary>)
    ensures |rows| == |DistinctIds(h)|
    ensures forall i :: 0 <= i < |rows| ==>
              ForList(h, rows[i].listId) != [] && rows[i].listId == DistinctIds(h)[i]
              && rows[i].listName == ForList(h, rows[i].listId)[0].listName
              && rows[i].average == Average(ForList(h, rows[i].listId))
  {
    var d := DistinctIds(h);
    assert forall i :: 0 <= i < |d| ==> ForList(h, d[i]) != [] by {
      forall i | 0 <= i < |d| ensures ForList(h, d[i]) != [] { IdHasRecords(h, d[i]); }
    }
    seq(|d|, i requires 0 <= i < |d| =>
      var recs := ForList(h, d[i]);
      ListSummary(d[i], recs[0].listName, Average(recs)))
  }

  /** The name shown for a list is that of its earliest record in the history. */
  lemma {:induction false} FirstRecordName(h: seq<Record>, id: int)
    requires ForList(h, id) != []
    ensures exists q :: 0 <= q < |h| && h[q] == ForList(h, id)[0]
                        && h[q].listId == id && !OccursBefore(h, id, q)
  {
    if h[0].listId == id {
      assert h[0] == ForList(h, id)[0];
    } else {
      FirstRecordName(h[1..], id);
      var q :| 0 <= q < |h[1..]| && h[1..][q] == ForList(h[1..], id)[0]
               && h[1..][q].listId == id && !OccursBefore(h[1..], id, q);
      assert h[q + 1] == ForList(h, id)[0];
    }
  }

  /** `history.slice(-n)`: the last `n` records, or all of them when there are fewer. */
  function LastN(h: seq<Record>, n: nat): (r: seq<Record>)
    requires n > 0
    ensures |r| == if |h| < n then |h| else n
    ensures h == h[..|h| - |r|] + r
  {
    if |h| <= n then h else h[|h| - n..]
  }

  /** After one more record, the window is the old window with the record added, its oldest entry dropped if full. */
  lemma LastNAppend(h: seq<Record>, x: Record, n: nat)
    requires n > 0
    ensures LastN(h + [x], n) == (
      var w := LastN(h, n) + [x];
      if |w| > n then w[1..] else w)
  {
    var w := LastN(h, n) + [x];
    if |h| >= n {
      assert (h + [x])[|h| + 1 - n..] == h[|h| - n..][1..] + [x];
    }
  }

  /** The chart of `StatsView`: the last ten records of the selected list, or of the whole history, oldest first. */
  function Chart(h: seq<Record>, selected: Option<int>): (r: seq<Record>)
    ensures var f := Relevant(h, selected);
            |r| == (if |f| < 10 then |f| else 10) && r == f[|f| - |r|..]
    ensures selected.None? ==> r == h[|h| - |r|..]
    ensures selected.Some? ==> forall x :: x in r ==> x in h && x.listId == selected.value
  {
    var f := Relevant(h, selected);
    var r := LastN(f, 10);
    assert forall x :: x in r ==> x in f;
    r
  }
}
