/** The rolling decision window (`update_sensor_data_cache`, window logic):
    merge newer rows, keep the last H hours, sort by timestamp. */
module Window {
  import opened Records

  function MaxTimestamp(rows: seq<Record>): (m: int)
    requires |rows| > 0
    ensures forall x :: x in rows ==> x.timestamp <= m
    ensures exists x :: x in rows && x.timestamp == m
  {
    if |rows| == 1 then rows[0].timestamp
    else
      var rest := MaxTimestamp(rows[1..]);
      assert forall x :: x in rows ==> x == rows[0] || x in rows[1..];
      if rows[0].timestamp >= rest then rows[0].timestamp else rest
  }

  /** The rows strictly newer than `bound`, in their order. */
  function NewerThan(rows: seq<Record>, bound: int): (r: seq<Record>)
    ensures forall x :: x in r <==> x in rows && x.timestamp > bound
    ensures multiset(r) <= multiset(rows)
  {
    if rows == [] then []
    else
      var rest := NewerThan(rows[1..], bound);
      assert rows == [rows[0]] + rows[1..];
      if rows[0].timestamp > bound then [rows[0]] + rest else rest
  }

  /** The filter keeps every copy of a newer row and drops every copy of
      an older one. */
  lemma {:induction false} NewerThanCopies(rows: seq<Record>, bound: int)
    ensures forall x :: multiset(NewerThan(rows, bound))[x] ==
                        if x.timestamp > bound then multiset(rows)[x] else 0
  {
    if rows != [] {
      NewerThanCopies(rows[1..], bound);
      assert rows == [rows[0]] + rows[1..];
    }
  }

  lemma {:induction false} NewerThanAll(rows: seq<Record>, bound: int)
    requires forall x :: x in rows ==> x.timestamp > bound
    ensures NewerThan(rows, bound) == rows
  {
    if rows != [] {
      assert rows[0] in rows;
      assert forall x :: x in rows[1..] ==> x in rows;
      NewerThanAll(rows[1..], bound);
    }
  }

  lemma {:induction false} NewerThanNone(rows: seq<Record>, bound: int)
    requires forall x :: x in rows ==> x.timestamp <= bound
    ensures NewerThan(rows, bound) == []
  {
    if rows != [] {
      assert rows[0] in rows;
      assert forall x :: x in rows[1..] ==> x in rows;
      NewerThanNone(rows[1..], bound);
    }
  }

  predicate SortedByTime(rows: seq<Record>) {
    forall i, j :: 0 <= i < j < |rows| ==> rows[i].timestamp <= rows[j].timestamp
  }

  /** Inserts `x` before the first row that is not older. */
  function Insert(x: Record, rows: seq<Record>): (r: seq<Record>)
    requires SortedByTime(rows)
    ensures SortedByTime(r)
    ensures multiset(r) == multiset(rows) + multiset{x}
    ensures |r| == |rows| + 1
  {
    if rows == [] || x.timestamp <= rows[0].timestamp then
      [x] + rows
    else
      var rest := Insert(x, rows[1..]);
      assert rows == [rows[0]] + rows[1..];
      forall k | 0 <= k < |rest| ensures rows[0].timestamp <= rest[k].timestamp {
        assert rest[k] in multiset(rest);
        if rest[k] != x {
          assert rest[k] in multiset(rows[1..]);
          assert rest[k] in rows[1..];
        }
      }
      [rows[0]] + rest
  }

  /** `sort_values(by="timestamp")`; rows with equal timestamps keep their
      order here, one of the orders pandas may produce. */
  function SortByTime(rows: seq<Record>): (r: seq<Record>)
    ensures SortedByTime(r)
    ensures multiset(r) == multiset(rows)
  {
    if rows == [] then []
    else
      assert rows == [rows[0]] + rows[1..];
      Insert(rows[0], SortByTime(rows[1..]))
  }

  lemma {:induction false} SortSorted(rows: seq<Record>)
    requires SortedByTime(rows)
    ensures SortByTime(rows) == rows
  {
    if rows != [] {
      SortSorted(rows[1..]);
    }
  }

  /** The cached rows plus the newly read rows beyond the cached maximum;
      yesterday's file only contributes when the day changed since then. */
  function Merged(cached: seq<Record>, today: seq<Record>, yesterday: seq<Record>, dayChanged: bool): (m: seq<Record>)
    requires |cached| > 0
    ensures |m| > 0
    ensures forall x :: x in m <==>
              x in cached || (x in today && x.timestamp > MaxTimestamp(cached)) ||
              (dayChanged && x in yesterday && x.timestamp > MaxTimestamp(cached))
  {
    var cachedMax := MaxTimestamp(cached);
    cached + NewerThan(today, cachedMax) + (if dayChanged then NewerThan(yesterday, cachedMax) else [])
  }

  /** The rows a window of `hours` hours ending at `latest` keeps are those
      strictly newer than this. */
  function Cutoff(latest: int, hours: int): int {
    latest - hours * 3600
  }

  /** The window after a refresh: the merge, trimmed to the rows strictly
      newer than the cutoff from its latest timestamp, sorted. */
  function RefreshedWindow(cached: seq<Record>, today: seq<Record>, yesterday: seq<Record>, dayChanged: bool, hours: int): (w: seq<Record>)
    requires |cached| > 0
    ensures SortedByTime(w)
    ensures var merged := Merged(cached, today, yesterday, dayChanged);
            multiset(w) == multiset(NewerThan(merged, Cutoff(MaxTimestamp(merged), hours)))
  {
    var merged := Merged(cached, today, yesterday, dayChanged);
    SortByTime(NewerThan(merged, Cutoff(MaxTimestamp(merged), hours)))
  }

  lemma WindowMembers(cached: seq<Record>, today: seq<Record>, yesterday: seq<Record>, dayChanged: bool, hours: int)
    requires |cached| > 0
    ensures var merged := Merged(cached, today, yesterday, dayChanged);
            forall x :: x in RefreshedWindow(cached, today, yesterday, dayChanged, hours) <==>
              x in merged && x.timestamp > Cutoff(MaxTimestamp(merged), hours)
  {
    var merged := Merged(cached, today, yesterday, dayChanged);
    var kept := NewerThan(merged, Cutoff(MaxTimestamp(merged), hours));
    var w := RefreshedWindow(cached, today, yesterday, dayChanged, hours);
    assert forall x :: x in w <==> x in multiset(w);
    assert forall x :: x in kept <==> x in multiset(kept);
  }

  /** Only cached rows and rows newer than the cached maximum are in the
      window, each newer than the cutoff; and every such row is kept. */
  lemma RefreshMembers(cached: seq<Record>, today: seq<Record>, yesterday: seq<Record>, dayChanged: bool, hours: int)
    requires |cached| > 0
    ensures var cachedMax := MaxTimestamp(cached);
            var latest := MaxTimestamp(Merged(cached, today, yesterday, dayChanged));
            forall x :: x in RefreshedWindow(cached, today, yesterday, dayChanged, hours) <==>
              (x in cached || (x in today && x.timestamp > cachedMax) ||
               (dayChanged && x in yesterday && x.timestamp > cachedMax)) &&
              x.timestamp > latest - hours * 3600
  {
    WindowMembers(cached, today, yesterday, dayChanged, hours);
  }

  /** With a positive window length the latest merged row survives the trim
      and ends the window; the window's maximum never moves backwards. */
  lemma RefreshEndsAtLatest(cached: seq<Record>, today: seq<Record>, yesterday: seq<Record>, dayChanged: bool, hours: int)
    requires |cached| > 0 && hours > 0
    ensures var w := RefreshedWindow(cached, today, yesterday, dayChanged, hours);
            var latest := MaxTimestamp(Merged(cached, today, yesterday, dayChanged));
            |w| > 0 && w[|w| - 1].timestamp == latest && MaxTimestamp(w) == latest &&
            latest >= MaxTimestamp(cached)
  {
    var merged := Merged(cached, today, yesterday, dayChanged);
    var latest := MaxTimestamp(merged);
    var w := RefreshedWindow(cached, today, yesterday, dayChanged, hours);
    WindowMembers(cached, today, yesterday, dayChanged, hours);
    var top :| top in merged && top.timestamp == latest;
    assert top in w;
    SortedEndsAtMax(w, latest);
    var c :| c in cached && c.timestamp == MaxTimestamp(cached);
    assert c in merged;
  }

  /** A sorted run whose largest timestamp is `m` ends with a row at `m`. */
  lemma SortedEndsAtMax(w: seq<Record>, m: int)
    requires SortedByTime(w)
    requires forall x :: x in w ==> x.timestamp <= m
    requires exists x :: x in w && x.timestamp == m
    ensures |w| > 0 && w[|w| - 1].timestamp == m && MaxTimestamp(w) == m
  {
    var top :| top in w && top.timestamp == m;
    var k :| 0 <= k < |w| && w[k] == top;
    assert w[|w| - 1] in w;
  }

  /** Refreshing again from the same files changes nothing: rows already
      merged are never merged twice. */
  lemma RefreshIdempotent(cached: seq<Record>, today: seq<Record>, yesterday: seq<Record>, dayChanged: bool, hours: int)
    requires |cached| > 0 && hours > 0
    ensures var w := RefreshedWindow(cached, today, yesterday, dayChanged, hours);
            |w| > 0 && RefreshedWindow(w, today, yesterday, dayChanged, hours) == w
  {
    var w := RefreshedWindow(cached, today, yesterday, dayChanged, hours);
    var latest := MaxTimestamp(Merged(cached, today, yesterday, dayChanged));
    RefreshEndsAtLatest(cached, today, yesterday, dayChanged, hours);
    NothingNewAfterRefresh(cached, today, yesterday, dayChanged, hours);
    WindowAfterCutoff(cached, today, yesterday, dayChanged, hours);
    SortSorted(w);
  }

  /** After a refresh the same files hold no row beyond the window. */
  lemma NothingNewAfterRefresh(cached: seq<Record>, today: seq<Record>, yesterday: seq<Record>, dayChanged: bool, hours: int)
    requires |cached| > 0 && hours > 0
    ensures var w := RefreshedWindow(cached, today, yesterday, dayChanged, hours);
            |w| > 0 && Merged(w, today, yesterday, dayChanged) == w
  {
    var merged := Merged(cached, today, yesterday, dayChanged);
    var latest := MaxTimestamp(merged);
    var cachedMax := MaxTimestamp(cached);
    RefreshEndsAtLatest(cached, today, yesterday, dayChanged, hours);
    forall x | x in today ensures x.timestamp <= latest {
      if x.timestamp > cachedMax {
        assert x in NewerThan(today, cachedMax);
        assert x in merged;
      }
    }
    if dayChanged {
      forall x | x in yesterday ensures x.timestamp <= latest {
        if x.timestamp > cachedMax {
          assert x in NewerThan(yesterday, cachedMax);
          assert x in merged;
        }
      }
    }
    NoRowsBeyond(RefreshedWindow(cached, today, yesterday, dayChanged, hours), today, yesterday, dayChanged);
  }

  lemma NoRowsBeyond(w: seq<Record>, today: seq<Record>, yesterday: seq<Record>, dayChanged: bool)
    requires |w| > 0
    requires forall x :: x in today ==> x.timestamp <= MaxTimestamp(w)
    requires dayChanged ==> forall x :: x in yesterday ==> x.timestamp <= MaxTimestamp(w)
    ensures Merged(w, today, yesterday, dayChanged) == w
  {
    NewerThanNone(today, MaxTimestamp(w));
    if dayChanged {
      NewerThanNone(yesterday, MaxTimestamp(w));
    }
  }

  /** Every row of a refreshed window is newer than its cutoff. */
  lemma WindowAfterCutoff(cached: seq<Record>, today: seq<Record>, yesterday: seq<Record>, dayChanged: bool, hours: int)
    requires |cached| > 0
    ensures var w := RefreshedWindow(cached, today, yesterday, dayChanged, hours);
            var latest := MaxTimestamp(Merged(cached, today, yesterday, dayChanged));
            NewerThan(w, Cutoff(latest, hours)) == w
  {
    var w := RefreshedWindow(cached, today, yesterday, dayChanged, hours);
    var latest := MaxTimestamp(Merged(cached, today, yesterday, dayChanged));
    WindowMembers(cached, today, yesterday, dayChanged, hours);
    NewerThanAll(w, Cutoff(latest, hours));
  }
}
