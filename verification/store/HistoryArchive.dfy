/** The minute archive: append to a partition, compact a day into one file, query both
    trees. Compaction moves rows; it must not make or lose any. */
module HistoryArchive {
  import opened Basics
  import opened Json

  datatype Point = Point(tsCode: string, dpId: string, value: Val, status: string,
                         confidence: Option<real>, source: string, updatedAt: int)

  /** `partition_minute=<date>_<hhmm>.parquet`. */
  datatype Minute = Minute(date: string, hhmm: string)

  /** The two directory trees, as file contents. */
  datatype Disk = Disk(minute: map<Minute, seq<Point>>, daily: map<string, seq<Point>>)

  // ---- rows in a tree -----------------------------------------------------------

  /** All rows of all files, with multiplicity. */
  ghost function RowsOf<K(!new)>(files: map<K, seq<Point>>): multiset<Point>
    decreases |files|
  {
    if files == map[] then multiset{}
    else
      var k :| k in files;
      assert |files - {k}| < |files| by { SmallerMap(files, k); }
      multiset(files[k]) + RowsOf(files - {k})
  }

  lemma SmallerMap<K, V>(m: map<K, V>, k: K)
    requires k in m
    ensures |m - {k}| == |m| - 1
  {
    assert (m - {k}).Keys == m.Keys - {k};
    assert |m.Keys - {k}| == |m.Keys| - 1;
    assert |m - {k}| == |(m - {k}).Keys| && |m| == |m.Keys|;
  }

  /** Any file can be set aside first. */
  lemma {:induction false} RowsWithout<K(!new)>(files: map<K, seq<Point>>, k: K)
    requires k in files
    ensures RowsOf(files) == multiset(files[k]) + RowsOf(files - {k})
    decreases |files|
  {
    var c :| c in files && RowsOf(files) == multiset(files[c]) + RowsOf(files - {c});
    if c != k {
      SmallerMap(files, c);
      SmallerMap(files, k);
      RowsWithout(files - {c}, k);
      RowsWithout(files - {k}, c);
      assert files - {c} - {k} == files - {k} - {c};
    }
  }

  lemma RowsWritten<K(!new)>(files: map<K, seq<Point>>, k: K, rows: seq<Point>)
    ensures RowsOf(files[k := rows]) == multiset(rows) + RowsOf(files - {k})
  {
    RowsWithout(files[k := rows], k);
    assert files[k := rows] - {k} == files - {k};
  }

  ghost function Rows(d: Disk): multiset<Point> { RowsOf(d.minute) + RowsOf(d.daily) }

  /** The minute files of one date. */
  function Sources(d: Disk, date: string): map<Minute, seq<Point>> {
    map m | m in d.minute && m.date == date :: d.minute[m]
  }

  lemma {:induction false} RowsSplit<K(!new)>(files: map<K, seq<Point>>, part: map<K, seq<Point>>)
    requires part.Keys <= files.Keys && forall k :: k in part ==> part[k] == files[k]
    ensures RowsOf(files) == RowsOf(part) + RowsOf(files - part.Keys)
    decreases |part|
  {
    hide RowsOf;
    NoFiles<K>();
    if part == map[] {
      assert files - part.Keys == files;
    } else {
      var k :| k in part;
      SmallerMap(part, k);
      RowsWithout(files, k);
      RowsWithout(part, k);
      RowsSplit(files - {k}, part - {k});
      assert (files - {k}) - (part - {k}).Keys == files - part.Keys;
    }
  }

  // ---- the writers -----------------------------------------------------------------

  function Appended(d: Disk, m: Minute, batch: seq<Point>): Disk {
    d.(minute := d.minute[m := (if m in d.minute then d.minute[m] else []) + batch])
  }

  /** `after` is `d` with `date` compacted: one daily file holding exactly the sources' rows, in some
      order, replacing any daily file already there. */
  ghost predicate Compacted(d: Disk, date: string, deleteSource: bool, after: Disk) {
    if Sources(d, date) == map[] then after == d
    else
      && date in after.daily
      && multiset(after.daily[date]) == RowsOf(Sources(d, date))
      && after == Disk(if deleteSource then d.minute - Sources(d, date).Keys else d.minute,
                       d.daily[date := after.daily[date]])
  }

  class Archive {
    var minute: map<Minute, seq<Point>>
    var daily: map<string, seq<Point>>

    function Contents(): Disk
      reads this
    {
      Disk(minute, daily)
    }

    constructor ()
      ensures Contents() == Disk(map[], map[])
    {
      minute, daily := map[], map[];
    }

    /** `append_minute_parquet`; an empty batch is an error and writes nothing. */
    method AppendMinute(m: Minute, batch: seq<Point>) returns (ok: bool)
      modifies this
      ensures ok == (batch != [])
      ensures Contents() == if ok then Appended(old(Contents()), m, batch) else old(Contents())
    {
      if batch == [] {
        return false;
      }
      var table := batch;
      if m in minute {
        table := minute[m] + table;
      } else {
        assert [] + batch == batch;
      }
      minute := minute[m := table];
      ok := true;
    }

    /** `compact_date`: the day's partitions go into the daily file, then are unlinked. */
    method CompactDate(date: string, deleteSource: bool) returns (written: bool)
      modifies this
      ensures Compacted(old(Contents()), date, deleteSource, Contents())
      ensures written == (Sources(old(Contents()), date) != map[])
    {
      hide RowsOf;
      var sources := Sources(Contents(), date);
      if sources == map[] {
        return false;
      }
      var merged := ReadAll(sources);
      daily := daily[date := merged];
      if deleteSource {
        minute := minute - sources.Keys;
      }
      written := true;
    }
  }

  /** Reading files one after another, in some order. */
  method ReadAll<K(!new, ==)>(files: map<K, seq<Point>>) returns (merged: seq<Point>)
    ensures multiset(merged) == RowsOf(files)
  {
    hide RowsOf;
    NoFiles<K>();
    merged := [];
    var left := files;
    while left != map[]
      invariant multiset(merged) + RowsOf(left) == RowsOf(files)
      decreases |left|
    {
      var k :| k in left;
      RowsWithout(left, k);
      SmallerMap(left, k);
      merged := merged + left[k];
      left := left - {k};
    }
  }

  lemma NoFiles<K(!new)>()
    ensures RowsOf<K>(map[]) == multiset{}
  {
  }

  // ---- conservation ------------------------------------------------------------------

  /** Appending adds exactly the batch. */
  lemma AppendAdds(d: Disk, m: Minute, batch: seq<Point>)
    ensures Rows(Appended(d, m, batch)) == Rows(d) + multiset(batch)
  {
    var before := if m in d.minute then d.minute[m] else [];
    RowsWritten(d.minute, m, before + batch);
    if m in d.minute {
      RowsWithout(d.minute, m);
    } else {
      assert d.minute - {m} == d.minute;
    }
    assert multiset(before + batch) == multiset(before) + multiset(batch);
  }

  /** The rows of the listed minute files, one file after another. */
  function Gathered(d: Disk, files: seq<Minute>): seq<Point>
    requires forall m :: m in files ==> m in d.minute
  {
    if files == [] then []
    else
      assert forall m :: m in files[..|files| - 1] ==> m in files;
      Gathered(d, files[..|files| - 1]) + d.minute[files[|files| - 1]]
  }

  /** `files` are all minute files of the date, once each. */
  ghost predicate FilesOf(d: Disk, date: string, files: seq<Minute>) {
    Distinct(files) && forall m :: m in files <==> m in d.minute && m.date == date
  }

  lemma {:induction false} GatheredRows(d: Disk, files: seq<Minute>, part: map<Minute, seq<Point>>)
    requires Distinct(files) && (forall m :: m in files <==> m in part)
    requires forall m :: m in part ==> m in d.minute && part[m] == d.minute[m]
    ensures multiset(Gathered(d, files)) == RowsOf(part)
    decreases |files|
  {
    hide RowsOf;
    if files == [] {
      assert part == map[] by {
        forall m ensures m !in part {
          assert m in part ==> m in files;
        }
      }
      NoFiles<Minute>();
    } else {
      var front, last := files[..|files| - 1], files[|files| - 1];
      assert files == front + [last];
      LastOnce(files);
      RowsWithout(part, last);
      OthersGathered(front, last, part);
      GatheredRows(d, front, part - {last});
    }
  }

  lemma OthersGathered(front: seq<Minute>, last: Minute, part: map<Minute, seq<Point>>)
    requires Distinct(front + [last]) && forall m :: m in front + [last] <==> m in part
    ensures forall m :: m in front <==> m in part - {last}
  {
    LastOnce(front + [last]);
    assert (front + [last])[..|front|] == front;
    assert forall m :: m in front + [last] <==> m in front || m == last;
  }

  lemma LastOnce(files: seq<Minute>)
    requires Distinct(files) && files != []
    ensures Distinct(files[..|files| - 1]) && files[|files| - 1] !in files[..|files| - 1]
  {
  }

  /** A compaction, date by date. Without a minute file of the date nothing happens. Otherwise the date's daily
      file holds exactly the rows of its minute files, those files are gone or kept as asked, and every other
      minute and daily file is there with the rows it had. */
  lemma CompactionByDate(d: Disk, date: string, deleteSource: bool, after: Disk, files: seq<Minute>)
    requires Compacted(d, date, deleteSource, after) && FilesOf(d, date, files)
    ensures files == [] ==> after == d
    ensures files != [] ==> date in after.daily && multiset(after.daily[date]) == multiset(Gathered(d, files))
    ensures forall m :: m in after.minute <==> m in d.minute && !(deleteSource && m.date == date)
    ensures forall m :: m in after.minute ==> after.minute[m] == d.minute[m]
    ensures forall other :: other != date ==> (other in after.daily <==> other in d.daily) && (other in d.daily ==> after.daily[other] == d.daily[other])
  {
    hide RowsOf;
    GatheredRows(d, files, Sources(d, date));
    HeadIsMember(files);
    if files == [] {
      assert Sources(d, date) == map[] by {
        forall m ensures m !in Sources(d, date) {
          assert m in Sources(d, date) ==> m in files;
        }
      }
    } else {
      assert files[0] in Sources(d, date);
    }
  }

  function DailyFile(d: Disk, date: string): seq<Point> {
    if date in d.daily then d.daily[date] else []
  }

  /** What a source-deleting compaction does to the archive: it loses exactly the daily file it replaces. */
  lemma CompactionLoss(d: Disk, date: string, after: Disk)
    requires Compacted(d, date, true, after)
    ensures Rows(after) + (if Sources(d, date) == map[] then multiset{} else multiset(DailyFile(d, date))) == Rows(d)
  {
    hide RowsOf;
    var sources := Sources(d, date);
    if sources != map[] {
      RowsSplit(d.minute, sources);
      RowsWritten(d.daily, date, after.daily[date]);
      if date in d.daily {
        RowsWithout(d.daily, date);
      } else {
        assert d.daily - {date} == d.daily;
      }
    }
  }

  /** So it conserves the archive if and only if there is nothing to compact or no rows in the daily
      file it overwrites. */
  lemma CompactionConserves(d: Disk, date: string, after: Disk)
    requires Compacted(d, date, true, after)
    ensures Rows(after) == Rows(d) <==> Sources(d, date) == map[] || DailyFile(d, date) == []
  {
    CompactionLoss(d, date, after);
    if Sources(d, date) != map[] && DailyFile(d, date) != [] {
      var p := DailyFile(d, date)[0];
      assert p in multiset(DailyFile(d, date));
      assert Rows(d)[p] > Rows(after)[p];
    }
  }

  /** Keeping the sources counts the day twice: both trees are read back. */
  lemma KeepingSourcesDoubles(d: Disk, date: string, after: Disk)
    requires Compacted(d, date, false, after) && DailyFile(d, date) == []
    ensures Rows(after) == Rows(d) + RowsOf(Sources(d, date))
  {
    if Sources(d, date) != map[] {
      RowsWritten(d.daily, date, after.daily[date]);
      if date in d.daily {
        RowsWithout(d.daily, date);
      } else {
        assert d.daily - {date} == d.daily;
      }
    }
  }

  // ---- whole runs ----------------------------------------------------------------------

  datatype Event = Append(minute: Minute, batch: seq<Point>) | Compact(date: string)

  ghost predicate Step(d: Disk, e: Event, after: Disk) {
    match e
    case Append(m, batch) => after == if batch == [] then d else Appended(d, m, batch)
    case Compact(date) => Compacted(d, date, true, after)
  }

  /** `disks[i]` is the archive before event `i`. */
  ghost predicate IsRun(disks: seq<Disk>, events: seq<Event>) {
    |disks| == |events| + 1 && forall i :: 0 <= i < |events| ==> Step(disks[i], events[i], disks[i + 1])
  }

  function AppendedRows(events: seq<Event>): multiset<Point> {
    if events == [] then multiset{}
    else
      AppendedRows(events[..|events| - 1]) +
      (match events[|events| - 1] case Append(_, batch) => multiset(batch) case Compact(_) => multiset{})
  }

  /** No date is compacted twice, and none that already has a daily file. */
  ghost predicate CompactedOnce(d: Disk, events: seq<Event>) {
    && (forall i, j :: 0 <= i < j < |events| && events[i].Compact? && events[j].Compact? ==> events[i].date != events[j].date)
    && forall i :: 0 <= i < |events| && events[i].Compact? ==> events[i].date !in d.daily
  }

  lemma {:induction false} DailyFilesAre(disks: seq<Disk>, events: seq<Event>)
    requires IsRun(disks, events)
    ensures forall date :: date in disks[|events|].daily ==>
              date in disks[0].daily || exists i :: 0 <= i < |events| && events[i] == Compact(date)
    decreases |events|
  {
    if events != [] {
      var n := |events| - 1;
      assert IsRun(disks[..n + 1], events[..n]);
      DailyFilesAre(disks[..n + 1], events[..n]);
      assert Step(disks[n], events[n], disks[n + 1]);
      forall date | date in disks[n + 1].daily
        ensures date in disks[0].daily || exists i :: 0 <= i < |events| && events[i] == Compact(date)
      {
        if date in disks[n].daily && date !in disks[0].daily {
          var i :| 0 <= i < n && events[..n][i] == Compact(date);
          assert events[i] == Compact(date);
        } else if date !in disks[n].daily {
          assert events[n] == Compact(date);
        }
      }
    }
  }

  /** History conservation: through any run in which each date is compacted at most once, the archive
      grows by exactly the appended rows. */
  lemma {:induction false} HistoryConserved(disks: seq<Disk>, events: seq<Event>)
    requires IsRun(disks, events) && CompactedOnce(disks[0], events)
    ensures Rows(disks[|events|]) == Rows(disks[0]) + AppendedRows(events)
    decreases |events|
  {
    hide Rows, Compacted, Appended;
    if events != [] {
      var n := |events| - 1;
      var front := events[..n];
      assert IsRun(disks[..n + 1], front);
      HistoryConserved(disks[..n + 1], front);
      assert Step(disks[n], events[n], disks[n + 1]);
      if events[n].Compact? {
        NotYetCompacted(disks, events, n);
        CompactionConserves(disks[n], events[n].date, disks[n + 1]);
      } else {
        AppendAdds(disks[n], events[n].minute, events[n].batch);
      }
    }
  }

  lemma NotYetCompacted(disks: seq<Disk>, events: seq<Event>, n: nat)
    requires IsRun(disks, events) && CompactedOnce(disks[0], events)
    requires n < |events| && events[n].Compact?
    ensures events[n].date !in disks[n].daily
  {
    hide Step;
    var front := events[..n];
    assert IsRun(disks[..n + 1], front);
    DailyFilesAre(disks[..n + 1], front);
    forall i | 0 <= i < n ensures front[i] != Compact(events[n].date) {
    }
  }

  /** A run that loses rows: the second compaction of a date overwrites what the first one had saved. */
  lemma SecondCompactionLoses(disks: seq<Disk>, m: Minute, first: seq<Point>, second: seq<Point>)
    requires first != [] && second != []
    requires disks != [] && disks[0] == Disk(map[], map[])
    requires IsRun(disks, [Append(m, first), Compact(m.date), Append(m, second), Compact(m.date)])
    ensures Rows(disks[4]) == multiset(second) != AppendedRows([Append(m, first), Compact(m.date), Append(m, second), Compact(m.date)])
  {
    hide RowsOf, Rows, Compacted;
    var events := [Append(m, first), Compact(m.date), Append(m, second), Compact(m.date)];
    assert Step(disks[0], events[0], disks[1]) && Step(disks[1], events[1], disks[2]);
    assert Step(disks[2], events[2], disks[3]) && Step(disks[3], events[3], disks[4]);
    EmptyRows();
    AppendAdds(disks[0], m, first);
    OneMinute(disks[0], m, first);
    FirstCompaction(disks[1], disks[2], m, first);
    AppendAdds(disks[2], m, second);
    CompactionLoss(disks[3], m.date, disks[4]);
    assert m in Sources(disks[3], m.date);
    assert DailyFile(disks[3], m.date) == DailyFile(disks[2], m.date);
    assert Rows(disks[4]) + multiset(first) == multiset(first) + multiset(second);
    SameRest(Rows(disks[4]), multiset(first), multiset(second));
    FourEvents(m, first, second);
  }

  lemma SameRest(a: multiset<Point>, b: multiset<Point>, c: multiset<Point>)
    requires a + b == b + c
    ensures a == c
  {
    forall p ensures a[p] == c[p] {
      assert (a + b)[p] == (b + c)[p];
    }
  }

  lemma EmptyRows()
    ensures Rows(Disk(map[], map[])) == multiset{}
  {
  }

  lemma OneMinute(d: Disk, m: Minute, batch: seq<Point>)
    requires d == Disk(map[], map[])
    ensures Appended(d, m, batch) == Disk(map[m := batch], map[])
  {
    assert [] + batch == batch;
  }

  lemma FirstCompaction(d: Disk, after: Disk, m: Minute, batch: seq<Point>)
    requires d == Disk(map[m := batch], map[]) && Compacted(d, m.date, true, after)
    ensures after.minute == map[] && multiset(DailyFile(after, m.date)) == multiset(batch)
    ensures Rows(after) == multiset(batch)
  {
    var sources := Sources(d, m.date);
    assert sources == map[m := batch];
    RowsWithout(sources, m);
    assert sources - {m} == map[];
    NoFiles<Minute>();
    EmptyRows();
    AppendAdds(Disk(map[], map[]), m, batch);
    CompactionConserves(d, m.date, after);
    hide RowsOf, Rows;
  }

  lemma FourEvents(m: Minute, first: seq<Point>, second: seq<Point>)
    requires first != []
    ensures multiset(second) != AppendedRows([Append(m, first), Compact(m.date), Append(m, second), Compact(m.date)])
  {
    var a, b, c, d := Append(m, first), Compact(m.date), Append(m, second), Compact(m.date);
    assert [a, b, c, d][..3] == [a, b, c] && [a, b, c][..2] == [a, b] && [a, b][..1] == [a] && [a][..0] == [];
    assert AppendedRows([]) == multiset{};
    assert AppendedRows([a]) == multiset(first);
    assert AppendedRows([a, b]) == multiset(first);
    assert AppendedRows([a, b, c]) == multiset(first) + multiset(second);
    assert AppendedRows([a, b, c, d]) == multiset(first) + multiset(second);
    assert (multiset(first) + multiset(second))[first[0]] > multiset(second)[first[0]];
  }

  // ---- queries ---------------------------------------------------------------------------

  datatype Query = Query(tsCode: string, dpId: string, since: int, until: int)

  predicate Matches(q: Query, p: Point) {
    p.tsCode == q.tsCode && p.dpId == q.dpId && q.since <= p.updatedAt <= q.until
  }

  /** `result` answers `q`: ordered by time, and, below the limit, every matching archived row as often
      as it is archived and nothing else. */
  ghost predicate Answers(d: Disk, q: Query, limit: nat, result: seq<Point>) {
    && |result| <= limit
    && (forall i, j :: 0 <= i < j < |result| ==> result[i].updatedAt <= result[j].updatedAt)
    && (forall p :: p in result ==> Matches(q, p) && multiset(result)[p] <= Rows(d)[p])
    && (|result| < limit ==> forall p :: Matches(q, p) ==> multiset(result)[p] == Rows(d)[p])
  }

  /** Compacting a day for the first time leaves every below-limit answer the same, as a multiset. */
  lemma CompactionIsInvisible(d: Disk, date: string, after: Disk, q: Query, limit: nat, r: seq<Point>, r': seq<Point>)
    requires Compacted(d, date, true, after) && DailyFile(d, date) == []
    requires Answers(d, q, limit, r) && Answers(after, q, limit, r') && |r| < limit && |r'| < limit
    ensures multiset(r) == multiset(r')
  {
    CompactionConserves(d, date, after);
    forall p ensures multiset(r)[p] == multiset(r')[p] {
      if !Matches(q, p) {
        assert p !in r && p !in r';
      }
    }
  }

  /** Two batches for the same minute are one batch, in the order they came; other minutes and the daily files stay. */
  lemma AppendsCompose(d: Disk, m: Minute, a: seq<Point>, b: seq<Point>)
    ensures Appended(Appended(d, m, a), m, b) == Appended(d, m, a + b)
    ensures Appended(d, m, a).daily == d.daily
    ensures forall n :: n != m ==> (n in Appended(d, m, a).minute <==> n in d.minute) && (n in d.minute ==> Appended(d, m, a).minute[n] == d.minute[n])
  {
    var rows := if m in d.minute then d.minute[m] else [];
    assert rows + a + b == rows + (a + b);
    assert d.minute[m := rows + a][m := rows + a + b] == d.minute[m := rows + a + b];
  }

  /** What is appended shows: a below-limit answer afterwards holds, besides what it held before, each appended row
      of that stock and that slot whose time lies in the range, ends included, as often as it was appended, and
      none of the others. */
  lemma AppendedShows(d: Disk, m: Minute, batch: seq<Point>, q: Query, limit: nat, r: seq<Point>, r': seq<Point>, p: Point)
    requires Answers(d, q, limit, r) && Answers(Appended(d, m, batch), q, limit, r') && |r| < limit && |r'| < limit
    ensures multiset(r')[p] ==
            if p.tsCode == q.tsCode && p.dpId == q.dpId && q.since <= p.updatedAt && p.updatedAt <= q.until
            then multiset(r)[p] + multiset(batch)[p] else 0
  {
    AppendAdds(d, m, batch);
    hide Rows, Appended;
    if !Matches(q, p) {
      assert p !in r';
    }
  }
}
