/** Which filtered latest-N queries can be trusted, judged from the catalogue and the query before any file is read. */
module LatestExact {
  import opened Wrappers
  import opened Bytes
  import opened Records
  import opened Bounds
  import opened LatestParts

  /** Parts of one series: bounds ascend without overlap, and every part has a file of its own. */
  ghost predicate Orderly(parts: seq<Part>) {
    forall i, j :: 0 <= i < j < |parts| ==> parts[i].endTs < parts[j].startTs && parts[i].path != parts[j].path
  }

  /** A row with this timestamp can pass, or fail, the filter. */
  ghost predicate CanBe(f: Filter, ts: i64, keep: bool) {
    exists r: Record :: r.ts == ts && f.Keeps(r) == keep
  }

  /** What the filter does with a row does not depend on its timestamp. */
  ghost predicate Selective(f: Filter) {
    forall ts: i64, keep: bool :: CanBe(f, ts, keep)
  }

  ghost function RowFor(f: Filter, ts: i64, keep: bool): (r: Record)
    requires Selective(f)
    ensures r.ts == ts && f.Keeps(r) == keep
  {
    assert CanBe(f, ts, keep);
    var r: Record :| r.ts == ts && f.Keeps(r) == keep;
    r
  }

  /** The same timestamps, with rows that all pass or all fail the filter. */
  ghost function Rewritten(rows: seq<Record>, f: Filter, keep: bool): (r: seq<Record>)
    requires Selective(f)
    ensures |r| == |rows|
    ensures forall i {:trigger r[i]} :: 0 <= i < |r| ==> r[i].ts == rows[i].ts && f.Keeps(r[i]) == keep
  {
    seq(|rows|, i requires 0 <= i < |rows| => RowFor(f, rows[i].ts, keep))
  }

  /** Rows that match in one file and nowhere else. */
  ghost function OnlyIn(tables: Tables, f: Filter, path: string): Tables
    requires Selective(f)
  {
    p => Rewritten(tables(p), f, p == path)
  }

  lemma {:induction false} RewrittenDescribes(part: Part, rows: seq<Record>, f: Filter, keep: bool)
    requires Selective(f) && Describes(part, rows)
    ensures Describes(part, Rewritten(rows, f, keep))
  {
  }

  lemma {:induction false} OnlyInCatalogued(tables: Tables, parts: seq<Part>, f: Filter, path: string)
    requires Selective(f) && Catalogued(tables, parts)
    ensures Catalogued(OnlyIn(tables, f, path), parts)
  {
    forall i | 0 <= i < |parts|
      ensures Describes(parts[i], OnlyIn(tables, f, path)(parts[i].path))
    {
      RewrittenDescribes(parts[i], tables(parts[i].path), f, parts[i].path == path);
    }
  }

  lemma KeptInRange(keeps: Record -> bool, rs: seq<Record>, start: int, end: int)
    requires rs != []
    ensures Kept(keeps, InRange(rs, start, end)) ==
              (if start <= rs[0].ts <= end && keeps(rs[0]) then [rs[0]] else []) +
              Kept(keeps, InRange(rs[1..], start, end))
  {
    var rest := InRange(rs[1..], start, end);
    if start <= rs[0].ts <= end {
      assert InRange(rs, start, end) == [rs[0]] + rest && ([rs[0]] + rest)[1..] == rest;
    } else {
      assert InRange(rs, start, end) == [] + rest == rest;
      assert [] + Kept(keeps, rest) == Kept(keeps, rest);
    }
  }

  lemma {:induction false} AllFail(keeps: Record -> bool, rs: seq<Record>, start: int, end: int)
    requires forall i :: 0 <= i < |rs| ==> !keeps(rs[i])
    ensures Kept(keeps, InRange(rs, start, end)) == []
  {
    if rs != [] {
      AllFail(keeps, rs[1..], start, end);
      KeptInRange(keeps, rs, start, end);
    }
  }

  lemma {:induction false} OnePasses(keeps: Record -> bool, rs: seq<Record>, start: int, end: int, k: nat)
    requires k < |rs| && keeps(rs[k]) && start <= rs[k].ts <= end
    ensures Kept(keeps, InRange(rs, start, end)) != []
  {
    KeptInRange(keeps, rs, start, end);
    if k > 0 {
      OnePasses(keeps, rs[1..], start, end, k - 1);
    }
  }

  /** The parts that do not own the file hold no matching row. */
  lemma {:induction false} NoneElsewhere(tables: Tables, parts: seq<Part>, q: Query, path: string)
    requires Selective(q.filter) && forall i :: 0 <= i < |parts| ==> parts[i].path != path
    ensures Rows(OnlyIn(tables, q.filter, path), parts, q) == []
  {
    var t := OnlyIn(tables, q.filter, path);
    forall i | 0 <= i < |parts|
      ensures Pieces(t, parts, q)[i] == []
    {
      var rows := t(parts[i].path);
      assert rows == Rewritten(tables(parts[i].path), q.filter, false);
      AllFail(q.filter.Mask(), rows, q.start, q.end);
    }
    ConcatEmpty(Pieces(t, parts, q));
  }

  /** A part that overlaps the query and ends within it shows a row, its last. */
  lemma {:induction false} LastRowShows(tables: Tables, part: Part, q: Query)
    requires Selective(q.filter) && Describes(part, tables(part.path))
    requires q.start <= part.endTs <= q.end
    ensures Piece(OnlyIn(tables, q.filter, part.path), part, q) != []
  {
    var rows := OnlyIn(tables, q.filter, part.path)(part.path);
    OnePasses(q.filter.Mask(), rows, q.start, q.end, |rows| - 1);
  }

  /** If anything is dropped, rows that match only in the last dropped part are lost. */
  lemma {:induction false} DroppedPartMatters(tables: Tables, parts: seq<Part>, q: Query, limit: nat)
    requires Selective(q.filter) && limit > 0
    requires Catalogued(tables, parts) && Orderly(parts)
    requires forall i :: 0 <= i < |parts| ==> Overlaps(parts[i], q)
    requires KeptFrom(parts, q, limit, |parts|) > 0
    ensures var path := parts[KeptFrom(parts, q, limit, |parts|) - 1].path;
            !PruningIsSafe(OnlyIn(tables, q.filter, path), parts, q, limit)
  {
    var from := KeptFrom(parts, q, limit, |parts|);
    SomethingIsKept(parts, q, limit);
    OnlyInDropped(tables, parts, q, from);
    UnsafeIf(OnlyIn(tables, q.filter, parts[from - 1].path), parts, q, limit, from);
  }

  lemma UnsafeIf(tables: Tables, parts: seq<Part>, q: Query, limit: nat, from: nat)
    requires limit > 0 && from == KeptFrom(parts, q, limit, |parts|)
    requires Rows(tables, parts[from..], q) == [] && Rows(tables, parts[..from], q) != []
    ensures !PruningIsSafe(tables, parts, q, limit)
  {
  }

  lemma {:induction false} OnlyInDropped(tables: Tables, parts: seq<Part>, q: Query, from: nat)
    requires Selective(q.filter) && Catalogued(tables, parts) && Orderly(parts)
    requires 0 < from < |parts| && Overlaps(parts[from - 1], q) && Overlaps(parts[from], q)
    ensures Rows(OnlyIn(tables, q.filter, parts[from - 1].path), parts[from..], q) == []
    ensures Rows(OnlyIn(tables, q.filter, parts[from - 1].path), parts[..from], q) != []
  {
    var kept := parts[from..];
    assert forall i :: 0 <= i < |kept| ==> kept[i] == parts[from + i];
    NoneElsewhere(tables, kept, q, parts[from - 1].path);
    DroppedRowShows(tables, parts, q, from);
  }

  lemma {:induction false} DroppedRowShows(tables: Tables, parts: seq<Part>, q: Query, from: nat)
    requires Selective(q.filter) && Catalogued(tables, parts) && Orderly(parts)
    requires 0 < from < |parts| && Overlaps(parts[from - 1], q) && Overlaps(parts[from], q)
    ensures Rows(OnlyIn(tables, q.filter, parts[from - 1].path), parts[..from], q) != []
  {
    var dropped := parts[from - 1];
    var t := OnlyIn(tables, q.filter, dropped.path);
    LastRowShows(tables, dropped, q);
    assert parts[..from][..from - 1] == parts[..from - 1] && parts[..from][from - 1..] == [dropped];
    RowsSplit(t, parts[..from], q, from - 1);
    OnePartRows(t, dropped, q);
  }

  lemma {:induction false} SomethingIsKept(parts: seq<Part>, q: Query, limit: nat)
    requires parts != []
    ensures KeptFrom(parts, q, limit, |parts|) < |parts|
  {
  }

  /** The walk drops nothing exactly when the covered parts behind the first one stay below the limit. */
  lemma {:induction false} NothingDropped(parts: seq<Part>, q: Query, limit: nat)
    requires parts != []
    ensures KeptFrom(parts, q, limit, |parts|) == 0 <==> |parts| == 1 || CoveredFrom(parts, q, 1) < limit
  {
    var from := KeptFrom(parts, q, limit, |parts|);
    SomethingIsKept(parts, q, limit);
    if from > 0 {
      CoveredGrows(parts, q, 1, from);
    }
  }

  lemma {:induction false} CoveredGrows(parts: seq<Part>, q: Query, i: nat, j: nat)
    requires i <= j <= |parts|
    ensures CoveredFrom(parts, q, i) >= CoveredFrom(parts, q, j)
    decreases j - i
  {
    if i < j {
      CoveredGrows(parts, q, i + 1, j);
    }
  }

  /** For overlapping parts in order: pruning is safe for all files exactly when nothing is dropped. */
  lemma {:induction false} SafeForAllFiles(tables: Tables, parts: seq<Part>, q: Query, limit: nat)
    requires Selective(q.filter) && limit > 0
    requires Catalogued(tables, parts) && Orderly(parts)
    requires forall i :: 0 <= i < |parts| ==> Overlaps(parts[i], q)
    ensures (forall t: Tables :: Catalogued(t, parts) ==> PruningIsSafe(t, parts, q, limit)) <==>
            KeptFrom(parts, q, limit, |parts|) == 0
  {
    var from := KeptFrom(parts, q, limit, |parts|);
    if from == 0 {
      forall t: Tables
        ensures PruningIsSafe(t, parts, q, limit)
      {
        SafeIfNothingDropped(t, parts, q, limit);
      }
    } else {
      var t := OnlyIn(tables, q.filter, parts[from - 1].path);
      DroppedPartMatters(tables, parts, q, limit);
      OnlyInCatalogued(tables, parts, q.filter, parts[from - 1].path);
      assert Catalogued(t, parts) && !PruningIsSafe(t, parts, q, limit);
    }
  }

  lemma SafeIfNothingDropped(tables: Tables, parts: seq<Part>, q: Query, limit: nat)
    requires KeptFrom(parts, q, limit, |parts|) == 0
    ensures PruningIsSafe(tables, parts, q, limit)
  {
    assert parts[..0] == [];
  }

  lemma {:induction false} SelectedFrom(parts: seq<Part>, q: Query)
    requires Orderly(parts)
    ensures Orderly(Selected(parts, q))
    ensures forall p :: p in Selected(parts, q) ==> p in parts && Overlaps(p, q)
  {
    if parts != [] {
      SelectedFrom(parts[1..], q);
      var rest := Selected(parts[1..], q);
      forall i | 0 <= i < |rest|
        ensures parts[0].endTs < rest[i].startTs && parts[0].path != rest[i].path
      {
        assert rest[i] in parts[1..];
      }
    }
  }

  /** The overlapping, fully covered parts behind the first overlapping one stay below the limit. */
  ghost predicate Trustworthy(parts: seq<Part>, q: Query, limit: nat) {
    var selected := Selected(parts, q);
    |selected| <= 1 || CoveredFrom(selected, q, 1) < limit
  }

  /**
   * A filtered latest query answers like the oracle for every possible content of the files
   * exactly when the catalogue is trustworthy for it.
   */
  lemma {:induction false} FilteredLatestExactly(tables: Tables, parts: seq<Part>, q: Query, limit: nat)
    requires Selective(q.filter) && !q.filter.Conflicting() && q.limit == Some(limit) && limit > 0
    requires Catalogued(tables, parts) && Orderly(parts)
    ensures (forall t: Tables :: Catalogued(t, parts) ==> Answer(t, parts, q) == Oracle(t, parts, q)) <==>
            Trustworthy(parts, q, limit)
  {
    var selected := Selected(parts, q);
    SelectedFrom(parts, q);
    SelectedCatalogued(tables, parts, q);
    if selected != [] {
      NothingDropped(selected, q, limit);
    }
    if KeptFrom(selected, q, limit, |selected|) == 0 {
      forall t: Tables | Catalogued(t, parts)
        ensures Answer(t, parts, q) == Oracle(t, parts, q)
      {
        SafeIfNothingDropped(t, selected, q, limit);
        AnswerAgainstOracle(t, parts, q);
      }
    } else {
      var t := WrongAnswer(tables, parts, q, limit);
    }
  }

  /** Files for which the answer is not the oracle's. */
  lemma {:induction false} WrongAnswer(tables: Tables, parts: seq<Part>, q: Query, limit: nat) returns (t: Tables)
    requires Selective(q.filter) && !q.filter.Conflicting() && q.limit == Some(limit) && limit > 0
    requires Catalogued(tables, parts) && Catalogued(tables, Selected(parts, q)) && Orderly(Selected(parts, q))
    requires forall p :: p in Selected(parts, q) ==> Overlaps(p, q)
    requires KeptFrom(Selected(parts, q), q, limit, |Selected(parts, q)|) > 0
    ensures Catalogued(t, parts) && Answer(t, parts, q) != Oracle(t, parts, q)
  {
    var selected := Selected(parts, q);
    var path := selected[KeptFrom(selected, q, limit, |selected|) - 1].path;
    t := OnlyIn(tables, q.filter, path);
    assert forall i :: 0 <= i < |selected| ==> selected[i] in selected;
    DroppedPartMatters(tables, selected, q, limit);
    OnlyInCatalogued(tables, parts, q.filter, path);
    AnswerAgainstOracle(t, parts, q);
  }

  /** Asking for one close price, say, selects in this sense. */
  lemma {:induction false} CloseIsSelective(price: i64)
    ensures Selective(Filter((r: Record) => if r.Kline? then r.close else r.price, Some(price), None))
  {
    var f := Filter((r: Record) => if r.Kline? then r.close else r.price, Some(price), None);
    forall ts: i64, keep: bool
      ensures CanBe(f, ts, keep)
    {
      var r := Kline(ts, 0, 0, 0, if keep then price else if price == 0 then 1 else 0, 0);
      assert r.ts == ts && f.Keeps(r) == keep;
    }
  }
}
