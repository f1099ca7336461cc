/** Latest-N over monthly part files: pruning from the back, against "filter everything, keep the last N". */
module LatestParts {
  import opened Wrappers
  import opened Bytes
  import opened Records
  import opened Bounds
  import FileCache

  datatype Part = Part(path: string, startTs: i64, endTs: i64, rows: nat)

  /** Conditions on the `value` column of the table. */
  datatype Filter = Filter(value: Record -> i64, equals: Option<i64>, bounds: Option<(i64, i64)>) {
    /** The backend looks at the bounds only if no exact value is asked for. */
    predicate Keeps(r: Record) {
      if equals.Some? then value(r) == equals.value
      else bounds.Some? ==> bounds.value.0 <= value(r) <= bounds.value.1
    }

    /** The oracle applies both conditions. */
    predicate OracleKeeps(r: Record) {
      && (equals.Some? ==> value(r) == equals.value)
      && (bounds.Some? ==> bounds.value.0 <= value(r) <= bounds.value.1)
    }

    function Mask(): (m: Record -> bool)
      ensures forall r :: m(r) == Keeps(r)
    {
      r => Keeps(r)
    }

    function OracleMask(): (m: Record -> bool)
      ensures forall r :: m(r) == OracleKeeps(r)
    {
      r => OracleKeeps(r)
    }

    predicate KeepsAll() {
      equals.None? && bounds.None?
    }

    /** An exact value outside the bounds contradicts them. */
    predicate Conflicting() {
      equals.Some? && bounds.Some? && !(bounds.value.0 <= equals.value <= bounds.value.1)
    }
  }

  datatype Query = Query(start: i64, end: i64, filter: Filter, limit: Option<nat>)

  /** The table stored under each path. */
  type Tables = string -> seq<Record>

  /** The manifest's numbers describe the file. */
  ghost predicate Describes(part: Part, rows: seq<Record>) {
    && |rows| == part.rows && rows != [] && Strict(rows) && NonDecreasing(rows)
    && rows[0].ts == part.startTs && rows[|rows| - 1].ts == part.endTs
  }

  ghost predicate Catalogued(tables: Tables, parts: seq<Part>) {
    forall i :: 0 <= i < |parts| ==> Describes(parts[i], tables(parts[i].path))
  }

  predicate Overlaps(p: Part, q: Query) {
    p.endTs >= q.start && p.startTs <= q.end
  }

  predicate Covered(p: Part, q: Query) {
    q.start <= p.startTs && q.end >= p.endTs
  }

  function Selected(parts: seq<Part>, q: Query): seq<Part> {
    if parts == [] then [] else (if Overlaps(parts[0], q) then [parts[0]] else []) + Selected(parts[1..], q)
  }

  lemma {:induction false} SelectedCatalogued(tables: Tables, parts: seq<Part>, q: Query)
    requires Catalogued(tables, parts)
    ensures Catalogued(tables, Selected(parts, q))
  {
    if parts != [] {
      SelectedCatalogued(tables, parts[1..], q);
    }
  }

  // The oracle

  function Kept(keeps: Record -> bool, rows: seq<Record>): (r: seq<Record>)
    ensures |r| <= |rows|
  {
    if rows == [] then [] else (if keeps(rows[0]) then [rows[0]] else []) + Kept(keeps, rows[1..])
  }

  lemma {:induction false} KeptAll(keeps: Record -> bool, rows: seq<Record>)
    requires forall i :: 0 <= i < |rows| ==> keeps(rows[i])
    ensures Kept(keeps, rows) == rows
  {
    if rows != [] {
      KeptAll(keeps, rows[1..]);
    }
  }

  lemma {:induction false} KeptSame(f: Record -> bool, g: Record -> bool, rows: seq<Record>)
    requires forall r :: f(r) == g(r)
    ensures Kept(f, rows) == Kept(g, rows)
  {
    if rows != [] {
      KeptSame(f, g, rows[1..]);
    }
  }

  /** The rows of one part that the query asks for. */
  ghost function Piece(tables: Tables, p: Part, q: Query): seq<Record> {
    Kept(q.filter.Mask(), InRange(tables(p.path), q.start, q.end))
  }

  ghost function Pieces(tables: Tables, parts: seq<Part>, q: Query): (pieces: seq<seq<Record>>)
    ensures |pieces| == |parts|
    ensures forall i {:trigger pieces[i]} :: 0 <= i < |parts| ==> pieces[i] == Piece(tables, parts[i], q)
  {
    seq(|parts|, i requires 0 <= i < |parts| => Piece(tables, parts[i], q))
  }

  /** All rows of these parts that the query asks for, in order. */
  ghost function Rows(tables: Tables, parts: seq<Part>, q: Query): seq<Record> {
    Concat(Pieces(tables, parts, q))
  }

  function LastN<T>(s: seq<T>, n: nat): seq<T> {
    if |s| <= n then s else s[|s| - n..]
  }

  /** Python's `rows[-n:]`, which keeps everything for `n == 0`. */
  function Tail<T>(s: seq<T>, n: nat): seq<T> {
    if n == 0 then s else LastN(s, n)
  }

  ghost function OraclePieces(tables: Tables, parts: seq<Part>, q: Query): (pieces: seq<seq<Record>>)
    ensures |pieces| == |parts|
  {
    seq(|parts|, i requires 0 <= i < |parts| =>
          Kept(q.filter.OracleMask(), InRange(tables(parts[i].path), q.start, q.end)))
  }

  /** Filter every overlapping part, concatenate, keep the last rows. */
  ghost function Oracle(tables: Tables, parts: seq<Part>, q: Query): seq<Record> {
    var rows := Concat(OraclePieces(tables, Selected(parts, q), q));
    if q.limit.Some? then Tail(rows, q.limit.value) else rows
  }

  /** Unless the conditions conflict, backend and oracle keep the same rows. */
  lemma {:induction false} SameFilter(tables: Tables, parts: seq<Part>, q: Query)
    requires !q.filter.Conflicting()
    ensures OraclePieces(tables, parts, q) == Pieces(tables, parts, q)
  {
    forall i | 0 <= i < |parts|
      ensures OraclePieces(tables, parts, q)[i] == Pieces(tables, parts, q)[i]
    {
      KeptSame(q.filter.OracleMask(), q.filter.Mask(), InRange(tables(parts[i].path), q.start, q.end));
    }
  }

  lemma {:induction false} KeptNone(keeps: Record -> bool, rows: seq<Record>)
    requires forall r :: !keeps(r)
    ensures Kept(keeps, rows) == []
  {
    if rows != [] {
      KeptNone(keeps, rows[1..]);
    }
  }

  lemma {:induction false} ConcatEmpty(pieces: seq<seq<Record>>)
    requires forall i :: 0 <= i < |pieces| ==> pieces[i] == []
    ensures Concat(pieces) == []
  {
    if pieces != [] {
      ConcatEmpty(pieces[1..]);
    }
  }

  /** If they conflict, the oracle keeps nothing at all. */
  lemma {:induction false} ConflictKeepsNothing(tables: Tables, parts: seq<Part>, q: Query)
    requires q.filter.Conflicting()
    ensures Concat(OraclePieces(tables, parts, q)) == []
  {
    var pieces := OraclePieces(tables, parts, q);
    forall i | 0 <= i < |parts|
      ensures pieces[i] == []
    {
      KeptNone(q.filter.OracleMask(), InRange(tables(parts[i].path), q.start, q.end));
    }
    ConcatEmpty(pieces);
  }

  /**
   * The backend ignores the bounds next to an exact value, the oracle does not: they keep the same
   * rows exactly when the value lies within the bounds or no row has it.
   */
  lemma {:induction false} BothConditionsExactly(tables: Tables, parts: seq<Part>, q: Query)
    requires q.filter.equals.Some? && q.filter.bounds.Some?
    ensures Concat(OraclePieces(tables, parts, q)) == Rows(tables, parts, q) <==>
              || q.filter.bounds.value.0 <= q.filter.equals.value <= q.filter.bounds.value.1
              || Rows(tables, parts, q) == []
  {
    if q.filter.Conflicting() {
      ConflictKeepsNothing(tables, parts, q);
    } else {
      SameFilter(tables, parts, q);
    }
  }

  /** Parts that do not overlap the query hold none of its rows, so selecting loses nothing. */
  lemma {:induction false} SelectionLosesNothing(tables: Tables, parts: seq<Part>, q: Query)
    requires Catalogued(tables, parts)
    ensures Rows(tables, Selected(parts, q), q) == Rows(tables, parts, q)
  {
    if parts != [] {
      var p, rest := parts[0], parts[1..];
      SelectionLosesNothing(tables, rest, q);
      RowsOfFirst(tables, p, rest, q);
      assert parts == [p] + rest;
      if Overlaps(p, q) {
        RowsOfFirst(tables, p, Selected(rest, q), q);
      } else {
        NothingOutside(tables, p, q);
        assert Selected(parts, q) == [] + Selected(rest, q) == Selected(rest, q);
      }
    }
  }

  lemma {:induction false} NothingOutside(tables: Tables, p: Part, q: Query)
    requires Describes(p, tables(p.path)) && !Overlaps(p, q)
    ensures Piece(tables, p, q) == []
  {
    InRangeNone(tables(p.path), q.start, q.end);
  }

  lemma {:induction false} RowsOfFirst(tables: Tables, p: Part, rest: seq<Part>, q: Query)
    ensures Rows(tables, [p] + rest, q) == Piece(tables, p, q) + Rows(tables, rest, q)
  {
    assert ([p] + rest)[1..] == rest;
    assert Pieces(tables, [p] + rest, q)[1..] == Pieces(tables, rest, q);
  }

  /** So the oracle is the filter over every part's rows, cut to its last rows. */
  lemma {:induction false} OracleFiltersEverything(tables: Tables, parts: seq<Part>, q: Query)
    requires Catalogued(tables, parts) && !q.filter.Conflicting()
    ensures Oracle(tables, parts, q) ==
              if q.limit.Some? then Tail(Rows(tables, parts, q), q.limit.value) else Rows(tables, parts, q)
  {
    SameFilter(tables, Selected(parts, q), q);
    SelectionLosesNothing(tables, parts, q);
  }

  // Pruning

  /** The rows of the fully covered parts from part `i` on. */
  ghost function CoveredFrom(parts: seq<Part>, q: Query, i: nat): nat
    requires i <= |parts|
    decreases |parts| - i
  {
    if i == |parts| then 0 else (if Covered(parts[i], q) then parts[i].rows else 0) + CoveredFrom(parts, q, i + 1)
  }

  /** Where the backward walk from `end` stops: fully covered parts alone reach the limit, or nothing is left. */
  ghost function KeptFrom(parts: seq<Part>, q: Query, limit: nat, end: nat): (i: nat)
    requires end <= |parts|
    ensures i <= end
    ensures i > 0 ==> CoveredFrom(parts, q, i) >= limit
    ensures forall j :: i < j < end ==> CoveredFrom(parts, q, j) < limit
  {
    if end == 0 then 0
    else if CoveredFrom(parts, q, end - 1) >= limit then end - 1
    else KeptFrom(parts, q, limit, end - 1)
  }

  /** Walks backwards, counting only fully covered parts, until they alone reach the limit. */
  method Prune(parts: seq<Part>, q: Query, limit: nat) returns (selected: seq<Part>)
    ensures selected == parts[KeptFrom(parts, q, limit, |parts|)..]
  {
    selected := [];
    var count := 0;
    var i := |parts|;
    while i > 0
      invariant 0 <= i <= |parts| && selected == parts[i..]
      invariant count == CoveredFrom(parts, q, i)
      invariant KeptFrom(parts, q, limit, i) == KeptFrom(parts, q, limit, |parts|)
    {
      i := i - 1;
      assert parts[i..] == [parts[i]] + parts[i + 1..];
      selected := [parts[i]] + selected;
      if Covered(parts[i], q) {
        count := count + parts[i].rows;
      }
      if count >= limit {
        return;
      }
    }
  }

  /** Exactly the fully covered parts contribute all their rows. */
  lemma {:induction false} CoveredPieceIsWhole(p: Part, rows: seq<Record>, q: Query)
    requires Describes(p, rows)
    ensures InRange(rows, q.start, q.end) == rows <==> Covered(p, q)
  {
    if Covered(p, q) {
      InRangeAll(rows, q.start, q.end);
    } else if InRange(rows, q.start, q.end) == rows {
      InRangeWithin(rows, q.start, q.end);
      assert q.start <= InRange(rows, q.start, q.end)[0].ts;
    }
  }

  lemma {:induction false} InRangeWithin(rows: seq<Record>, start: int, end: int)
    ensures forall i :: 0 <= i < |InRange(rows, start, end)| ==> start <= InRange(rows, start, end)[i].ts <= end
  {
    if rows != [] {
      InRangeWithin(rows[1..], start, end);
    }
  }

  /** Without a filter, fully covered parts contribute all their rows. */
  lemma {:induction false} EnoughRows(tables: Tables, parts: seq<Part>, q: Query, i: nat)
    requires Catalogued(tables, parts) && q.filter.KeepsAll() && i <= |parts|
    ensures |Rows(tables, parts[i..], q)| >= CoveredFrom(parts, q, i)
    decreases |parts| - i
  {
    if i < |parts| {
      EnoughRows(tables, parts, q, i + 1);
      RowsCons(tables, parts, q, i);
      if Covered(parts[i], q) {
        CoveredPieceIsWhole(parts[i], tables(parts[i].path), q);
        KeptAll(q.filter.Mask(), tables(parts[i].path));
      }
    }
  }

  lemma {:induction false} RowsCons(tables: Tables, parts: seq<Part>, q: Query, i: nat)
    requires i < |parts|
    ensures Rows(tables, parts[i..], q) == Piece(tables, parts[i], q) + Rows(tables, parts[i + 1..], q)
  {
    assert Pieces(tables, parts[i..], q)[1..] == Pieces(tables, parts[i + 1..], q);
  }

  lemma LastOfSuffix<T>(a: seq<T>, b: seq<T>, n: nat)
    ensures LastN(a + b, n) == LastN(b, n) <==> |b| >= n || a == []
  {
    if |b| < n && a != [] {
      assert |LastN(a + b, n)| > |b|;
    }
  }

  lemma {:induction false} RowsSplit(tables: Tables, parts: seq<Part>, q: Query, from: nat)
    requires from <= |parts|
    ensures Rows(tables, parts, q) == Rows(tables, parts[..from], q) + Rows(tables, parts[from..], q)
  {
    var a, b := Pieces(tables, parts[..from], q), Pieces(tables, parts[from..], q);
    assert Pieces(tables, parts, q) == a + b;
    ConcatAppend(a, b);
  }

  /** The kept parts hold enough matching rows, or the dropped ones hold none. */
  ghost predicate PruningIsSafe(tables: Tables, parts: seq<Part>, q: Query, limit: nat) {
    var from := KeptFrom(parts, q, limit, |parts|);
    |Rows(tables, parts[from..], q)| >= limit || Rows(tables, parts[..from], q) == []
  }

  /** The last rows of the kept parts are the last rows of all parts exactly when pruning is safe. */
  lemma {:induction false} PruningExactly(tables: Tables, parts: seq<Part>, q: Query, limit: nat)
    ensures var from := KeptFrom(parts, q, limit, |parts|);
            LastN(Rows(tables, parts[from..], q), limit) == LastN(Rows(tables, parts, q), limit) <==>
            PruningIsSafe(tables, parts, q, limit)
  {
    var from := KeptFrom(parts, q, limit, |parts|);
    RowsSplit(tables, parts, q, from);
    LastOfSuffix(Rows(tables, parts[..from], q), Rows(tables, parts[from..], q), limit);
  }

  /** Without a value filter pruned parts cannot hold any of the last rows. */
  lemma {:induction false} UnfilteredPruningIsSafe(tables: Tables, parts: seq<Part>, q: Query, limit: nat)
    requires Catalogued(tables, parts) && q.filter.KeepsAll()
    ensures PruningIsSafe(tables, parts, q, limit)
  {
    var from := KeptFrom(parts, q, limit, |parts|);
    EnoughRows(tables, parts, q, from);
    if from == 0 {
      assert parts[..0] == [];
    }
  }

  /**
   * With a filter the walk counts rows the filter then drops: two one-row parts, the second covered
   * and not matching, and the matching row of the first is never read.
   */
  lemma FilteredLatestCanMiss(early: Record, late: Record, tables: Tables, q: Query)
    requires early.ts < late.ts && q.start == early.ts && q.end == late.ts && q.limit == Some(1)
    requires q.filter.bounds == None && q.filter.equals == Some(q.filter.value(early))
    requires q.filter.value(early) != q.filter.value(late)
    requires tables("a") == [early] && tables("b") == [late]
    ensures var parts := [Part("a", early.ts, early.ts, 1), Part("b", late.ts, late.ts, 1)];
            && Catalogued(tables, parts) && !PruningIsSafe(tables, parts, q, 1)
            && Oracle(tables, parts, q) == [early]
            && Rows(tables, parts[KeptFrom(parts, q, 1, 2)..], q) == []
  {
    var a, b := Part("a", early.ts, early.ts, 1), Part("b", late.ts, late.ts, 1);
    var parts := [a, b];
    OneRowPiece(tables, a, q, early);
    OneRowPiece(tables, b, q, late);
    OnePartRows(tables, a, q);
    OnePartRows(tables, b, q);
    assert parts[1..] == [b] && parts[..1] == [a];
    StopsAtSecond(a, b, q);
    RowsSplit(tables, parts, q, 1);
    SameFilter(tables, parts, q);
  }

  /** A covered one-row part behind another one satisfies a limit of 1. */
  lemma {:induction false} StopsAtSecond(a: Part, b: Part, q: Query)
    requires Overlaps(a, q) && Covered(b, q) && b.rows == 1
    ensures KeptFrom([a, b], q, 1, 2) == 1
    ensures Overlaps(b, q) ==> Selected([a, b], q) == [a, b]
  {
    assert CoveredFrom([a, b], q, 1) == 1 + CoveredFrom([a, b], q, 2) == 1;
    assert [a, b][1..] == [b] && [b][1..] == [];
    if Overlaps(b, q) {
      assert Selected([b], q) == [b] + Selected([], q);
      assert Selected([a, b], q) == [a] + Selected([b], q);
    }
  }

  /** A row with the exact value outside the bounds: the backend returns it, the oracle does not. */
  lemma {:induction false} ConflictShows(row: Record, p: Part, tables: Tables, q: Query)
    requires Overlaps(p, q) && q.start <= row.ts <= q.end && q.limit.None? && tables(p.path) == [row]
    requires q.filter.Conflicting() && q.filter.value(row) == q.filter.equals.value
    ensures Rows(tables, Selected([p], q), q) == [row]
    ensures Oracle(tables, [p], q) == []
  {
    OneRowPiece(tables, p, q, row);
    OnePartRows(tables, p, q);
    assert Selected([p], q) == [p] + Selected([], q) == [p];
    ConflictKeepsNothing(tables, [p], q);
  }

  lemma OneRowPiece(tables: Tables, p: Part, q: Query, row: Record)
    requires tables(p.path) == [row] && q.start <= row.ts <= q.end
    ensures Piece(tables, p, q) == if q.filter.Keeps(row) then [row] else []
  {
    InRangeAll([row], q.start, q.end);
    assert [row][1..] == [];
  }

  lemma OnePartRows(tables: Tables, p: Part, q: Query)
    ensures Rows(tables, [p], q) == Piece(tables, p, q)
  {
    var pieces := Pieces(tables, [p], q);
    assert pieces == [Piece(tables, p, q)] && pieces[1..] == [];
    assert Concat(pieces) == Piece(tables, p, q) + Concat<Record>([]);
  }

  /** Takes from the tail pieces until nothing remains to be taken. */
  method TakeLatest(pieces: seq<seq<Record>>, limit: nat) returns (rows: seq<Record>)
    ensures rows == LastN(Concat(pieces), limit)
  {
    rows := [];
    var remaining := limit;
    var i := |pieces|;
    while i > 0
      invariant 0 <= i <= |pieces|
      invariant rows == LastN(Concat(pieces[i..]), limit) && remaining == limit - |rows|
    {
      i := i - 1;
      var take := if remaining < |pieces[i]| then remaining else |pieces[i]|;
      assert pieces[i..][1..] == pieces[i + 1..];
      TakeOne(pieces[i], Concat(pieces[i + 1..]), limit);
      rows := pieces[i][|pieces[i]| - take..] + rows;
      remaining := remaining - take;
      if remaining == 0 {
        EnoughTaken(pieces, i, limit);
        return;
      }
    }
    assert pieces[0..] == pieces;
  }

  lemma {:induction false} EnoughTaken(pieces: seq<seq<Record>>, i: nat, limit: nat)
    requires i <= |pieces| && |Concat(pieces[i..])| >= limit
    ensures LastN(Concat(pieces), limit) == LastN(Concat(pieces[i..]), limit)
  {
    ConcatAppend(pieces[..i], pieces[i..]);
    assert pieces == pieces[..i] + pieces[i..];
    LastOfSuffix(Concat(pieces[..i]), Concat(pieces[i..]), limit);
  }

  lemma TakeOne(piece: seq<Record>, later: seq<Record>, limit: nat)
    ensures var got := LastN(later, limit);
            var take := if limit - |got| < |piece| then limit - |got| else |piece|;
            LastN(piece + later, limit) == piece[|piece| - take..] + got
  {
  }

  // The query with its table cache

  const CACHE_BUDGET: nat := 64

  class Files {
    const tables: Tables
    /** Least recently used first. */
    var order: seq<string>
    var batches: map<string, seq<Record>>

    ghost predicate Valid()
      reads this
    {
      && FileCache.NoDuplicates(order) && |order| <= CACHE_BUDGET
      && (forall p :: p in order <==> p in batches)
      && (forall p :: p in batches ==> batches[p] == tables(p))
    }

    constructor (tables: Tables)
      ensures Valid() && this.tables == tables
    {
      this.tables := tables;
      order, batches := [], map[];
    }

    /** Enters a table at the young end and drops the oldest one beyond the budget. */
    method Load(path: string)
      requires Valid() && path !in batches
      modifies this
      ensures Valid() && path in batches
    {
      NewEntry(order, path);
      order := order + [path];
      batches := batches[path := tables(path)];
      FileCountAgrees(order, batches);
      if |batches| > CACHE_BUDGET {
        DropOldest();
      }
    }

    /** `popitem(last=False)`: the last entry stays. */
    method DropOldest()
      requires FileCache.NoDuplicates(order) && |order| > 1
      requires forall p :: p in order <==> p in batches
      requires forall p :: p in batches ==> batches[p] == tables(p)
      modifies this
      ensures order == old(order)[1..] && order[|order| - 1] in batches
      ensures FileCache.NoDuplicates(order)
      ensures forall p :: p in order <==> p in batches
      ensures forall p :: p in batches ==> batches[p] == tables(p)
    {
      OldestGoes(order);
      batches := batches - {order[0]};
      order := order[1..];
    }

    /** Loads or refreshes a table; the budget holds and the entry in use is never the one dropped. */
    method Fetch(path: string) returns (rows: seq<Record>)
      requires Valid()
      modifies this
      ensures Valid() && path in batches && order != [] && order[|order| - 1] == path
      ensures rows == tables(path)
    {
      if path !in batches {
        Load(path);
      }
      MoveToEnd(order, path);
      order := Moved(order, path);
      return batches[path];
    }

    /** `searchsorted` on both sides, a slice, and the mask of the value filter. */
    method Slice(path: string, q: Query) returns (piece: seq<Record>)
      requires Valid() && Strict(tables(path)) && NonDecreasing(tables(path))
      modifies this
      ensures Valid()
      ensures piece == Kept(q.filter.Mask(), InRange(tables(path), q.start, q.end))
    {
      var rows := Fetch(path);
      var start := LowerBoundInRecords(rows, q.start);
      var end := UpperBoundInRecords(rows, q.end);
      SearchedSlice(rows, q.start, q.end, start, end);
      piece := if start <= end then rows[start..end] else [];
      if q.filter.KeepsAll() {
        KeptAll(q.filter.Mask(), piece);
      } else {
        piece := Kept(q.filter.Mask(), piece);
      }
    }

    method QueryPieces(parts: seq<Part>, q: Query) returns (pieces: seq<seq<Record>>)
      requires Valid() && Catalogued(tables, parts)
      modifies this
      ensures Valid() && pieces == Pieces(tables, parts, q)
    {
      pieces := [];
      for i := 0 to |parts|
        invariant Valid() && pieces == Pieces(tables, parts, q)[..i]
      {
        assert Describes(parts[i], tables(parts[i].path));
        var piece := Slice(parts[i].path, q);
        pieces := pieces + [piece];
      }
      assert Pieces(tables, parts, q)[..|parts|] == Pieces(tables, parts, q);
    }

    /**
     * Pruning and cached slices return the oracle's rows exactly when pruning is safe, which it
     * always is without a value filter. A zero limit agrees exactly when nothing matches, and
     * conflicting conditions exactly when the kept parts hold no row with the exact value.
     */
    method Query(parts: seq<Part>, q: Query) returns (rows: seq<Record>)
      requires Valid() && Catalogued(tables, parts)
      modifies this
      ensures Valid() && rows == Answer(tables, parts, q)
      ensures !q.filter.Conflicting() && q.limit.None? ==> rows == Oracle(tables, parts, q)
      ensures !q.filter.Conflicting() && q.limit.Some? && q.limit.value > 0 ==>
                (rows == Oracle(tables, parts, q) <==>
                   PruningIsSafe(tables, Selected(parts, q), q, q.limit.value))
      ensures q.filter.KeepsAll() && q.limit != Some(0) ==> rows == Oracle(tables, parts, q)
      ensures !q.filter.Conflicting() && q.limit == Some(0) ==>
                rows == [] && (rows == Oracle(tables, parts, q) <==> Rows(tables, Selected(parts, q), q) == [])
      ensures q.filter.Conflicting() ==>
                (rows == Oracle(tables, parts, q) <==> q.limit == Some(0) || Rows(tables, KeptParts(parts, q), q) == [])
    {
      AnswerAgainstOracle(tables, parts, q);
      var selected := Selected(parts, q);
      SelectedCatalogued(tables, parts, q);
      if q.limit.None? {
        var pieces := QueryPieces(selected, q);
        return Concat(pieces);
      }
      var kept := Prune(selected, q, q.limit.value);
      var pieces := QueryPieces(kept, q);
      rows := TakeLatest(pieces, q.limit.value);
    }
  }

  lemma {:induction false} SearchedSlice(rows: seq<Record>, start: int, end: int, lo: nat, hi: nat)
    requires Strict(rows) && NonDecreasing(rows) && lo <= |rows| && hi <= |rows|
    requires SplitsBelow(rows, start, lo) && SplitsAtOrBelow(rows, end, hi)
    ensures InRange(rows, start, end) == if lo <= hi then rows[lo..hi] else []
  {
    LowerBoundIs(rows, start, lo);
    UpperBoundIs(rows, end, hi);
    InRangeIsSlice(rows, start, end);
  }

  /** The overlapping parts that are read. */
  ghost function KeptParts(parts: seq<Part>, q: Query): seq<Part> {
    var selected := Selected(parts, q);
    if q.limit.None? then selected else selected[KeptFrom(selected, q, q.limit.value, |selected|)..]
  }

  /** The matching rows of the parts that are read, or the last of them. */
  ghost function Answer(tables: Tables, parts: seq<Part>, q: Query): seq<Record> {
    var rows := Rows(tables, KeptParts(parts, q), q);
    if q.limit.None? then rows else LastN(rows, q.limit.value)
  }

  /** When the answer is the oracle's, case by case. */
  lemma {:induction false} AnswerAgainstOracle(tables: Tables, parts: seq<Part>, q: Query)
    requires Catalogued(tables, parts)
    ensures q.filter.Conflicting() ==>
              (Answer(tables, parts, q) == Oracle(tables, parts, q) <==>
                 q.limit == Some(0) || Rows(tables, KeptParts(parts, q), q) == [])
    ensures !q.filter.Conflicting() && q.limit.None? ==> Answer(tables, parts, q) == Oracle(tables, parts, q)
    ensures !q.filter.Conflicting() && q.limit.Some? && q.limit.value > 0 ==>
              (Answer(tables, parts, q) == Oracle(tables, parts, q) <==>
                 PruningIsSafe(tables, Selected(parts, q), q, q.limit.value))
    ensures q.filter.KeepsAll() && q.limit != Some(0) ==> Answer(tables, parts, q) == Oracle(tables, parts, q)
    ensures !q.filter.Conflicting() && q.limit == Some(0) ==>
              && Answer(tables, parts, q) == []
              && (Oracle(tables, parts, q) == [] <==> Rows(tables, Selected(parts, q), q) == [])
  {
    var selected := Selected(parts, q);
    if q.filter.Conflicting() {
      ConflictKeepsNothing(tables, selected, q);
    } else {
      SameFilter(tables, selected, q);
      if q.limit.Some? {
        PruningExactly(tables, selected, q, q.limit.value);
        if q.filter.KeepsAll() {
          SelectedCatalogued(tables, parts, q);
          UnfilteredPruningIsSafe(tables, selected, q, q.limit.value);
        }
      }
    }
  }

  function Moved(order: seq<string>, path: string): seq<string> {
    if order == [] then [path]
    else if order[0] == path then order[1..] + [path]
    else [order[0]] + Moved(order[1..], path)
  }

  lemma {:induction false} MoveToEnd(order: seq<string>, path: string)
    requires FileCache.NoDuplicates(order) && path in order
    ensures var m := Moved(order, path);
            && FileCache.NoDuplicates(m) && |m| == |order| && m[|m| - 1] == path
            && forall p :: p in m <==> p in order
  {
    var rest := order[1..];
    assert forall i :: 0 <= i < |rest| ==> rest[i] == order[i + 1];
    assert order[0] !in rest;
    assert forall p :: p in order <==> p == order[0] || p in rest;
    if order[0] != path {
      MoveToEnd(rest, path);
      var m := Moved(rest, path);
      assert order[0] !in m;
      assert Moved(order, path) == [order[0]] + m;
    }
  }

  lemma NewEntry(order: seq<string>, path: string)
    requires FileCache.NoDuplicates(order) && path !in order
    ensures FileCache.NoDuplicates(order + [path])
    ensures forall p :: p in order + [path] <==> p in order || p == path
  {
  }

  lemma OldestGoes(order: seq<string>)
    requires FileCache.NoDuplicates(order) && |order| > 1
    ensures FileCache.NoDuplicates(order[1..])
    ensures forall p :: p in order[1..] <==> p in order && p != order[0]
    ensures order[|order| - 1] != order[0]
  {
    var rest := order[1..];
    assert forall i :: 0 <= i < |rest| ==> rest[i] == order[i + 1];
    assert forall p :: p in order <==> p == order[0] || p in rest;
  }

  lemma {:induction false} FileCountAgrees(order: seq<string>, batches: map<string, seq<Record>>)
    requires FileCache.NoDuplicates(order) && forall p :: p in order <==> p in batches
    ensures |order| == |batches|
  {
    FileCache.DistinctCount(order, batches.Keys);
  }
}
