/** Reading many planned spans into one result, cut into tasks that workers fill in any order. */
module ParallelRead {
  import opened Wrappers
  import opened Bytes
  import opened Records
  import opened ChunkFiles
  import opened Layout
  import opened ChunkReader
  import opened KlineReader

  /** A planned span, with the chunk and the records it stands for. */
  datatype Source = Source(layout: ChunkLayout, rs: seq<Record>, first: nat, span: ReadSpan)

  /** A piece of a span and where its rows go. */
  datatype Task = Task(source: Source, at: nat)

  ghost predicate Planned(s: Source) {
    && Plans(s.span, s.layout, s.rs, s.first)
    && s.layout.header.recordSize == KlineKind.Size()
    && Offset(s.layout.header, |s.rs|) < TWO_63
  }

  ghost predicate AllPlanned(sources: seq<Source>) {
    forall i :: 0 <= i < |sources| ==> Planned(sources[i])
  }

  function Content(s: Source): (rows: seq<Record>)
    requires s.first + s.span.rows <= |s.rs|
    ensures |rows| == s.span.rows
  {
    s.rs[s.first..s.first + s.span.rows]
  }

  /** The spans one after the other. */
  ghost function Joined(sources: seq<Source>): seq<Record>
    requires AllPlanned(sources)
  {
    if sources == [] then [] else Joined(sources[..|sources| - 1]) + Content(sources[|sources| - 1])
  }

  // Cutting

  lemma OffsetOfPart(s: Source, start: nat)
    requires Planned(s) && start <= s.span.rows
    ensures s.span.offset + start * KlineKind.Size() == Offset(s.layout.header, s.first + start) < TWO_63
  {
  }

  /** `count` rows of a span from row `start` on; the offset arithmetic cannot overflow. */
  function Part(s: Source, start: nat, count: nat): (part: Source)
    requires Planned(s) && start + count <= s.span.rows
    ensures Planned(part) && part.span.rows == count
    ensures Content(part) == Content(s)[start..start + count]
  {
    OffsetOfPart(s, start);
    s.(first := s.first + start, span := ReadSpan(s.span.offset + start * KlineKind.Size(), count))
  }

  /** Where task `k` starts, or the end of the result. */
  function StartOf(tasks: seq<Task>, k: nat, total: nat): nat
    requires k <= |tasks|
  {
    if k < |tasks| then tasks[k].at else total
  }

  /** The tasks fill the result without gap or overlap, each with its own stretch of it. */
  ghost predicate Tiled(tasks: seq<Task>, all: seq<Record>) {
    && StartOf(tasks, 0, |all|) == 0
    && (forall k :: 0 <= k < |tasks| ==> Planned(tasks[k].source))
    && (forall k :: 0 <= k < |tasks| ==> TileAt(tasks, all, k))
  }

  ghost predicate TileAt(tasks: seq<Task>, all: seq<Record>, k: nat)
    requires k < |tasks| && Planned(tasks[k].source)
  {
    var t := tasks[k];
    && t.at + t.source.span.rows == StartOf(tasks, k + 1, |all|) <= |all|
    && all[t.at..t.at + t.source.span.rows] == Content(t.source)
  }

  lemma {:induction false} TiledSnoc(tasks: seq<Task>, all: seq<Record>, source: Source)
    requires Tiled(tasks, all) && Planned(source)
    ensures Tiled(tasks + [Task(source, |all|)], all + Content(source))
  {
    var more, longer := tasks + [Task(source, |all|)], all + Content(source);
    forall k | 0 <= k < |more|
      ensures Planned(more[k].source) && TileAt(more, longer, k)
    {
      if k < |tasks| {
        assert more[k] == tasks[k] && TileAt(tasks, all, k);
        assert longer[..|all|] == all;
        var t := tasks[k];
        assert longer[t.at..t.at + t.source.span.rows] == all[t.at..t.at + t.source.span.rows];
      }
    }
  }

  /** Every task has a row to read and at most `taskRows`. */
  ghost predicate Sized(tasks: seq<Task>, taskRows: nat) {
    forall k :: 0 <= k < |tasks| ==> 0 < tasks[k].source.span.rows <= taskRows
  }

  /** Cuts every span into tasks of at most `taskRows` rows. */
  method CutTasks(sources: seq<Source>, taskRows: nat) returns (tasks: seq<Task>)
    requires AllPlanned(sources) && taskRows > 0
    ensures Tiled(tasks, Joined(sources)) && Sized(tasks, taskRows)
  {
    tasks := [];
    var at := 0;
    for i := 0 to |sources|
      invariant at == |Joined(sources[..i])| && Tiled(tasks, Joined(sources[..i])) && Sized(tasks, taskRows)
    {
      JoinedSnoc(sources, i);
      tasks, at := CutSpan(sources[i], taskRows, tasks, at, Joined(sources[..i]));
    }
    assert sources[..|sources|] == sources;
  }

  lemma {:induction false} JoinedSnoc(sources: seq<Source>, i: nat)
    requires AllPlanned(sources) && i < |sources|
    ensures Joined(sources[..i + 1]) == Joined(sources[..i]) + Content(sources[i])
  {
    assert sources[..i + 1][..i] == sources[..i];
  }

  method CutSpan(source: Source, taskRows: nat, tasks: seq<Task>, at: nat, ghost before: seq<Record>)
    returns (more: seq<Task>, next: nat)
    requires Planned(source) && taskRows > 0
    requires at == |before| && Tiled(tasks, before) && Sized(tasks, taskRows)
    ensures next == at + source.span.rows
    ensures Tiled(more, before + Content(source)) && Sized(more, taskRows)
  {
    more, next := tasks, at;
    var start := 0;
    assert before + Content(source)[..0] == before;
    while start < source.span.rows
      invariant start <= source.span.rows && next == at + start
      invariant Tiled(more, before + Content(source)[..start]) && Sized(more, taskRows)
    {
      var count := Min(source.span.rows - start, taskRows);
      var part := Part(source, start, count);
      TiledSnoc(more, before + Content(source)[..start], part);
      PrefixGrows(before, Content(source), start, count);
      more := more + [Task(part, next)];
      start, next := start + count, next + count;
    }
    assert Content(source)[..start] == Content(source);
  }

  lemma PrefixGrows(before: seq<Record>, rows: seq<Record>, start: nat, count: nat)
    requires start + count <= |rows|
    ensures before + rows[..start] + rows[start..start + count] == before + rows[..start + count]
  {
    assert rows[..start] + rows[start..start + count] == rows[..start + count];
    PlusAssociates(before, rows[..start], rows[start..start + count]);
  }

  // Workers

  /** Consecutive groups of tasks: group `g` is `bounds[g]..bounds[g + 1]`. */
  ghost predicate Grouping(bounds: seq<nat>, n: nat) {
    && bounds != [] && bounds[0] == 0 && bounds[|bounds| - 1] == n
    && forall g, h :: 0 <= g <= h < |bounds| ==> bounds[g] <= bounds[h]
  }

  /** `par_chunks_mut`: groups of `size` tasks, the last one perhaps shorter. */
  method Groups(n: nat, size: nat) returns (bounds: seq<nat>)
    requires size > 0
    ensures Grouping(bounds, n)
    ensures forall g :: 0 <= g < |bounds| - 2 ==> bounds[g + 1] == bounds[g] + size
  {
    bounds := [0];
    var last := 0;
    while last < n
      invariant last <= n && Grouping(bounds, last)
      invariant forall g :: 0 <= g < |bounds| - 2 ==> bounds[g + 1] == bounds[g] + size
      invariant last < n ==> forall g :: 0 <= g < |bounds| - 1 ==> bounds[g + 1] == bounds[g] + size
    {
      last := Min(last + size, n);
      bounds := bounds + [last];
    }
  }

  /** A worker on its group: the task it is at, and how many of its rows it has filled. */
  datatype Worker = Worker(task: nat, slot: nat, failed: bool)

  /** Slots of the result are uninitialised until a worker fills them. */
  datatype State = State(out: seq<Option<Record>>, workers: seq<Worker>)

  datatype Act = FillRow(worker: nat) | Fail(worker: nat)

  predicate Running(bounds: seq<nat>, s: State, g: nat)
    requires |bounds| == |s.workers| + 1
  {
    g < |s.workers| && !s.workers[g].failed && s.workers[g].task < bounds[g + 1]
  }

  /** One step of one worker: fill one row, go on to its next task, or give up. */
  ghost function Next(tasks: seq<Task>, bounds: seq<nat>, all: seq<Record>, s: State, act: Act): State
    requires Invariant(tasks, bounds, all, s)
  {
    var g := act.worker;
    if !Running(bounds, s, g) then s
    else
      var w := s.workers[g];
      var t := tasks[w.task];
      if act.Fail? then s.(workers := s.workers[g := w.(failed := true)])
      else if w.slot == t.source.span.rows then s.(workers := s.workers[g := Worker(w.task + 1, 0, false)])
      else
        assert TileAt(tasks, all, w.task);
        State(s.out[t.at + w.slot := Some(Content(t.source)[w.slot])], s.workers[g := w.(slot := w.slot + 1)])
  }

  ghost function Position(tasks: seq<Task>, all: seq<Record>, w: Worker): nat
    requires w.task <= |tasks|
  {
    StartOf(tasks, w.task, |all|) + w.slot
  }

  ghost predicate WorkerAt(tasks: seq<Task>, bounds: seq<nat>, w: Worker, g: nat)
    requires g + 1 < |bounds|
  {
    && bounds[g] <= w.task <= bounds[g + 1] <= |tasks|
    && (if w.task < bounds[g + 1] then w.slot <= tasks[w.task].source.span.rows else w.slot == 0)
  }

  /** Group `g`: everything before the worker's position is right, everything behind it untouched. */
  ghost predicate GroupFilled(tasks: seq<Task>, bounds: seq<nat>, all: seq<Record>, s: State, g: nat)
    requires g + 1 < |bounds| && g < |s.workers| && |s.out| == |all|
    requires WorkerAt(tasks, bounds, s.workers[g], g)
  {
    var from, here := StartOf(tasks, bounds[g], |all|), Position(tasks, all, s.workers[g]);
    var to := StartOf(tasks, bounds[g + 1], |all|);
    && from <= here <= to <= |all|
    && (forall j :: from <= j < here ==> s.out[j] == Some(all[j]))
    && (forall j :: here <= j < to ==> s.out[j] == None)
  }

  ghost predicate Invariant(tasks: seq<Task>, bounds: seq<nat>, all: seq<Record>, s: State) {
    && Tiled(tasks, all) && Grouping(bounds, |tasks|)
    && |bounds| == |s.workers| + 1 && |s.out| == |all|
    && (forall g :: 0 <= g < |s.workers| ==> WorkerAt(tasks, bounds, s.workers[g], g))
    && (forall g :: 0 <= g < |s.workers| ==> GroupFilled(tasks, bounds, all, s, g))
  }

  ghost function Start(bounds: seq<nat>, total: nat): State
    requires bounds != []
  {
    State(seq(total, i => None), seq(|bounds| - 1, g requires 0 <= g < |bounds| - 1 => Worker(bounds[g], 0, false)))
  }

  lemma {:induction false} StartsAscend(tasks: seq<Task>, all: seq<Record>, i: nat, j: nat)
    requires Tiled(tasks, all) && i <= j <= |tasks|
    ensures StartOf(tasks, i, |all|) <= StartOf(tasks, j, |all|) <= |all|
    decreases j - i
  {
    if i < |tasks| {
      assert TileAt(tasks, all, i);
    }
    if i < j {
      StartsAscend(tasks, all, i + 1, j);
    }
  }

  lemma {:induction false} StartIsInvariant(tasks: seq<Task>, bounds: seq<nat>, all: seq<Record>)
    requires Tiled(tasks, all) && Grouping(bounds, |tasks|)
    ensures Invariant(tasks, bounds, all, Start(bounds, |all|))
  {
    var s := Start(bounds, |all|);
    forall g | 0 <= g < |s.workers|
      ensures WorkerAt(tasks, bounds, s.workers[g], g) && GroupFilled(tasks, bounds, all, s, g)
    {
      StartsAscend(tasks, all, bounds[g], bounds[g + 1]);
      StartsAscend(tasks, all, bounds[g + 1], |tasks|);
    }
  }

  /** A step of one worker leaves every other group alone. */
  lemma {:induction false} StepKeepsInvariant(tasks: seq<Task>, bounds: seq<nat>, all: seq<Record>, s: State, act: Act)
    requires Invariant(tasks, bounds, all, s)
    ensures Invariant(tasks, bounds, all, Next(tasks, bounds, all, s, act))
  {
    var g := act.worker;
    var after := Next(tasks, bounds, all, s, act);
    if Running(bounds, s, g) {
      OwnGroup(tasks, bounds, all, s, act);
      forall h | 0 <= h < |s.workers| && h != g
        ensures WorkerAt(tasks, bounds, after.workers[h], h) && GroupFilled(tasks, bounds, all, after, h)
      {
        OtherGroup(tasks, bounds, all, s, act, h);
      }
    }
  }

  lemma {:induction false} OwnGroup(tasks: seq<Task>, bounds: seq<nat>, all: seq<Record>, s: State, act: Act)
    requires Invariant(tasks, bounds, all, s) && Running(bounds, s, act.worker)
    ensures var after := Next(tasks, bounds, all, s, act);
            && |after.workers| == |s.workers| && |after.out| == |s.out|
            && WorkerAt(tasks, bounds, after.workers[act.worker], act.worker)
            && GroupFilled(tasks, bounds, all, after, act.worker)
  {
    var g := act.worker;
    var w := s.workers[g];
    assert GroupFilled(tasks, bounds, all, s, g);
    TaskInGroup(tasks, all, w.task, bounds[g + 1]);
    if act.FillRow? && w.slot < tasks[w.task].source.span.rows {
      SlotHolds(tasks, all, w.task, w.slot);
    }
  }

  lemma {:induction false} TaskInGroup(tasks: seq<Task>, all: seq<Record>, k: nat, to: nat)
    requires Tiled(tasks, all) && k < to <= |tasks|
    ensures tasks[k].at + tasks[k].source.span.rows == StartOf(tasks, k + 1, |all|)
    ensures StartOf(tasks, k + 1, |all|) <= StartOf(tasks, to, |all|) <= |all|
  {
    assert TileAt(tasks, all, k);
    StartsAscend(tasks, all, k + 1, to);
  }

  lemma {:induction false} SlotHolds(tasks: seq<Task>, all: seq<Record>, k: nat, slot: nat)
    requires Tiled(tasks, all) && k < |tasks| && slot < tasks[k].source.span.rows
    ensures tasks[k].at + slot < |all| && Content(tasks[k].source)[slot] == all[tasks[k].at + slot]
  {
    var t := tasks[k];
    assert TileAt(tasks, all, k);
    assert all[t.at..t.at + t.source.span.rows][slot] == all[t.at + slot];
  }

  /** Different groups own different stretches of the result. */
  lemma {:induction false} GroupsApart(
      tasks: seq<Task>, bounds: seq<nat>, all: seq<Record>, g: nat, h: nat, j: nat)
    requires Tiled(tasks, all) && Grouping(bounds, |tasks|) && g + 1 < |bounds| && h + 1 < |bounds| && g != h
    requires bounds[g + 1] <= |tasks| && bounds[h + 1] <= |tasks|
    requires StartOf(tasks, bounds[g], |all|) <= j < StartOf(tasks, bounds[g + 1], |all|)
    ensures !(StartOf(tasks, bounds[h], |all|) <= j < StartOf(tasks, bounds[h + 1], |all|))
  {
    if h < g {
      StartsAscend(tasks, all, bounds[h + 1], bounds[g]);
    } else {
      StartsAscend(tasks, all, bounds[g + 1], bounds[h]);
    }
  }

  /** Only slots of the worker's own group change. */
  lemma {:induction false} OnlyOwnSlots(
      tasks: seq<Task>, bounds: seq<nat>, all: seq<Record>, s: State, act: Act, j: nat)
    requires Invariant(tasks, bounds, all, s) && Running(bounds, s, act.worker) && j < |all|
    requires !(StartOf(tasks, bounds[act.worker], |all|) <= j < StartOf(tasks, bounds[act.worker + 1], |all|))
    ensures |Next(tasks, bounds, all, s, act).out| == |s.out| && Next(tasks, bounds, all, s, act).out[j] == s.out[j]
  {
    var g := act.worker;
    var w := s.workers[g];
    assert GroupFilled(tasks, bounds, all, s, g);
    TaskInGroup(tasks, all, w.task, bounds[g + 1]);
  }

  lemma {:induction false} OtherGroup(
      tasks: seq<Task>, bounds: seq<nat>, all: seq<Record>, s: State, act: Act, h: nat)
    requires Invariant(tasks, bounds, all, s) && Running(bounds, s, act.worker)
    requires h < |s.workers| && h != act.worker
    ensures var after := Next(tasks, bounds, all, s, act);
            && |after.workers| == |s.workers| && |after.out| == |s.out| && after.workers[h] == s.workers[h]
            && GroupFilled(tasks, bounds, all, after, h)
  {
    assert GroupFilled(tasks, bounds, all, s, h);
    OwnGroup(tasks, bounds, all, s, act);
    var after := Next(tasks, bounds, all, s, act);
    forall j | StartOf(tasks, bounds[h], |all|) <= j < StartOf(tasks, bounds[h + 1], |all|)
      ensures |after.out| == |s.out| && after.out[j] == s.out[j]
    {
      GroupsApart(tasks, bounds, all, h, act.worker, j);
      OnlyOwnSlots(tasks, bounds, all, s, act, j);
    }
  }

  ghost function Run(tasks: seq<Task>, bounds: seq<nat>, all: seq<Record>, acts: seq<Act>): (s: State)
    requires Tiled(tasks, all) && Grouping(bounds, |tasks|)
    ensures Invariant(tasks, bounds, all, s)
  {
    StartIsInvariant(tasks, bounds, all);
    if acts == [] then Start(bounds, |all|)
    else
      var before := Run(tasks, bounds, all, acts[..|acts| - 1]);
      StepKeepsInvariant(tasks, bounds, all, before, acts[|acts| - 1]);
      Next(tasks, bounds, all, before, acts[|acts| - 1])
  }

  ghost predicate AllStopped(bounds: seq<nat>, s: State)
    requires |bounds| == |s.workers| + 1
  {
    forall g :: 0 <= g < |s.workers| ==> !Running(bounds, s, g)
  }

  ghost predicate SomeFailed(s: State) {
    exists g :: 0 <= g < |s.workers| && s.workers[g].failed
  }

  predicate Initialised(out: seq<Option<Record>>) {
    forall j :: 0 <= j < |out| ==> out[j].Some?
  }

  function Values(out: seq<Option<Record>>): (rows: seq<Record>)
    requires Initialised(out)
    ensures |rows| == |out| && forall j :: 0 <= j < |out| ==> rows[j] == out[j].value
  {
    seq(|out|, j requires 0 <= j < |out| => out[j].value)
  }

  /** Every position of the result belongs to some group. */
  lemma {:induction false} SomeGroupHas(tasks: seq<Task>, bounds: seq<nat>, all: seq<Record>, j: nat, last: nat)
    returns (g: nat)
    requires Tiled(tasks, all) && Grouping(bounds, |tasks|) && last < |bounds|
    requires j < StartOf(tasks, bounds[last], |all|)
    ensures g < last && StartOf(tasks, bounds[g], |all|) <= j < StartOf(tasks, bounds[g + 1], |all|)
  {
    if last == 0 {
      assert false;
    } else if j < StartOf(tasks, bounds[last - 1], |all|) {
      g := SomeGroupHas(tasks, bounds, all, j, last - 1);
    } else {
      g := last - 1;
    }
  }

  /** What the caller gets once all workers have stopped: any failure discards the whole result. */
  ghost function Outcome(s: State): Result<seq<Record>>
    requires !SomeFailed(s) ==> Initialised(s.out)
  {
    if SomeFailed(s) then Err(IoFault) else Ok(Values(s.out))
  }

  /**
   * In every interleaving of the workers: once all have stopped, either one has failed and nothing
   * is published, or every slot is initialised and the result is the spans one after the other.
   */
  lemma {:induction false} EveryScheduleReadsTheSpans(
      sources: seq<Source>, tasks: seq<Task>, bounds: seq<nat>, acts: seq<Act>)
    requires AllPlanned(sources) && Tiled(tasks, Joined(sources)) && Grouping(bounds, |tasks|)
    ensures var s := Run(tasks, bounds, Joined(sources), acts);
            AllStopped(bounds, s) ==>
              && (!SomeFailed(s) ==> Initialised(s.out))
              && Outcome(s) == if SomeFailed(s) then Err(IoFault) else Ok(Joined(sources))
  {
    var all := Joined(sources);
    var s := Run(tasks, bounds, all, acts);
    if AllStopped(bounds, s) && !SomeFailed(s) {
      forall j | 0 <= j < |all|
        ensures s.out[j] == Some(all[j])
      {
        var g := SomeGroupHas(tasks, bounds, all, j, |bounds| - 1);
        assert !Running(bounds, s, g) && !s.workers[g].failed;
        assert WorkerAt(tasks, bounds, s.workers[g], g) && GroupFilled(tasks, bounds, all, s, g);
      }
      assert Values(s.out) == all;
    }
  }

  /** Whatever a worker has filled stays as it is, whoever acts next. */
  lemma {:induction false} FilledStaysFilled(
      tasks: seq<Task>, bounds: seq<nat>, all: seq<Record>, s: State, act: Act, j: nat)
    requires Invariant(tasks, bounds, all, s) && j < |all| && s.out[j].Some?
    ensures var after := Next(tasks, bounds, all, s, act);
            |after.out| == |all| && after.out[j] == s.out[j] == Some(all[j])
  {
    var g := act.worker;
    var h := SomeGroupHas(tasks, bounds, all, j, |bounds| - 1);
    assert GroupFilled(tasks, bounds, all, s, h);
    if Running(bounds, s, g) {
      OwnGroup(tasks, bounds, all, s, act);
      assert GroupFilled(tasks, bounds, all, s, g);
      TaskInGroup(tasks, all, s.workers[g].task, bounds[g + 1]);
    }
  }

  // One worker

  method TotalRows(sources: seq<Source>) returns (total: nat)
    requires AllPlanned(sources)
    ensures total == |Joined(sources)|
  {
    total := 0;
    for i := 0 to |sources|
      invariant total == |Joined(sources[..i])|
    {
      JoinedSnoc(sources, i);
      total := total + sources[i].span.rows;
    }
    assert sources[..|sources|] == sources;
  }

  /** Every span comes with the open file of its chunk. */
  ghost predicate Opened(files: seq<ChunkFile>, sources: seq<Source>, everys: seq<nat>) {
    && |files| == |sources| == |everys|
    && forall i :: 0 <= i < |files| ==> Views(files[i], sources[i].layout, KlineKind, sources[i].rs, everys[i])
  }

  /** Sizes that do not fit the machine are refused; otherwise the spans are read one after the other. */
  method ReadSpans(files: seq<ChunkFile>, sources: seq<Source>, ghost everys: seq<nat>)
    returns (r: Result<seq<Record>>)
    requires AllPlanned(sources) && Opened(files, sources, everys)
    ensures r.Ok? ==> r.value == Joined(sources) && |r.value| * KlineKind.Size() < TWO_64
    ensures (forall i :: 0 <= i < |files| ==> files[i].Healthy()) ==>
              (r.Ok? <==> |Joined(sources)| * KlineKind.Size() < TWO_64)
  {
    var total := TotalRows(sources);
    if total * KlineKind.Size() >= TWO_64 {
      return Err(InvalidData);
    }
    var rows: seq<Record> := [];
    for i := 0 to |sources|
      invariant rows == Joined(sources[..i])
    {
      JoinedSnoc(sources, i);
      var read :- ReadSource(files[i], sources[i], everys[i]);
      rows := rows + read;
    }
    assert sources[..|sources|] == sources;
    return Ok(rows);
  }

  method ReadSource(file: ChunkFile, source: Source, ghost every: nat) returns (r: Result<seq<Record>>)
    requires Planned(source) && Views(file, source.layout, KlineKind, source.rs, every)
    ensures r.Ok? ==> r.value == Content(source)
    ensures file.Healthy() ==> r.Ok?
  {
    var destination := new Record[source.span.rows](j => DEFAULT_RECORD);
    var _ :- ReadPlanned(file, source.layout, source.span, destination, source.first, source.rs, every);
    return Ok(destination[..]);
  }
}
