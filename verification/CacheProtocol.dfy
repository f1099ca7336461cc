/**
 * Threads sharing the file cache and the layout cache. Each action is one critical section or
 * one unlocked file operation, so a sequence of actions is an arbitrary interleaving.
 */
module CacheProtocol {
  import opened Wrappers
  import opened Bytes
  import opened FileCache
  import opened Layout

  type Thread = nat

  /** The file every key names. Chunk files appear whole and never change, so this is a function. */
  type Disk = Key -> seq<byte>

  datatype Pc =
    | Idle
    | Wants(key: Key, forLayout: bool)
    | Missed(key: Key, forLayout: bool)
    | HasFile(key: Key, forLayout: bool, file: Handle)
    | Loading(key: Key, file: Handle)

  datatype Answer =
    | Reader(thread: Thread, key: Key, file: Handle)
    | LayoutOf(thread: Thread, key: Key, layout: ChunkLayout)
    | Failed(thread: Thread, key: Key, missing: bool)

  datatype System = System(
    cache: Cache,
    layouts: map<Key, ChunkLayout>,
    pcs: map<Thread, Pc>,
    present: set<Key>,
    answers: seq<Answer>)

  datatype Action =
    | StartOpen(thread: Thread, key: Key)
    | StartLayout(thread: Thread, key: Key)
    | LookUp(thread: Thread)
    | OpenFile(thread: Thread)
    | PublishFile(thread: Thread)
    | LoadLayout(thread: Thread)
    | DropLayout(key: Key)
    | DropFile(key: Key)
    | ClearLayouts
    | ClearFiles
    | FileAppears(key: Key)
    | FileVanishes(key: Key)

  const START := System(EMPTY, map[], map[], {}, [])

  function PcOf(s: System, t: Thread): Pc {
    if t in s.pcs then s.pcs[t] else Idle
  }

  /** A thread got its reader: it is done, or goes on to parse the layout. */
  function Deliver(s: System, t: Thread, k: Key, forLayout: bool, file: Handle): System {
    if forLayout then s.(pcs := s.pcs[t := Loading(k, file)])
    else s.(pcs := s.pcs[t := Idle], answers := s.answers + [Reader(t, k, file)])
  }

  function Fail(s: System, t: Thread, k: Key, missing: bool): System {
    s.(pcs := s.pcs[t := Idle], answers := s.answers + [Failed(t, k, missing)])
  }

  /** One action; an action that is not enabled changes nothing. */
  ghost function Next(disk: Disk, capacity: nat, s: System, a: Action): System
    requires capacity > 0 && Bounded(s.cache, capacity)
  {
    match a
    case StartOpen(t, k) =>
      if PcOf(s, t).Idle? then s.(pcs := s.pcs[t := Wants(k, false)]) else s
    case StartLayout(t, k) =>
      if !PcOf(s, t).Idle? then s
      else if k in s.layouts then s.(answers := s.answers + [LayoutOf(t, k, s.layouts[k])])
      else s.(pcs := s.pcs[t := Wants(k, true)])
    case LookUp(t) =>
      (match PcOf(s, t)
       case Wants(k, forLayout) =>
         if k in s.cache.files then Deliver(s.(cache := Touch(s.cache, k)), t, k, forLayout, s.cache.files[k].file)
         else s.(pcs := s.pcs[t := Missed(k, forLayout)])
       case _ => s)
    case OpenFile(t) =>
      (match PcOf(s, t)
       case Missed(k, forLayout) =>
         if k in s.present then s.(pcs := s.pcs[t := HasFile(k, forLayout, Handle(disk(k)))]) else Fail(s, t, k, true)
       case _ => s)
    case PublishFile(t) =>
      (match PcOf(s, t)
       case HasFile(k, forLayout, file) =>
         var reader := if k in s.cache.files then s.cache.files[k].file else file;
         Deliver(s.(cache := Insert(s.cache, capacity, k, file)), t, k, forLayout, reader)
       case _ => s)
    case LoadLayout(t) =>
      (match PcOf(s, t)
       case Loading(k, file) =>
         (match ParseLayout(file.bytes)
          case Ok(layout) =>
            s.(layouts := s.layouts[k := layout], pcs := s.pcs[t := Idle],
               answers := s.answers + [LayoutOf(t, k, layout)])
          case Err(_) => Fail(s, t, k, false))
       case _ => s)
    case DropLayout(k) => s.(layouts := s.layouts - {k})
    case DropFile(k) => s.(cache := Remove(s.cache, k))
    case ClearLayouts => s.(layouts := map[])
    case ClearFiles => s.(cache := EMPTY)
    case FileAppears(k) => s.(present := s.present + {k})
    case FileVanishes(k) => s.(present := s.present - {k})
  }

  // The invariant

  ghost predicate FilesTrue(disk: Disk, files: map<Key, CachedFile>) {
    forall k :: k in files ==> files[k].file == Handle(disk(k))
  }

  ghost predicate LayoutsTrue(disk: Disk, layouts: map<Key, ChunkLayout>) {
    forall k :: k in layouts ==> ParseLayout(disk(k)) == Ok(layouts[k])
  }

  ghost predicate PcTrue(disk: Disk, pc: Pc) {
    && (pc.HasFile? ==> pc.file == Handle(disk(pc.key)))
    && (pc.Loading? ==> pc.file == Handle(disk(pc.key)))
  }

  /** What an answer claims is what opening the file directly would have given. */
  ghost predicate AnswerTrue(disk: Disk, answer: Answer) {
    match answer
    case Reader(_, k, file) => file == Handle(disk(k))
    case LayoutOf(_, k, layout) => ParseLayout(disk(k)) == Ok(layout)
    case Failed(_, k, missing) => missing || ParseLayout(disk(k)).Err?
  }

  ghost predicate Invariant(disk: Disk, capacity: nat, s: System) {
    && Bounded(s.cache, capacity)
    && FilesTrue(disk, s.cache.files)
    && LayoutsTrue(disk, s.layouts)
    && (forall t :: t in s.pcs ==> PcTrue(disk, s.pcs[t]))
    && (forall i :: 0 <= i < |s.answers| ==> AnswerTrue(disk, s.answers[i]))
  }

  lemma {:induction false} DeliverKeeps(
      disk: Disk, capacity: nat, s: System, t: Thread, k: Key, forLayout: bool, file: Handle)
    requires Invariant(disk, capacity, s) && file == Handle(disk(k))
    ensures Invariant(disk, capacity, Deliver(s, t, k, forLayout, file))
  {
  }

  lemma {:induction false} PublishKeeps(disk: Disk, capacity: nat, s: System, t: Thread)
    requires capacity > 0 && Invariant(disk, capacity, s)
    ensures Invariant(disk, capacity, Next(disk, capacity, s, PublishFile(t)))
  {
    if PcOf(s, t).HasFile? {
      var pc := s.pcs[t];
      assert PcTrue(disk, pc);
      InsertKeepsInvariant(s.cache, capacity, pc.key, pc.file);
      var stored := s.(cache := Insert(s.cache, capacity, pc.key, pc.file));
      assert FilesTrue(disk, stored.cache.files);
      assert Invariant(disk, capacity, stored);
      var reader := if pc.key in s.cache.files then s.cache.files[pc.key].file else pc.file;
      DeliverKeeps(disk, capacity, stored, t, pc.key, pc.forLayout, reader);
    }
  }

  lemma {:induction false} LookUpKeeps(disk: Disk, capacity: nat, s: System, t: Thread)
    requires capacity > 0 && Invariant(disk, capacity, s)
    ensures Invariant(disk, capacity, Next(disk, capacity, s, LookUp(t)))
  {
    if PcOf(s, t).Wants? && s.pcs[t].key in s.cache.files {
      var pc := s.pcs[t];
      var touched := s.(cache := Touch(s.cache, pc.key));
      assert Invariant(disk, capacity, touched);
      DeliverKeeps(disk, capacity, touched, t, pc.key, pc.forLayout, s.cache.files[pc.key].file);
    }
  }

  lemma {:induction false} MovePcKeeps(disk: Disk, capacity: nat, s: System, t: Thread, pc: Pc)
    requires Invariant(disk, capacity, s) && PcTrue(disk, pc)
    ensures Invariant(disk, capacity, s.(pcs := s.pcs[t := pc]))
  {
  }

  lemma {:induction false} AnswerKeeps(disk: Disk, capacity: nat, s: System, answer: Answer)
    requires Invariant(disk, capacity, s) && AnswerTrue(disk, answer)
    ensures Invariant(disk, capacity, s.(answers := s.answers + [answer]))
  {
  }

  lemma {:induction false} FailKeeps(disk: Disk, capacity: nat, s: System, t: Thread, k: Key, missing: bool)
    requires Invariant(disk, capacity, s) && (missing || ParseLayout(disk(k)).Err?)
    ensures Invariant(disk, capacity, Fail(s, t, k, missing))
  {
    MovePcKeeps(disk, capacity, s, t, Idle);
    AnswerKeeps(disk, capacity, s.(pcs := s.pcs[t := Idle]), Failed(t, k, missing));
  }

  lemma {:induction false} LoadKeeps(disk: Disk, capacity: nat, s: System, t: Thread)
    requires capacity > 0 && Invariant(disk, capacity, s)
    ensures Invariant(disk, capacity, Next(disk, capacity, s, LoadLayout(t)))
  {
    if PcOf(s, t).Loading? {
      var pc := s.pcs[t];
      assert PcTrue(disk, pc);
      if ParseLayout(pc.file.bytes).Ok? {
        var layout := ParseLayout(pc.file.bytes).value;
        var cached := s.(layouts := s.layouts[pc.key := layout]);
        assert Invariant(disk, capacity, cached);
        MovePcKeeps(disk, capacity, cached, t, Idle);
        AnswerKeeps(disk, capacity, cached.(pcs := s.pcs[t := Idle]), LayoutOf(t, pc.key, layout));
      } else {
        FailKeeps(disk, capacity, s, t, pc.key, false);
      }
    }
  }

  lemma {:induction false} StartKeeps(disk: Disk, capacity: nat, s: System, a: Action)
    requires capacity > 0 && Invariant(disk, capacity, s) && (a.StartOpen? || a.StartLayout?)
    ensures Invariant(disk, capacity, Next(disk, capacity, s, a))
  {
    MovePcKeeps(disk, capacity, s, a.thread, Wants(a.key, a.StartLayout?));
    if a.StartLayout? && a.key in s.layouts {
      AnswerKeeps(disk, capacity, s, LayoutOf(a.thread, a.key, s.layouts[a.key]));
    }
  }

  lemma {:induction false} OpenKeeps(disk: Disk, capacity: nat, s: System, t: Thread)
    requires capacity > 0 && Invariant(disk, capacity, s)
    ensures Invariant(disk, capacity, Next(disk, capacity, s, OpenFile(t)))
  {
    if PcOf(s, t).Missed? {
      var pc := s.pcs[t];
      MovePcKeeps(disk, capacity, s, t, HasFile(pc.key, pc.forLayout, Handle(disk(pc.key))));
      FailKeeps(disk, capacity, s, t, pc.key, true);
    }
  }

  lemma {:induction false} StepKeepsInvariant(disk: Disk, capacity: nat, s: System, a: Action)
    requires capacity > 0 && Invariant(disk, capacity, s)
    ensures Invariant(disk, capacity, Next(disk, capacity, s, a))
  {
    match a
    case StartOpen(_, _) => StartKeeps(disk, capacity, s, a);
    case StartLayout(_, _) => StartKeeps(disk, capacity, s, a);
    case LookUp(t) => LookUpKeeps(disk, capacity, s, t);
    case OpenFile(t) => OpenKeeps(disk, capacity, s, t);
    case PublishFile(t) => PublishKeeps(disk, capacity, s, t);
    case LoadLayout(t) => LoadKeeps(disk, capacity, s, t);
    case DropFile(k) => RemoveKeepsInvariant(s.cache, capacity, k);
    case _ =>
  }

  // Whole runs

  ghost function Run(disk: Disk, capacity: nat, actions: seq<Action>): (s: System)
    requires capacity > 0
    ensures Invariant(disk, capacity, s)
  {
    if actions == [] then START
    else
      var before := Run(disk, capacity, actions[..|actions| - 1]);
      StepKeepsInvariant(disk, capacity, before, actions[|actions| - 1]);
      Next(disk, capacity, before, actions[|actions| - 1])
  }

  /**
   * In every interleaving: the queue lists each cached key once, queue and map have equal size
   * within the capacity, and every reader or layout handed out is that of the key's own file.
   */
  lemma {:induction false} EveryInterleavingIsSafe(disk: Disk, capacity: nat, actions: seq<Action>)
    requires capacity > 0
    ensures var s := Run(disk, capacity, actions);
            && Consistent(s.cache)
            && |s.cache.order| == |s.cache.files| <= capacity
            && forall i :: 0 <= i < |s.answers| ==> AnswerTrue(disk, s.answers[i])
  {
    QueueAndMapAgree(Run(disk, capacity, actions).cache);
  }

  /** Answers are never taken back: a longer run only adds to them. */
  lemma {:induction false} AnswersAreFinal(disk: Disk, capacity: nat, actions: seq<Action>, more: seq<Action>)
    requires capacity > 0
    ensures Run(disk, capacity, actions).answers <= Run(disk, capacity, actions + more).answers
    decreases |more|
  {
    if more == [] {
      assert actions + more == actions;
    } else {
      var n := |more| - 1;
      AnswersAreFinal(disk, capacity, actions, more[..n]);
      assert (actions + more)[..|actions + more| - 1] == actions + more[..n];
      assert (actions + more)[|actions + more| - 1] == more[n];
      AnswersGrow(disk, capacity, Run(disk, capacity, actions + more[..n]), more[n]);
    }
  }

  lemma {:induction false} AnswersGrow(disk: Disk, capacity: nat, s: System, a: Action)
    requires capacity > 0 && Bounded(s.cache, capacity)
    ensures s.answers <= Next(disk, capacity, s, a).answers
  {
  }

  /** An answer that a step adds; if it reports a missing file, a thread opened a file that is not there. */
  ghost predicate Adds(s: System, a: Action, answer: Answer) {
    answer.Failed? && answer.missing ==> a == OpenFile(answer.thread) && answer.key !in s.present
  }

  /** A step adds at most one answer. */
  lemma {:induction false} NewAnswer(disk: Disk, capacity: nat, s: System, a: Action)
    requires capacity > 0 && Bounded(s.cache, capacity)
    ensures var after := Next(disk, capacity, s, a).answers;
            after == s.answers || (|after| == |s.answers| + 1 && after[..|s.answers|] == s.answers)
    ensures var after := Next(disk, capacity, s, a).answers;
            after != s.answers ==> Adds(s, a, after[|after| - 1])
  {
  }

  /** Step `n` of the run opened the file for this answer and found it absent. */
  ghost predicate FoundAbsent(disk: Disk, capacity: nat, actions: seq<Action>, answer: Answer, n: nat)
    requires capacity > 0
  {
    n < |actions| && actions[n] == OpenFile(answer.thread) && answer.key !in Run(disk, capacity, actions[..n]).present
  }

  lemma FoundEarlier(disk: Disk, capacity: nat, actions: seq<Action>, m: nat, answer: Answer, n: nat)
    requires capacity > 0 && m <= |actions| && FoundAbsent(disk, capacity, actions[..m], answer, n)
    ensures FoundAbsent(disk, capacity, actions, answer, n)
  {
    assert actions[..m][..n] == actions[..n];
  }

  /** Some step of the run opened the file for this answer and found it absent. */
  ghost predicate Excused(disk: Disk, capacity: nat, actions: seq<Action>, answer: Answer)
    requires capacity > 0
  {
    exists n: nat :: FoundAbsent(disk, capacity, actions, answer, n)
  }

  lemma ExcusedEarlier(disk: Disk, capacity: nat, actions: seq<Action>, m: nat, answer: Answer)
    requires capacity > 0 && m <= |actions| && Excused(disk, capacity, actions[..m], answer)
    ensures Excused(disk, capacity, actions, answer)
  {
    var n: nat :| FoundAbsent(disk, capacity, actions[..m], answer, n);
    FoundEarlier(disk, capacity, actions, m, answer, n);
  }

  /** An answer of a run was given before its last step, or the last step adds it. */
  lemma {:induction false} OldOrNew(disk: Disk, capacity: nat, actions: seq<Action>, answer: Answer)
    requires capacity > 0 && answer in Run(disk, capacity, actions).answers
    ensures actions != []
    ensures var before := Run(disk, capacity, actions[..|actions| - 1]);
            answer in before.answers || Adds(before, actions[|actions| - 1], answer)
  {
    if actions == [] {
      assert false;
    }
    var before := Run(disk, capacity, actions[..|actions| - 1]);
    NewAnswer(disk, capacity, before, actions[|actions| - 1]);
    InLonger(before.answers, Run(disk, capacity, actions).answers, answer);
  }

  lemma InLonger(before: seq<Answer>, after: seq<Answer>, answer: Answer)
    requires after == before || (|after| == |before| + 1 && after[..|before|] == before)
    requires answer in after
    ensures answer in before || (after != before && answer == after[|after| - 1])
  {
  }

  /** Every "missing file" ever answered was true when the thread tried to open the file. */
  lemma {:induction false} MissingWasAbsent(disk: Disk, capacity: nat, actions: seq<Action>, answer: Answer)
    requires capacity > 0 && answer in Run(disk, capacity, actions).answers && answer.Failed? && answer.missing
    ensures Excused(disk, capacity, actions, answer)
    decreases |actions|
  {
    OldOrNew(disk, capacity, actions, answer);
    var m := |actions| - 1;
    if answer in Run(disk, capacity, actions[..m]).answers {
      MissingWasAbsent(disk, capacity, actions[..m], answer);
      ExcusedEarlier(disk, capacity, actions, m, answer);
    } else {
      assert FoundAbsent(disk, capacity, actions, answer, m);
    }
  }

  // What a run does achieve

  /** A thread that hits a key protects it from the next insertion, if another key is unreferenced. */
  lemma {:induction false} HitProtects(disk: Disk, capacity: nat, s: System, t: Thread, u: Thread, cold: Key)
    requires capacity > 0 && Invariant(disk, capacity, s) && t != u
    requires PcOf(s, t).Wants? && PcOf(s, t).key in s.cache.files && PcOf(s, u).HasFile?
    requires |s.cache.order| == capacity && PcOf(s, u).key !in s.cache.files
    requires cold in s.cache.files && cold != PcOf(s, t).key && !s.cache.files[cold].referenced
    ensures var hit := Next(disk, capacity, s, LookUp(t));
            && Bounded(hit.cache, capacity)
            && PcOf(s, t).key in Next(disk, capacity, hit, PublishFile(u)).cache.files
  {
    var hit := Next(disk, capacity, s, LookUp(t));
    StepKeepsInvariant(disk, capacity, s, LookUp(t));
    HitMarks(disk, capacity, s, t, u);
    PublishedCache(disk, capacity, hit, u);
    HitSurvivesInsertion(s.cache, hit.cache, capacity, PcOf(s, t).key, cold, PcOf(s, u).key, PcOf(s, u).file);
  }

  lemma {:induction false} HitMarks(disk: Disk, capacity: nat, s: System, t: Thread, u: Thread)
    requires capacity > 0 && Bounded(s.cache, capacity) && t != u
    requires PcOf(s, t).Wants? && PcOf(s, t).key in s.cache.files
    ensures var hit, k := Next(disk, capacity, s, LookUp(t)), PcOf(s, t).key;
            && hit.cache == Cache(s.cache.order, s.cache.files[k := CachedFile(s.cache.files[k].file, true)])
            && PcOf(hit, u) == PcOf(s, u)
  {
  }

  lemma {:induction false} PublishedCache(disk: Disk, capacity: nat, s: System, u: Thread)
    requires capacity > 0 && Bounded(s.cache, capacity) && PcOf(s, u).HasFile?
    ensures Next(disk, capacity, s, PublishFile(u)).cache ==
              Insert(s.cache, capacity, PcOf(s, u).key, PcOf(s, u).file)
  {
  }

  lemma {:induction false} StartStep(disk: Disk, capacity: nat, s: System, t: Thread, k: Key)
    requires capacity > 0 && Bounded(s.cache, capacity) && PcOf(s, t).Idle?
    ensures Next(disk, capacity, s, StartOpen(t, k)) == s.(pcs := s.pcs[t := Wants(k, false)])
    ensures k in s.layouts ==>
              Next(disk, capacity, s, StartLayout(t, k)) == s.(answers := s.answers + [LayoutOf(t, k, s.layouts[k])])
  {
  }

  lemma {:induction false} LookUpStep(disk: Disk, capacity: nat, s: System, t: Thread, k: Key)
    requires capacity > 0 && Bounded(s.cache, capacity) && PcOf(s, t) == Wants(k, false)
    ensures var after := Next(disk, capacity, s, LookUp(t));
            && after.present == s.present
            && (if k in s.cache.files then
                  PcOf(after, t).Idle? && after.answers == s.answers + [Reader(t, k, s.cache.files[k].file)]
                else
                  PcOf(after, t) == Missed(k, false) && after.answers == s.answers && after.cache == s.cache)
  {
  }

  lemma {:induction false} OpenStep(disk: Disk, capacity: nat, s: System, t: Thread)
    requires capacity > 0 && Bounded(s.cache, capacity)
    ensures PcOf(s, t).Idle? ==>
              && Next(disk, capacity, s, OpenFile(t)) == s
              && Next(disk, capacity, s, PublishFile(t)) == s
    ensures PcOf(s, t).Missed? && PcOf(s, t).key in s.present ==>
              var pc := PcOf(s, t);
              Next(disk, capacity, s, OpenFile(t)) ==
                s.(pcs := s.pcs[t := HasFile(pc.key, pc.forLayout, Handle(disk(pc.key)))])
  {
  }

  lemma {:induction false} PublishStep(disk: Disk, capacity: nat, s: System, t: Thread, k: Key, file: Handle)
    requires capacity > 0 && Bounded(s.cache, capacity) && k !in s.cache.files
    requires PcOf(s, t) == HasFile(k, false, file)
    ensures var after := Next(disk, capacity, s, PublishFile(t));
            PcOf(after, t).Idle? && after.answers == s.answers + [Reader(t, k, file)]
  {
  }

  /** A thread left alone gets a reader of the file, whether the key was cached or the file has to be opened. */
  lemma {:induction false} AloneServed(disk: Disk, capacity: nat, s: System, t: Thread, k: Key)
    requires capacity > 0 && Invariant(disk, capacity, s) && PcOf(s, t).Idle? && k in s.present
    ensures Alone(disk, capacity, s, t, k).answers == s.answers + [Reader(t, k, Handle(disk(k)))]
    ensures PcOf(Alone(disk, capacity, s, t, k), t).Idle?
  {
    StartStep(disk, capacity, s, t, k);
    var s1 := s.(pcs := s.pcs[t := Wants(k, false)]);
    StepKeepsInvariant(disk, capacity, s, StartOpen(t, k));
    LookUpStep(disk, capacity, s1, t, k);
    StepKeepsInvariant(disk, capacity, s1, LookUp(t));
    var s2 := Next(disk, capacity, s1, LookUp(t));
    OpenStep(disk, capacity, s2, t);
    if k !in s.cache.files {
      StepKeepsInvariant(disk, capacity, s2, OpenFile(t));
      PublishStep(disk, capacity, Next(disk, capacity, s2, OpenFile(t)), t, k, Handle(disk(k)));
    }
  }

  /** The four steps of one `open`, with nobody in between. */
  ghost function Alone(disk: Disk, capacity: nat, s: System, t: Thread, k: Key): System
    requires capacity > 0 && Invariant(disk, capacity, s)
  {
    StepKeepsInvariant(disk, capacity, s, StartOpen(t, k));
    var s1 := Next(disk, capacity, s, StartOpen(t, k));
    StepKeepsInvariant(disk, capacity, s1, LookUp(t));
    var s2 := Next(disk, capacity, s1, LookUp(t));
    StepKeepsInvariant(disk, capacity, s2, OpenFile(t));
    Next(disk, capacity, Next(disk, capacity, s2, OpenFile(t)), PublishFile(t))
  }

  lemma {:induction false} LoadStep(disk: Disk, capacity: nat, s: System, t: Thread, k: Key, file: Handle)
    requires capacity > 0 && Bounded(s.cache, capacity)
    requires PcOf(s, t) == Loading(k, file) && ParseLayout(file.bytes).Ok?
    ensures var layout := ParseLayout(file.bytes).value;
            Next(disk, capacity, s, LoadLayout(t)) ==
              s.(layouts := s.layouts[k := layout], pcs := s.pcs[t := Idle],
                 answers := s.answers + [LayoutOf(t, k, layout)])
  {
  }

  /** A parsed layout stays cached: the next thread that asks gets it at once. */
  lemma {:induction false} LayoutIsCached(disk: Disk, capacity: nat, s: System, t: Thread, u: Thread)
    requires capacity > 0 && Invariant(disk, capacity, s) && t != u
    requires PcOf(s, t).Loading? && PcOf(s, u).Idle? && ParseLayout(disk(PcOf(s, t).key)).Ok?
    ensures var k := PcOf(s, t).key;
            var layout := ParseLayout(disk(k)).value;
            var loaded := Next(disk, capacity, s, LoadLayout(t));
            && Bounded(loaded.cache, capacity)
            && Next(disk, capacity, loaded, StartLayout(u, k)).answers
            == s.answers + [LayoutOf(t, k, layout)] + [LayoutOf(u, k, layout)]
  {
    assert PcTrue(disk, s.pcs[t]);
    LoadStep(disk, capacity, s, t, PcOf(s, t).key, Handle(disk(PcOf(s, t).key)));
    StartStep(disk, capacity, Next(disk, capacity, s, LoadLayout(t)), u, PcOf(s, t).key);
  }

  /** Dropping a file forgets that key and nothing else. */
  lemma {:induction false} DropForgets(disk: Disk, capacity: nat, s: System, k: Key)
    requires capacity > 0 && Bounded(s.cache, capacity)
    ensures var after := Next(disk, capacity, s, DropFile(k));
            && k !in after.cache.files && after.layouts == s.layouts
            && forall x :: x in s.cache.files && x != k ==> x in after.cache.files
  {
    RemoveExactly(s.cache, k);
  }

  /** Dropping a layout and clearing forget exactly what they name. */
  lemma {:induction false} ClearForgets(disk: Disk, capacity: nat, s: System, k: Key)
    requires capacity > 0 && Bounded(s.cache, capacity)
    ensures Next(disk, capacity, s, DropLayout(k)).layouts.Keys == s.layouts.Keys - {k}
    ensures Next(disk, capacity, s, DropLayout(k)).cache == s.cache
    ensures Next(disk, capacity, s, ClearFiles).cache == Cache([], map[])
    ensures Next(disk, capacity, s, ClearLayouts).layouts == map[]
  {
  }
}
