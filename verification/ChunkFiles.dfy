/** Reader-local cursors over one shared file, with short, interrupted and failing system calls. */
module ChunkFiles {
  import opened Wrappers
  import opened Bytes

  /** What the kernel does with one positioned read; a short read still makes progress unless at the end. */
  datatype Outcome = Signal | Short(limit: nat) | Full | Fault

  datatype SeekFrom = Start(at: u64) | Current(delta: i64) | End(back: i64)

  function Min(a: int, b: int): int {
    if a < b then a else b
  }

  function Available(bytes: seq<byte>, offset: nat): nat {
    if offset < |bytes| then |bytes| - offset else 0
  }

  /** How many bytes one positioned read of `n` bytes delivers. */
  function Delivered(bytes: seq<byte>, offset: nat, n: nat, outcome: Outcome): (count: nat)
    ensures count <= n && count <= Available(bytes, offset)
    ensures count == 0 <==> n == 0 || Available(bytes, offset) == 0
  {
    var most := Min(n, Available(bytes, offset));
    if outcome.Short? && most > 0 then Min(most, if outcome.limit == 0 then 1 else outcome.limit) else most
  }

  /** One `read`: the bytes delivered and the cursor afterwards; failures leave the cursor alone. */
  function ReadStep(bytes: seq<byte>, offset: u64, n: nat, outcome: Outcome): (step: (u64, Result<seq<byte>>))
    requires |bytes| < TWO_63
    ensures step.1.Ok? ==> step.0 == offset + |step.1.value| && |step.1.value| <= n
    ensures step.1.Err? ==> step.0 == offset
  {
    if n == 0 then (offset, Ok([]))
    else if outcome.Signal? then (offset, Err(Interrupted))
    else if outcome.Fault? then (offset, Err(IoFault))
    else
      var count := Delivered(bytes, offset, n, outcome);
      (offset + count, Ok(if count == 0 then [] else bytes[offset..offset + count]))
  }

  function SeekTarget(size: nat, offset: u64, pos: SeekFrom): int {
    match pos
    case Start(at) => at
    case Current(delta) => offset + delta
    case End(back) => size + back
  }

  /** `checked_add_signed`. */
  function CheckedAddSigned(base: u64, delta: i64): Option<u64> {
    if 0 <= base + delta < TWO_64 then Some(base + delta) else None
  }

  /** One `seek`; outside the u64 range it fails and leaves the cursor alone. */
  function SeekStep(size: nat, offset: u64, pos: SeekFrom): (step: (u64, Result<seq<byte>>)) {
    var target := SeekTarget(size, offset, pos);
    if 0 <= target < TWO_64 then (target, Ok([])) else (offset, Err(InvalidInput))
  }

  /** The bytes an exact read must deliver. */
  function Exactly(bytes: seq<byte>, offset: nat, n: nat): seq<byte>
    requires n == 0 || offset + n <= |bytes|
  {
    if n == 0 then [] else bytes[offset..offset + n]
  }

  class ChunkFile {
    const bytes: seq<byte>
    var offset: u64
    /** What the kernel will do with the coming reads; reads beyond the list are full. */
    var outcomes: seq<Outcome>

    ghost predicate Valid()
    {
      |bytes| < TWO_63
    }

    /** No coming system call fails hard. */
    ghost predicate Healthy()
      reads this
    {
      Fault !in outcomes
    }

    constructor (bytes: seq<byte>, outcomes: seq<Outcome>)
      requires |bytes| < TWO_63
      ensures Valid() && this.bytes == bytes && this.outcomes == outcomes && offset == 0
    {
      this.bytes, this.outcomes, this.offset := bytes, outcomes, 0;
    }

    method Seek(pos: SeekFrom) returns (r: Result<u64>)
      requires Valid()
      modifies this`offset
      ensures r.Ok? <==> 0 <= SeekTarget(|bytes|, old(offset), pos) < TWO_64
      ensures r.Ok? ==> r.value == offset == SeekTarget(|bytes|, old(offset), pos)
      ensures r.Err? ==> offset == old(offset)
    {
      var target :=
        match pos
        case Start(at) => Some(at)
        case Current(delta) => CheckedAddSigned(offset, delta)
        case End(back) => CheckedAddSigned(|bytes|, back);
      if target.None? {
        return Err(InvalidInput);
      }
      offset := target.value;
      return Ok(offset);
    }

    /** `seek(SeekFrom::Start(at))`, which every u64 position satisfies. */
    method SeekTo(at: u64)
      requires Valid()
      modifies this`offset
      ensures offset == at
    {
      var _ := Seek(Start(at));
    }

    method Read(n: nat) returns (r: Result<seq<byte>>)
      requires Valid()
      modifies this
      ensures var outcome := if n > 0 && old(outcomes) != [] then old(outcomes)[0] else Full;
              (offset, r) == ReadStep(bytes, old(offset), n, outcome)
      ensures outcomes == if n > 0 && old(outcomes) != [] then old(outcomes)[1..] else old(outcomes)
    {
      var outcome := Full;
      if n > 0 && outcomes != [] {
        outcome, outcomes := outcomes[0], outcomes[1..];
      }
      var step := ReadStep(bytes, offset, n, outcome);
      offset := step.0;
      return step.1;
    }

    /**
     * However the kernel splits or interrupts the reads, success means exactly the requested
     * bytes, and without a hard fault the only failure is running past the end.
     */
    method ReadExact(n: nat) returns (r: Result<seq<byte>>)
      requires Valid()
      modifies this
      ensures r.Ok? ==> (n == 0 || old(offset) + n <= |bytes|)
      ensures r.Ok? ==> r.value == Exactly(bytes, old(offset), n) && offset == old(offset) + n
      ensures old(Healthy()) ==> Healthy()
      ensures old(Healthy()) ==> (r.Ok? <==> n == 0 || old(offset) + n <= |bytes|)
      ensures old(Healthy()) && r.Err? ==> r.error == UnexpectedEof
    {
      var got: seq<byte> := [];
      while |got| < n
        invariant |got| <= n && offset == old(offset) + |got|
        invariant got != [] ==> offset <= |bytes|
        invariant got == Exactly(bytes, old(offset), |got|)
        invariant old(Healthy()) ==> Healthy()
        decreases n - |got|, |outcomes|
      {
        var step := Read(n - |got|);
        if step.Ok? {
          if step.value == [] {
            return Err(UnexpectedEof);
          }
          got := got + step.value;
        } else if step.error != Interrupted {
          return Err(step.error);
        }
      }
      return Ok(got);
    }
  }

  // Readers sharing a file

  datatype Op = DoSeek(pos: SeekFrom) | DoRead(n: nat, outcome: Outcome)

  function Apply(bytes: seq<byte>, offset: u64, op: Op): (u64, Result<seq<byte>>)
    requires |bytes| < TWO_63
  {
    match op
    case DoSeek(pos) => SeekStep(|bytes|, offset, pos)
    case DoRead(n, outcome) => ReadStep(bytes, offset, n, outcome)
  }

  /** One reader alone: what each of its calls returns. */
  function Alone(bytes: seq<byte>, offset: u64, ops: seq<Op>): seq<Result<seq<byte>>>
    requires |bytes| < TWO_63
    decreases |ops|
  {
    if ops == [] then []
    else
      var step := Apply(bytes, offset, ops[0]);
      [step.1] + Alone(bytes, step.0, ops[1..])
  }

  /** The calls of a reader that succeed. */
  function Succeeding(bytes: seq<byte>, offset: u64, ops: seq<Op>): seq<Op>
    requires |bytes| < TWO_63
    decreases |ops|
  {
    if ops == [] then []
    else
      var step := Apply(bytes, offset, ops[0]);
      (if step.1.Ok? then [ops[0]] else []) + Succeeding(bytes, step.0, ops[1..])
  }

  function Successes(results: seq<Result<seq<byte>>>): seq<Result<seq<byte>>> {
    if results == [] then [] else (if results[0].Ok? then [results[0]] else []) + Successes(results[1..])
  }

  /** Failed seeks and reads leave no trace: without them the other calls return what they did. */
  lemma {:induction false} FailuresLeaveNoTrace(bytes: seq<byte>, offset: u64, ops: seq<Op>)
    requires |bytes| < TWO_63
    ensures Alone(bytes, offset, Succeeding(bytes, offset, ops)) == Successes(Alone(bytes, offset, ops))
    decreases |ops|
  {
    if ops != [] {
      var step := Apply(bytes, offset, ops[0]);
      var rest := Succeeding(bytes, step.0, ops[1..]);
      FailuresLeaveNoTrace(bytes, step.0, ops[1..]);
      assert Alone(bytes, offset, ops)[1..] == Alone(bytes, step.0, ops[1..]);
      if step.1.Ok? {
        assert ([ops[0]] + rest)[1..] == rest;
      } else {
        assert step.0 == offset;
        assert Succeeding(bytes, offset, ops) == rest;
      }
    }
  }

  /** The bytes of all successful calls, in order. */
  function Joined(results: seq<Result<seq<byte>>>): seq<byte> {
    if results == [] then [] else (if results[0].Ok? then results[0].value else []) + Joined(results[1..])
  }

  /** The bytes are a stretch of the file, or there are none. */
  predicate Stretch(bytes: seq<byte>, offset: nat, got: seq<byte>) {
    got == [] || (offset + |got| <= |bytes| && got == bytes[offset..offset + |got|])
  }

  lemma StretchesJoin(bytes: seq<byte>, offset: nat, a: seq<byte>, b: seq<byte>)
    requires Stretch(bytes, offset, a) && Stretch(bytes, offset + |a|, b)
    ensures Stretch(bytes, offset, a + b)
  {
    if b == [] {
      assert a + b == a;
    }
  }

  lemma {:induction false} OneRead(bytes: seq<byte>, offset: u64, n: nat, outcome: Outcome)
    requires |bytes| < TWO_63
    ensures var step := ReadStep(bytes, offset, n, outcome);
            var got := if step.1.Ok? then step.1.value else [];
            Stretch(bytes, offset, got) && step.0 == offset + |got|
  {
  }

  lemma {:induction false} JoinedCons(bytes: seq<byte>, offset: u64, ops: seq<Op>)
    requires |bytes| < TWO_63 && ops != []
    ensures var step := Apply(bytes, offset, ops[0]);
            Joined(Alone(bytes, offset, ops)) ==
              (if step.1.Ok? then step.1.value else []) + Joined(Alone(bytes, step.0, ops[1..]))
  {
    var step := Apply(bytes, offset, ops[0]);
    assert Alone(bytes, offset, ops)[1..] == Alone(bytes, step.0, ops[1..]);
  }

  /** However reads are sized, split, interrupted or failing, together they deliver the file from the cursor on. */
  lemma {:induction false} ReadsAreContiguous(bytes: seq<byte>, offset: u64, ops: seq<Op>)
    requires |bytes| < TWO_63 && forall i :: 0 <= i < |ops| ==> ops[i].DoRead?
    ensures Stretch(bytes, offset, Joined(Alone(bytes, offset, ops)))
    decreases |ops|
  {
    if ops != [] {
      var step := Apply(bytes, offset, ops[0]);
      OneRead(bytes, offset, ops[0].n, ops[0].outcome);
      JoinedCons(bytes, offset, ops);
      ReadsAreContiguous(bytes, step.0, ops[1..]);
      StretchesJoin(bytes, offset, if step.1.Ok? then step.1.value else [], Joined(Alone(bytes, step.0, ops[1..])));
    }
  }

  /** Any number of readers, their calls in one global order, each call tagged with its result. */
  function Together(bytes: seq<byte>, cursors: map<nat, u64>, calls: seq<(nat, Op)>): seq<(nat, Result<seq<byte>>)>
    requires |bytes| < TWO_63
    requires forall c :: c in calls ==> c.0 in cursors
    decreases |calls|
  {
    if calls == [] then []
    else
      var (who, op) := calls[0];
      assert calls[0] in calls;
      var step := Apply(bytes, cursors[who], op);
      [(who, step.1)] + Together(bytes, cursors[who := step.0], calls[1..])
  }

  function Mine<T>(who: nat, all: seq<(nat, T)>): seq<T> {
    if all == [] then []
    else (if all[0].0 == who then [all[0].1] else []) + Mine(who, all[1..])
  }

  /** No reader can tell that others share its file. */
  lemma {:induction false} ReadersAreIndependent(
      bytes: seq<byte>, cursors: map<nat, u64>, calls: seq<(nat, Op)>, who: nat)
    requires |bytes| < TWO_63
    requires forall c :: c in calls ==> c.0 in cursors
    requires who in cursors
    ensures Mine(who, Together(bytes, cursors, calls)) == Alone(bytes, cursors[who], Mine(who, calls))
  {
    if calls != [] {
      var (first, op) := calls[0];
      assert calls[0] in calls;
      var step := Apply(bytes, cursors[first], op);
      var rest := Together(bytes, cursors[first := step.0], calls[1..]);
      ReadersAreIndependent(bytes, cursors[first := step.0], calls[1..], who);
      assert Together(bytes, cursors, calls) == [(first, step.1)] + rest;
      assert ([(first, step.1)] + rest)[1..] == rest;
      if first == who {
        var mine := Mine(who, calls);
        assert mine == [op] + Mine(who, calls[1..]);
        assert mine[1..] == Mine(who, calls[1..]);
      } else {
        assert Mine(who, calls) == Mine(who, calls[1..]);
        assert Mine(who, [(first, step.1)] + rest) == Mine(who, rest);
      }
    }
  }
}
