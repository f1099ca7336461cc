/** Sealing and verifying physical snapshots: the decisions, with hashing and file listing abstract. */
module Snapshot {
  import opened Wrappers

  datatype ChunkState = Active | Sealed | Merging | Replaced

  /** Everything below a root that the inventory covers: chunk states per series, and all other bytes. */
  datatype Content = Content(series: seq<seq<ChunkState>>, stamp: int, blob: seq<int>)

  datatype Manifest = Manifest(formatVersion: nat, digest: string, content: Content)

  /** A store root: its content, the snapshot file if there is one, and what recovery would report. */
  datatype Root = Root(content: Content, marker: Option<Manifest>, pendingRecovery: bool, clean: bool)

  type Digest = Content -> string

  predicate Verifies(digest: Digest, root: Root, expected: Option<string>) {
    && !root.pendingRecovery
    && root.marker.Some?
    && root.marker.value.formatVersion == 1
    && digest(root.marker.value.content) == root.marker.value.digest
    && (expected.Some? ==> expected.value == root.marker.value.digest)
    && root.content == root.marker.value.content
  }

  function VerifySnapshot(digest: Digest, root: Root, expected: Option<string>): (r: Result<Manifest>)
  {
    if Verifies(digest, root, expected) then Ok(root.marker.value) else Err(InvalidData)
  }

  predicate Settled(states: seq<ChunkState>) {
    forall i :: 0 <= i < |states| ==> states[i].Active? || states[i].Sealed?
  }

  function SealStates(states: seq<ChunkState>): (r: seq<ChunkState>)
    ensures |r| == |states|
    ensures forall i {:trigger r[i]} :: 0 <= i < |r| ==> r[i] == if states[i].Active? then Sealed else states[i]
  {
    seq(|states|, i requires 0 <= i < |states| => if states[i].Active? then Sealed else states[i])
  }

  /** Seals one series in place, refusing chunks in transition. */
  method SealSeries(states: seq<ChunkState>) returns (r: Result<seq<ChunkState>>, changed: bool)
    ensures r == if Settled(states) then Ok(SealStates(states)) else Err(InvalidData)
    ensures r.Ok? ==> (changed <==> r.value != states)
  {
    var sealed := states;
    changed := false;
    ghost var movedAt := 0;
    for i := 0 to |states|
      invariant |sealed| == |states|
      invariant forall k :: 0 <= k < i ==> states[k].Active? || states[k].Sealed?
      invariant forall k :: 0 <= k < |states| ==> sealed[k] == if k < i && states[k].Active? then Sealed else states[k]
      invariant changed ==> 0 <= movedAt < i && states[movedAt].Active?
      invariant !changed ==> sealed == states
    {
      match states[i]
      case Active =>
        sealed := sealed[i := Sealed];
        changed, movedAt := true, i;
      case Sealed =>
      case _ =>
        return Err(InvalidData), changed;
    }
    assert sealed == SealStates(states);
    assert changed ==> sealed[movedAt] != states[movedAt];
    r := Ok(sealed);
  }

  ghost predicate AllSettled(series: seq<seq<ChunkState>>) {
    forall i :: 0 <= i < |series| ==> Settled(series[i])
  }

  /** How many series come before the first one with a chunk in transition. */
  ghost function SettledPrefix(series: seq<seq<ChunkState>>): (n: nat)
    ensures n <= |series|
    ensures n == |series| <==> AllSettled(series)
    ensures forall i :: 0 <= i < n ==> Settled(series[i])
    ensures n < |series| ==> !Settled(series[n])
  {
    if series == [] || !Settled(series[0]) then 0 else 1 + SettledPrefix(series[1..])
  }

  ghost function SealFirst(series: seq<seq<ChunkState>>, n: nat): (r: seq<seq<ChunkState>>)
    requires n <= |series|
    ensures |r| == |series|
    ensures forall i {:trigger r[i]} :: 0 <= i < |r| ==> r[i] == if i < n then SealStates(series[i]) else series[i]
  {
    seq(|series|, i requires 0 <= i < |series| => if i < n then SealStates(series[i]) else series[i])
  }

  /** The content after sealing the first `n` series; the stamp moves only if some series changed. */
  ghost function SealedContent(c: Content, n: nat, now: int): Content
    requires n <= |c.series|
  {
    var series := SealFirst(c.series, n);
    Content(series, if series == c.series then c.stamp else now, c.blob)
  }

  /** A store that is not empty, scrubs clean and has no chunk in transition. */
  ghost predicate CanSeal(root: Root) {
    root.clean && root.content.series != [] && AllSettled(root.content.series)
  }

  /**
   * What sealing returns and leaves behind. A marked root is only verified. Otherwise recovery has
   * run, and a chunk in transition stops the loop with the series before it already sealed.
   */
  ghost function Sealing(digest: Digest, root: Root, now: int): (Result<Manifest>, Root) {
    if root.marker.Some? then (VerifySnapshot(digest, root, None), root)
    else if !root.clean || root.content.series == [] then (Err(InvalidData), root.(pendingRecovery := false))
    else
      var content := SealedContent(root.content, SettledPrefix(root.content.series), now);
      var after := root.(pendingRecovery := false, content := content);
      if CanSeal(root) then
        var manifest := Manifest(1, digest(content), content);
        (Ok(manifest), after.(marker := Some(manifest)))
      else
        (Err(InvalidData), after)
  }

  method SealSnapshot(digest: Digest, root: Root, now: int) returns (r: Result<Manifest>, after: Root)
    ensures (r, after) == Sealing(digest, root, now)
  {
    if root.marker.Some? {
      return VerifySnapshot(digest, root, None), root;
    }
    after := root.(pendingRecovery := false);
    if root.content.series == [] || !root.clean {
      return Err(InvalidData), after;
    }
    var failed;
    after, failed := SealEverySeries(after, now);
    if failed {
      return Err(InvalidData), after;
    }
    var manifest := Manifest(1, digest(after.content), after.content);
    after := after.(marker := Some(manifest));
    return Ok(manifest), after;
  }

  /** Saves each series' sealed states as it goes; stops at the first chunk in transition. */
  method SealEverySeries(root: Root, now: int) returns (after: Root, failed: bool)
    ensures failed <==> !AllSettled(root.content.series)
    ensures after == root.(content := SealedContent(root.content, SettledPrefix(root.content.series), now))
  {
    var content;
    content, failed := SealContent(root.content, now);
    after := root.(content := content);
  }

  method SealContent(c: Content, now: int) returns (after: Content, failed: bool)
    ensures failed <==> SettledPrefix(c.series) < |c.series|
    ensures after == SealedContent(c, SettledPrefix(c.series), now)
  {
    after := c;
    NothingSealed(c, now);
    ghost var prefix := SettledPrefix(c.series);
    for i := 0 to |c.series|
      invariant i <= prefix
      invariant after == SealedContent(c, i, now)
    {
      var sealed := SealNext(c, i, after, now);
      if sealed.Err? {
        return after, true;
      }
      after := sealed.value;
    }
    failed := false;
  }

  /** One turn: seals series `i` and saves it if anything changed. */
  method SealNext(c: Content, i: nat, before: Content, now: int) returns (r: Result<Content>)
    requires i < |c.series| && before == SealedContent(c, i, now)
    ensures r.Ok? <==> Settled(c.series[i])
    ensures r.Ok? ==> r.value == SealedContent(c, i + 1, now)
  {
    SealOneMore(c, i, now);
    var sealed, changed := SealSeries(c.series[i]);
    if sealed.Err? {
      return Err(sealed.error);
    }
    return Ok(if changed then Content(before.series[i := sealed.value], now, before.blob) else before);
  }

  lemma NothingSealed(c: Content, now: int)
    ensures SealedContent(c, 0, now) == c
  {
    assert SealFirst(c.series, 0) == c.series;
  }

  /** Sealing one more series changes that series only, and the stamp if it did change. */
  lemma {:induction false} SealOneMore(c: Content, i: nat, now: int)
    requires i < |c.series|
    ensures var before, sealed := SealedContent(c, i, now), SealStates(c.series[i]);
            SealedContent(c, i + 1, now) ==
              if sealed == c.series[i] then before else Content(before.series[i := sealed], now, c.blob)
  {
    var before, after := SealFirst(c.series, i), SealFirst(c.series, i + 1);
    assert after == before[i := SealStates(c.series[i])];
    if SealStates(c.series[i]) == c.series[i] {
      assert after == before;
    } else {
      assert after[i] != c.series[i];
    }
  }

  /** Sealing succeeds exactly on verified and on sealable roots; the result verifies and seals to itself. */
  lemma {:induction false} SealedRootVerifies(digest: Digest, root: Root, now: int, later: int)
    ensures var (r, after) := Sealing(digest, root, now);
            && (r.Ok? <==> if root.marker.Some? then Verifies(digest, root, None) else CanSeal(root))
            && (r.Ok? ==>
                  && after.marker == Some(r.value)
                  && Verifies(digest, after, None) && Verifies(digest, after, Some(r.value.digest))
                  && Sealing(digest, after, later) == (r, after))
  {
  }

  /** A chunk between two states, which sealing must not freeze. */
  predicate InTransition(state: ChunkState) {
    state == Merging || state == Replaced
  }

  predicate HasTransition(states: seq<ChunkState>) {
    exists k :: 0 <= k < |states| && InTransition(states[k])
  }

  /**
   * A root without a snapshot file is sealed exactly if it is clean, not empty and has no chunk in
   * transition; afterwards every chunk is sealed, nothing else has changed, and the digest is its content's.
   */
  lemma {:induction false} SealingExactly(digest: Digest, root: Root, now: int)
    requires root.marker.None?
    ensures Sealing(digest, root, now).0.Ok? <==>
              && root.clean && root.content.series != []
              && forall i, k :: 0 <= i < |root.content.series| && 0 <= k < |root.content.series[i]| ==>
                   !InTransition(root.content.series[i][k])
    ensures Sealing(digest, root, now).0.Ok? ==>
              var (r, after) := Sealing(digest, root, now);
              && r.value.digest == digest(after.content) && after.content.blob == root.content.blob
              && after.content.stamp ==
                   (if after.content.series == root.content.series then root.content.stamp else now)
              && |after.content.series| == |root.content.series|
              && (forall i :: 0 <= i < |root.content.series| ==>
                    |after.content.series[i]| == |root.content.series[i]|)
              && (forall i, k :: 0 <= i < |root.content.series| && 0 <= k < |root.content.series[i]| ==>
                    after.content.series[i][k] == Sealed)
  {
    var series := root.content.series;
    forall i | 0 <= i < |series|
      ensures Settled(series[i]) <==> forall k :: 0 <= k < |series[i]| ==> !InTransition(series[i][k])
    {
    }
    if CanSeal(root) {
      var after := Sealing(digest, root, now).1.content.series;
      forall i | 0 <= i < |series|
        ensures after[i] == SealStates(series[i]) && Settled(series[i])
      {
      }
    }
  }

  /**
   * A refused seal never marks the root, and moves chunks from active to sealed at most: nothing from
   * the first series with a chunk in transition on.
   */
  lemma {:induction false} RefusedSealKeepsData(digest: Digest, root: Root, now: int)
    requires Sealing(digest, root, now).0.Err?
    ensures var after := Sealing(digest, root, now).1;
            && after.marker == root.marker && after.content.blob == root.content.blob
            && |after.content.series| == |root.content.series|
            && (forall j, i :: 0 <= j <= i < |root.content.series| && HasTransition(root.content.series[j]) ==>
                  after.content.series[i] == root.content.series[i])
            && forall i :: 0 <= i < |root.content.series| ==>
                 || after.content.series[i] == root.content.series[i]
                 || after.content.series[i] == SealStates(root.content.series[i])
  {
    if root.marker.None? && root.clean {
      var n := SettledPrefix(root.content.series);
      forall j | 0 <= j < |root.content.series| && HasTransition(root.content.series[j])
        ensures n <= j
      {
        assert !Settled(root.content.series[j]);
      }
    }
  }

  // What a digest pins

  ghost predicate Injective(digest: Digest) {
    forall a, b :: digest(a) == digest(b) ==> a == b
  }

  /** Marker and content are those of the sealed root, and nothing waits to be recovered. */
  predicate Intact(sealed: Root, root: Root) {
    root.marker == sealed.marker && root.content == sealed.content && !root.pendingRecovery
  }

  /**
   * Against the digest of a sealed root, any root verifies exactly when it is that root untouched:
   * neither its content nor its snapshot file can have been replaced.
   */
  lemma {:induction false} PinnedDigestFixesRoot(digest: Digest, sealed: Root, root: Root)
    requires Injective(digest) && Verifies(digest, sealed, None)
    ensures Verifies(digest, root, Some(sealed.marker.value.digest)) <==> Intact(sealed, root)
  {
  }

  /** Without the digest every content verifies, once it comes with a snapshot file of its own. */
  lemma {:induction false} UnpinnedContentIsFree(digest: Digest, content: Content)
    ensures var manifest := Manifest(1, digest(content), content);
            Verifies(digest, Root(content, Some(manifest), false, true), None)
  {
  }
}
