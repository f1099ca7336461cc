/** The dataset catalog: manifest rows, immutable snapshot bindings, and publishing. */
module Registry {
  import opened Wrappers
  import opened Snapshot

  datatype Key = Key(datasetId: string, version: string)

  datatype Row = Row(
    datasetId: string, version: string, fastkRoot: string, source: string, market: string,
    startTs: int, endTs: int, schemaVersion: string, checksum: Option<string>, status: string, createdAt: int)

  datatype Binding = Binding(root: string, digest: string)

  datatype Catalog = Catalog(manifest: map<Key, Row>, bindings: map<Key, Binding>)

  type Roots = map<string, Root>

  const SEALED_STATUS: string := "sealed"

  function KeyOf(row: Row): Key {
    Key(row.datasetId, row.version)
  }

  predicate RowValidates(row: Row) {
    && !Blank(row.datasetId) && !Blank(row.version) && !Blank(row.fastkRoot)
    && !Blank(row.source) && !Blank(row.market) && !Blank(row.schemaVersion) && !Blank(row.status)
    && row.startTs <= row.endTs
  }

  // What the operations do

  /** Insert, or update unless the key is bound; a bound key only accepts its own row back. */
  ghost function Upserted(c: Catalog, row: Row): (Catalog, Result<()>) {
    var k := KeyOf(row);
    if !RowValidates(row) then (c, Err(InvalidInput))
    else if k !in c.manifest || k !in c.bindings then (c.(manifest := c.manifest[k := row]), Ok(()))
    else if c.manifest[k] == row then (c, Ok(()))
    else (c, Err(InvalidInput))
  }

  function Published(row: Row, digest: string): Row {
    row.(status := SEALED_STATUS, checksum := Some(digest))
  }

  ghost function Committed(c: Catalog, row: Row, digest: string): Catalog {
    Catalog(c.manifest[KeyOf(row) := Published(row, digest)], c.bindings[KeyOf(row) := Binding(row.fastkRoot, digest)])
  }

  /** Every binding has a sealed row with the same root and digest. */
  ghost predicate Bound(c: Catalog) {
    forall k :: k in c.bindings ==>
      && k in c.manifest
      && KeyOf(c.manifest[k]) == k
      && c.manifest[k].fastkRoot == c.bindings[k].root
      && c.manifest[k].checksum == Some(c.bindings[k].digest)
      && c.manifest[k].status == SEALED_STATUS
  }

  /** Nothing bound in the first catalog differs in the second. */
  ghost predicate Preserves(before: Catalog, after: Catalog) {
    forall k :: k in before.bindings && k in before.manifest ==>
      && k in after.bindings && after.bindings[k] == before.bindings[k]
      && k in after.manifest && after.manifest[k] == before.manifest[k]
  }

  /** The binding names this root, and the root still is what was sealed. */
  predicate StillBound(digest: Digest, roots: Roots, b: Binding, root: string) {
    b.root == root && b.root in roots && Verifies(digest, roots[b.root], Some(b.digest))
  }

  datatype World = World(catalog: Catalog, roots: Roots)

  /**
   * What publishing returns and leaves behind. A bound key is only verified. Otherwise the root is
   * sealed first, and what sealing did to it stays even if sealing or the transaction fails.
   */
  ghost function Publishing(digest: Digest, w: World, row: Row, now: int, fails: bool): (World, Result<Row>) {
    var k := KeyOf(row);
    if !RowValidates(row) then (w, Err(InvalidInput))
    else if k in w.catalog.bindings then (w, Republished(digest, w, row))
    else if row.fastkRoot !in w.roots then (w, Err(NotFound))
    else
      var (sealed, after) := Sealing(digest, w.roots[row.fastkRoot], now);
      var roots := w.roots[row.fastkRoot := after];
      if sealed.Err? then (World(w.catalog, roots), Err(sealed.error))
      else if fails then (World(w.catalog, roots), Err(IoFault))
      else (World(Committed(w.catalog, row, sealed.value.digest), roots), Ok(Published(row, sealed.value.digest)))
  }

  /** A bound key answers with its stored row while its root is still bound. */
  ghost function Republished(digest: Digest, w: World, row: Row): Result<Row>
    requires KeyOf(row) in w.catalog.bindings
  {
    var k := KeyOf(row);
    var b := w.catalog.bindings[k];
    if b.root != row.fastkRoot then Err(InvalidInput)
    else if b.root !in w.roots then Err(NotFound)
    else if StillBound(digest, w.roots, b, row.fastkRoot) && k in w.catalog.manifest then Ok(w.catalog.manifest[k])
    else Err(InvalidData)
  }

  class DatasetRegistry {
    var manifest: map<Key, Row>
    var bindings: map<Key, Binding>
    /** The file system below the roots, shared with everything else that touches it. */
    var roots: Roots
    const digest: Digest

    ghost function State(): Catalog
      reads this
    {
      Catalog(manifest, bindings)
    }

    constructor (digest: Digest, roots: Roots)
      ensures State() == Catalog(map[], map[]) && this.roots == roots && this.digest == digest
    {
      manifest, bindings := map[], map[];
      this.roots, this.digest := roots, digest;
    }

    method UpsertDataset(row: Row) returns (r: Result<()>)
      modifies this`manifest
      ensures (State(), r) == Upserted(old(State()), row)
    {
      if !RowValidates(row) {
        return Err(InvalidInput);
      }
      var k := KeyOf(row);
      var changed := k !in manifest || k !in bindings;
      if changed {
        manifest := manifest[k := row];
      }
      if !changed && manifest[k] != row {
        return Err(InvalidInput);
      }
      return Ok(());
    }

    /** `fails` says whether the transaction fails before it commits. */
    method PublishDataset(row: Row, now: int, fails: bool) returns (r: Result<Row>)
      modifies this
      ensures (World(State(), roots), r) == Publishing(digest, World(old(State()), old(roots)), row, now, fails)
      ensures old(Bound(State())) ==> Bound(State()) && Preserves(old(State()), State())
    {
      if !RowValidates(row) {
        return Err(InvalidInput);
      }
      var k := KeyOf(row);
      if k in bindings {
        var binding := bindings[k];
        if binding.root != row.fastkRoot {
          return Err(InvalidInput);
        }
        if binding.root !in roots {
          return Err(NotFound);
        }
        var _ :- VerifySnapshot(digest, roots[binding.root], Some(binding.digest));
        return if k in manifest then Ok(manifest[k]) else Err(InvalidData);
      }
      if row.fastkRoot !in roots {
        return Err(NotFound);
      }
      var sealed, after := SealSnapshot(digest, roots[row.fastkRoot], now);
      roots := roots[row.fastkRoot := after];
      var snapshot :- sealed;
      r := Commit(row, snapshot.digest, fails);
    }

    /** The transaction: the sealed row and the binding, or neither. */
    method Commit(row: Row, d: string, fails: bool) returns (r: Result<Row>)
      requires RowValidates(row) && KeyOf(row) !in bindings
      modifies this`manifest, this`bindings
      ensures old(Bound(State())) ==> Bound(State()) && Preserves(old(State()), State())
      ensures fails ==> r == Err(IoFault) && State() == old(State())
      ensures !fails ==> r == Ok(Published(row, d)) && State() == Committed(old(State()), row, d)
    {
      var savedManifest, savedBindings := manifest, bindings;
      SealedIsNotBlank();
      var upserted := UpsertDataset(Published(row, d));
      bindings := bindings[KeyOf(row) := Binding(row.fastkRoot, d)];
      if fails {
        manifest, bindings := savedManifest, savedBindings;
        return Err(IoFault);
      }
      return Ok(Published(row, d));
    }

    method GetDataset(k: Key) returns (r: Result<Option<Row>>)
      ensures r == if BlankKey(k) then Err(InvalidInput) else Ok(if k in manifest then Some(manifest[k]) else None)
    {
      if Blank(k.datasetId) || Blank(k.version) {
        return Err(InvalidInput);
      }
      return Ok(if k in manifest then Some(manifest[k]) else None);
    }

    /** The key's row may be handed out: it is unbound, or agrees with its binding and still verifies. */
    ghost predicate Available(k: Key)
      reads this
    {
      !BlankKey(k) &&
      (k in bindings ==> k in manifest && StillBound(digest, roots, bindings[k], manifest[k].fastkRoot))
    }

    /** A reference is handed out exactly while the key is available. */
    method DatasetRoot(k: Key) returns (r: Result<Option<string>>)
      ensures r.Ok? <==> Available(k)
      ensures r.Ok? ==> r.value == if k in manifest then Some(manifest[k].fastkRoot) else None
    {
      var row :- GetDataset(k);
      if k in bindings {
        var binding := bindings[k];
        if row.None? || row.value.fastkRoot != binding.root || binding.root !in roots {
          return Err(InvalidData);
        }
        var _ :- VerifySnapshot(digest, roots[binding.root], Some(binding.digest));
      }
      return Ok(if row.None? then None else Some(row.value.fastkRoot));
    }

    /** A reference resolves exactly if the registry holds its root for an available key. */
    method ResolveDatasetRef(k: Key, root: string) returns (r: Result<string>)
      ensures r.Ok? <==> Available(k) && k in manifest && manifest[k].fastkRoot == root
      ensures r.Ok? ==> r.value == root
    {
      var stored :- DatasetRoot(k);
      if stored.None? {
        return Err(NotFound);
      }
      if stored.value != root {
        return Err(InvalidInput);
      }
      return Ok(stored.value);
    }
  }

  predicate BlankKey(k: Key) {
    Blank(k.datasetId) || Blank(k.version)
  }

  lemma SealedIsNotBlank()
    ensures !Blank(SEALED_STATUS)
  {
    assert SEALED_STATUS[0] == 's';
  }

  // What the operations promise

  /** Which rows are refused whatever is stored. */
  predicate Malformed(row: Row) {
    || row.startTs > row.endTs
    || exists field :: field in {row.datasetId, row.version, row.fastkRoot, row.source, row.market,
                                 row.schemaVersion, row.status} && Blank(field)
  }

  /**
   * An upsert is refused exactly for malformed rows and for changes to a bound key, and then changes
   * nothing; otherwise the row is stored and every other key and all bindings stay.
   */
  lemma {:induction false} UpsertExactly(c: Catalog, row: Row)
    ensures var (after, r) := Upserted(c, row);
            var k := Key(row.datasetId, row.version);
            && (r.Err? <==> Malformed(row) || (k in c.bindings && k in c.manifest && c.manifest[k] != row))
            && (r.Err? ==> r.error == InvalidInput && after == c)
            && (r.Ok? ==> k in after.manifest && after.manifest[k] == row && after.bindings == c.bindings)
            && (forall x :: x != k ==>
                  (x in after.manifest <==> x in c.manifest) &&
                  (x in c.manifest ==> after.manifest[x] == c.manifest[x]))
  {
    MalformedExactly(row);
  }

  lemma MalformedExactly(row: Row)
    ensures Malformed(row) <==> !RowValidates(row)
  {
    var fields := {row.datasetId, row.version, row.fastkRoot, row.source, row.market, row.schemaVersion, row.status};
    assert row.datasetId in fields && row.version in fields && row.fastkRoot in fields && row.source in fields;
    assert row.market in fields && row.schemaVersion in fields && row.status in fields;
  }

  /**
   * A first publish succeeds exactly for a well-formed row whose root can be sealed, if the transaction
   * does. It answers the row with status and checksum filled in, stores it with its binding, and
   * leaves every other key alone.
   */
  lemma {:induction false} FirstPublish(digest: Digest, w: World, row: Row, now: int, fails: bool)
    requires KeyOf(row) !in w.catalog.bindings
    ensures var (after, r) := Publishing(digest, w, row, now, fails);
            var k := Key(row.datasetId, row.version);
            && (r.Ok? <==>
                  && !Malformed(row) && !fails && row.fastkRoot in w.roots
                  && var root := w.roots[row.fastkRoot];
                     if root.marker.Some? then Verifies(digest, root, None) else CanSeal(root))
            && (r.Err? ==> after.catalog == w.catalog)
            && (!Malformed(row) && row.fastkRoot in w.roots ==>
                  row.fastkRoot in after.roots &&
                  after.roots[row.fastkRoot] == Sealing(digest, w.roots[row.fastkRoot], now).1)
            && (r.Ok? ==>
                  && row.fastkRoot in after.roots && after.roots[row.fastkRoot].marker.Some?
                  && var d := after.roots[row.fastkRoot].marker.value.digest;
                     && d == digest(after.roots[row.fastkRoot].content)
                     && r.value == row.(status := "sealed", checksum := Some(d))
                     && after.catalog == Catalog(w.catalog.manifest[k := r.value],
                                                 w.catalog.bindings[k := Binding(row.fastkRoot, d)]))
            && (forall x :: x != row.fastkRoot ==>
                  (x in after.roots <==> x in w.roots) && (x in w.roots ==> after.roots[x] == w.roots[x]))
  {
    MalformedExactly(row);
    if row.fastkRoot in w.roots {
      SealedRootVerifies(digest, w.roots[row.fastkRoot], now, now);
    }
  }

  // Whole runs

  /** Calls on the registry, and anything the outside world may do to a root. */
  datatype Op =
    | Upsert(row: Row)
    | Publish(row: Row, now: int, fails: bool)
    | Touch(root: string, to: Root)

  ghost function Next(digest: Digest, w: World, op: Op): World {
    match op
    case Upsert(row) => w.(catalog := Upserted(w.catalog, row).0)
    case Touch(root, to) => w.(roots := w.roots[root := to])
    case Publish(row, now, fails) => Publishing(digest, w, row, now, fails).0
  }

  ghost function Run(digest: Digest, w: World, ops: seq<Op>): World
    decreases |ops|
  {
    if ops == [] then w else Run(digest, Next(digest, w, ops[0]), ops[1..])
  }

  lemma {:induction false} StepKeepsBindings(digest: Digest, w: World, op: Op)
    requires Bound(w.catalog)
    ensures Bound(Next(digest, w, op).catalog) && Preserves(w.catalog, Next(digest, w, op).catalog)
  {
    match op
    case Upsert(row) => UpsertKeepsBindings(w.catalog, row);
    case Publish(row, now, fails) =>
      if RowValidates(row) && KeyOf(row) !in w.catalog.bindings && row.fastkRoot in w.roots {
        var (sealed, _) := Sealing(digest, w.roots[row.fastkRoot], now);
        if sealed.Ok? {
          CommitKeepsBindings(w.catalog, row, sealed.value.digest);
        }
      }
    case Touch(_, _) =>
  }

  lemma {:induction false} UpsertKeepsBindings(c: Catalog, row: Row)
    requires Bound(c)
    ensures Bound(Upserted(c, row).0) && Preserves(c, Upserted(c, row).0)
  {
  }

  lemma {:induction false} CommitKeepsBindings(c: Catalog, row: Row, d: string)
    requires Bound(c) && KeyOf(row) !in c.bindings
    ensures Bound(Committed(c, row, d)) && Preserves(c, Committed(c, row, d))
  {
  }

  /**
   * Over every run of upserts, publishes (failed ones included) and outside changes to the roots:
   * bindings stay backed by their sealed rows, and nothing bound ever changes.
   */
  lemma {:induction false} BindingsAreImmutable(digest: Digest, w: World, ops: seq<Op>)
    requires Bound(w.catalog)
    ensures Bound(Run(digest, w, ops).catalog) && Preserves(w.catalog, Run(digest, w, ops).catalog)
    decreases |ops|
  {
    if ops != [] {
      StepKeepsBindings(digest, w, ops[0]);
      BindingsAreImmutable(digest, Next(digest, w, ops[0]), ops[1..]);
    }
  }

  /**
   * However the roots are changed after a dataset was published, its row stays the same and its
   * binding is accepted exactly while the root is the one that was sealed.
   */
  lemma {:induction false} BoundMeansSealedContent(digest: Digest, w: World, row: Row, now: int, ops: seq<Op>)
    requires Injective(digest) && Bound(w.catalog) && KeyOf(row) !in w.catalog.bindings
    requires Publishing(digest, w, row, now, false).1.Ok?
    ensures var (published, answer) := Publishing(digest, w, row, now, false);
            var later := Run(digest, published, ops);
            var k := KeyOf(row);
            && k in later.catalog.bindings && k in later.catalog.manifest && later.catalog.manifest[k] == answer.value
            && (StillBound(digest, later.roots, later.catalog.bindings[k], row.fastkRoot) <==>
                  row.fastkRoot in later.roots &&
                  Intact(Sealing(digest, w.roots[row.fastkRoot], now).1, later.roots[row.fastkRoot]))
  {
    var published := Publishing(digest, w, row, now, false).0;
    StepKeepsBindings(digest, w, Publish(row, now, false));
    BindingsAreImmutable(digest, published, ops);
    SealedRootVerifies(digest, w.roots[row.fastkRoot], now, now);
    var later := Run(digest, published, ops);
    if row.fastkRoot in later.roots {
      PinnedDigestFixesRoot(digest, Sealing(digest, w.roots[row.fastkRoot], now).1, later.roots[row.fastkRoot]);
    }
  }

  /**
   * Publishing a bound key again changes nothing, and answers the row of the first publish exactly
   * while the same root is named and still is the one that was sealed.
   */
  lemma {:induction false} RepublishAnswersSealed(
      digest: Digest, w: World, row: Row, now: int, ops: seq<Op>, again: Row, later: int)
    requires Injective(digest) && Bound(w.catalog) && KeyOf(row) !in w.catalog.bindings
    requires Publishing(digest, w, row, now, false).1.Ok?
    requires KeyOf(again) == KeyOf(row) && !Malformed(again)
    ensures var (published, answer) := Publishing(digest, w, row, now, false);
            var world := Run(digest, published, ops);
            var (after, r) := Publishing(digest, world, again, later, false);
            && after == world
            && (r.Ok? <==>
                  && again.fastkRoot == row.fastkRoot && row.fastkRoot in world.roots
                  && Intact(Sealing(digest, w.roots[row.fastkRoot], now).1, world.roots[row.fastkRoot]))
            && (r.Ok? ==> r == answer)
  {
    MalformedExactly(again);
    BoundMeansSealedContent(digest, w, row, now, ops);
    var published := Publishing(digest, w, row, now, false).0;
    StepKeepsBindings(digest, w, Publish(row, now, false));
    BindingsAreImmutable(digest, published, ops);
  }

  /**
   * Publishing after a rolled-back attempt on the same root ends in the catalog the first attempt
   * would have produced, whatever the caller changed in the row's own fields meanwhile.
   */
  lemma {:induction false} RetryPublishesTheSame(
      digest: Digest, w: World, row: Row, retried: Row, now: int, later: int)
    requires RowValidates(row) && KeyOf(row) !in w.catalog.bindings
    requires RowValidates(retried) && KeyOf(retried) !in w.catalog.bindings && retried.fastkRoot == row.fastkRoot
    requires row.fastkRoot in w.roots && Sealing(digest, w.roots[row.fastkRoot], now).0.Ok?
    ensures var rolledBack := Publishing(digest, w, row, now, true).0;
            && rolledBack.catalog == w.catalog
            && Publishing(digest, rolledBack, retried, later, false) == Publishing(digest, w, retried, now, false)
            && Publishing(digest, w, retried, now, false).1.Ok?
  {
    SealedRootVerifies(digest, w.roots[row.fastkRoot], now, later);
    var once := w.roots[row.fastkRoot := Sealing(digest, w.roots[row.fastkRoot], now).1];
    assert once[row.fastkRoot := once[row.fastkRoot]] == once;
  }
}
