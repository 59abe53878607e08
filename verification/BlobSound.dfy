/**
  What a blob that reads must be: the reader accepts exactly the recipe-1 graphs of their bytes.
  Source: library/effects/src/cas/Blob.ts.
 */
module BlobSound {
  import opened Outcomes
  import opened CasStore
  import opened BlobGraph
  import opened BlobRead
  import opened BlobWrite

  // ---------------------------------------------------------------- graphs, as resident nodes

  predicate Resident(s: Store, id: Id, node: Node) {
    id in s.nodes && s.nodes[id] == node
  }

  /** The node at id is the leaf of chunk `index`, and names the node that holds its bytes. */
  predicate LeafStands(s: Store, id: Id, index: nat, bytes: Bytes) {
    && id in s.nodes && |s.nodes[id].refs| == 1
    && var chunkId := s.nodes[id].refs[0].id;
       Resident(s, id, LeafNode(index, |bytes|, chunkId)) && Resident(s, chunkId, ChunkNode(bytes))
  }

  /** The subtree at id stands for chunks[base..base + count]: parents split at the largest power of two. */
  predicate TreeStands(s: Store, id: Id, chunks: seq<Bytes>, base: nat, count: nat)
    requires 1 <= count && base + count <= |chunks|
    decreases count, id
  {
    if count == 1 then LeafStands(s, id, base, chunks[base])
    else
      Pow2BelowBounds(count);
      var split := Pow2Below(count);
      && id in s.nodes && |s.nodes[id].refs| == 2
      && var left, right := s.nodes[id].refs[0].id, s.nodes[id].refs[1].id;
         && Resident(s, id, ParentNode(left, right))
         && TreeStands(s, left, chunks, base, split)
         && TreeStands(s, right, chunks, base + split, count - split)
  }

  /** The tree of these bytes' canonical chunks stands at root. */
  predicate TreeOf(s: Store, root: Id, bytes: Bytes) {
    Split(bytes) != [] && TreeStands(s, root, Split(bytes), 0, |Split(bytes)|)
  }

  /** The recipe-1 graph of these bytes stands at ref. */
  predicate BlobStands(s: Store, ref: Id, bytes: Bytes) {
    var chunks := Split(bytes);
    && ref in s.nodes && |s.nodes[ref].refs| == 1
    && var root := s.nodes[ref].refs[0].id;
       && Resident(s, ref, ManifestNode(ManifestContent(REFERENCED_CHUNK_RECIPE, |bytes|, |chunks|), root))
       && TreeOf(s, root, bytes)
  }

  // ---------------------------------------------------------------- each load

  /** A parent loads exactly when it is resident with the shape of one; an absent node is named, and every
      other node is malformed. */
  lemma {:induction false} ParentLoads(s: Store, id: Id)
    ensures id !in s.nodes ==> LoadParent(s, id) == Err(Cas(ContentNotFound(id)))
    ensures forall left, right ::
              LoadParent(s, id) == Ok(Children(left, right)) <==> Resident(s, id, ParentNode(left, right))
    ensures id in s.nodes && LoadParent(s, id).Err? ==> LoadParent(s, id) == Err(Format)
  {
    if id in s.nodes {
      var node := s.nodes[id];
      if |node.refs| == 2 { assert node.refs == [node.refs[0], node.refs[1]]; }
      forall left, right
        ensures LoadParent(s, id) == Ok(Children(left, right)) <==> Resident(s, id, ParentNode(left, right))
      {
        assert ParentNode(left, right).refs[0].id == left && ParentNode(left, right).refs[1].id == right;
      }
    }
  }

  lemma {:induction false} LeafFields(index: nat, length: nat)
    requires index <= MAX_U32 && length <= MAX_U32
    ensures |LeafPayload(index, length)| == 8
    ensures ReadNat(LeafPayload(index, length), 0, 4) == index && ReadNat(LeafPayload(index, length), 4, 4) == length
  {
    Widths();
    var a, b := WriteNat(index, 4), WriteNat(length, 4);
    ReadWritten(index, 4, [], b);
    assert a + b == [] + a + b;
    ReadWritten(length, 4, a, []);
    assert a + b == a + b + [];
  }

  lemma {:induction false} LeafFieldsBack(payload: Bytes)
    requires |payload| == 8
    ensures ReadNat(payload, 0, 4) <= MAX_U32 && ReadNat(payload, 4, 4) <= MAX_U32
    ensures payload == LeafPayload(ReadNat(payload, 0, 4), ReadNat(payload, 4, 4))
  {
    Widths();
    WriteRead(payload, 0, 4);
    WriteRead(payload, 4, 4);
    assert payload == payload[0..4] + payload[4..8];
  }

  /** A chunk loads exactly when its leaf stands at its position, with the length its position has. */
  lemma {:induction false} ChunkLoads(s: Store, plan: ReadPlan, id: Id, index: nat, bytes: Bytes)
    requires index <= MAX_U32 && |bytes| <= MAX_U32
    ensures LoadChunk(s, plan, id, index) == Ok(bytes) <==>
            LeafStands(s, id, index, bytes) && |bytes| == ExpectedChunkLength(plan, index)
  {
    if LoadChunk(s, plan, id, index) == Ok(bytes) {
      var leaf := s.nodes[id];
      LeafFieldsBack(leaf.payload);
      assert leaf.refs == [leaf.refs[0]];
      assert s.nodes[leaf.refs[0].id] == ChunkNode(bytes);
    }
    if LeafStands(s, id, index, bytes) { LeafFields(index, |bytes|); }
  }

  /** What a chunk load that fails answers: the address of the node that is absent, or that something about
      the two nodes is malformed. */
  lemma {:induction false} ChunkRefuses(s: Store, plan: ReadPlan, id: Id, index: nat)
    requires LoadChunk(s, plan, id, index).Err? && index <= MAX_U32
    ensures var e := LoadChunk(s, plan, id, index).error;
            if id !in s.nodes then e == Cas(ContentNotFound(id))
            else if (exists length: nat, chunkId :: Resident(s, id, LeafNode(index, length, chunkId)) &&
                       length <= MAX_U32 && length == ExpectedChunkLength(plan, index) && chunkId !in s.nodes)
            then e == Cas(ContentNotFound(s.nodes[id].refs[0].id))
            else e == Format
  {
    if id in s.nodes {
      var leaf := s.nodes[id];
      if |leaf.payload| == 8 && |leaf.refs| == 1 {
        LeafFieldsBack(leaf.payload);
        assert leaf.refs == [leaf.refs[0]];
        var declared := ReadNat(leaf.payload, 4, 4);
        if LoadChunk(s, plan, id, index).error != Format {
          assert Resident(s, id, LeafNode(index, declared, leaf.refs[0].id));
        }
      }
      forall length: nat, chunkId | Resident(s, id, LeafNode(index, length, chunkId)) && length <= MAX_U32
        ensures ReadNat(leaf.payload, 0, 4) == index && ReadNat(leaf.payload, 4, 4) == length
      {
        LeafFields(index, length);
      }
    }
  }

  /** The manifest that a reference resolves through. */
  predicate ManifestStands(s: Store, ref: Id, m: ManifestContent, root: Id) {
    m.totalBytes <= MAX_U64 && m.leafCount <= MAX_U32 && m.recipeId <= MAX_U32 &&
    Resident(s, ref, ManifestNode(m, root))
  }

  /** A reference resolves exactly when it names a manifest of recipe 1 with the leaf count of its bytes. */
  lemma {:induction false} PlanResolves(s: Store, ref: Id, plan: ReadPlan)
    ensures Resolve(s, ref) == Ok(plan) <==>
            && ManifestStands(s, ref, ManifestContent(plan.recipeId, plan.totalBytes, plan.leafCount), plan.treeRoot)
            && plan.recipeId == REFERENCED_CHUNK_RECIPE && plan.leafCount == ExpectedLeafCount(plan.totalBytes)
  {
    var m := ManifestContent(plan.recipeId, plan.totalBytes, plan.leafCount);
    if Resolve(s, ref) == Ok(plan) {
      var node := s.nodes[ref];
      EncodeDecodedManifest(node.payload);
      assert node.refs == [node.refs[0]];
    }
    if ManifestStands(s, ref, m, plan.treeRoot) { DecodeEncodedManifest(m); }
  }

  /** And a reference that does not resolve is answered by what is wrong with it: nothing there, a manifest of
      another recipe, or anything else. */
  lemma {:induction false} PlanRefuses(s: Store, ref: Id)
    requires Resolve(s, ref).Err?
    ensures var e := Resolve(s, ref).error;
            if ref !in s.nodes then e == Cas(ContentNotFound(ref))
            else if (exists m, root :: ManifestStands(s, ref, m, root) && m.recipeId != REFERENCED_CHUNK_RECIPE)
            then e == UnsupportedRecipe(ReadNat(s.nodes[ref].payload, 0, 4))
            else e == Format
  {
    if ref in s.nodes {
      var node := s.nodes[ref];
      if DecodeManifest(node.payload).Some? && |node.refs| == 1 {
        var m := DecodeManifest(node.payload).value;
        EncodeDecodedManifest(node.payload);
        assert node.refs == [node.refs[0]];
        if Resolve(s, ref).error != Format { assert ManifestStands(s, ref, m, node.refs[0].id); }
      }
      forall m, root | ManifestStands(s, ref, m, root) ensures DecodeManifest(node.payload) == Some(m) {
        DecodeEncodedManifest(m);
      }
    }
  }

  // ---------------------------------------------------------------- the whole walk

  /** Chunks with the lengths a plan expects. */
  predicate Fits(plan: ReadPlan, chunks: seq<Bytes>) {
    |chunks| == plan.leafCount <= MAX_U32 &&
    forall i :: 0 <= i < |chunks| ==> |chunks[i]| == ExpectedChunkLength(plan, i) <= MAX_U32
  }

  /** A subtree streams these chunks, and nothing goes wrong. */
  predicate Streams(s: Store, plan: ReadPlan, id: Id, chunks: seq<Bytes>, base: nat, count: nat)
    requires 1 <= count && base + count <= |chunks|
  {
    Walk(LoaderOf(s, plan), plan, id, base, count, None) == Stream(chunks[base..base + count], None)
  }

  /** A leaf streams its chunk exactly when it stands. */
  lemma {:induction false} LeafStreams(s: Store, plan: ReadPlan, id: Id, chunks: seq<Bytes>, base: nat)
    requires Fits(plan, chunks) && base < |chunks|
    ensures Streams(s, plan, id, chunks, base, 1) <==> LeafStands(s, id, base, chunks[base])
  {
    ChunkLoads(s, plan, id, base, chunks[base]);
    assert chunks[base..base + 1] == [chunks[base]];
    var loaded := LoadChunk(s, plan, id, base);
    assert Walk(LoaderOf(s, plan), plan, id, base, 1, None) ==
           match loaded case Err(e) => Stream([], Some(e)) case Ok(chunk) => Stream([chunk], None);
    if loaded.Ok? && [loaded.value] == [chunks[base]] { assert [loaded.value][0] == [chunks[base]][0]; }
  }

  /** Two streams that join to two runs of known lengths are those runs. */
  lemma {:induction false} ConcatParts(a: Stream, b: Stream, chunks: seq<Bytes>, base: nat, split: nat, count: nat)
    requires split <= count && base + count <= |chunks|
    requires a.failure.None? ==> |a.chunks| == split
    ensures Concat(a, b) == Stream(chunks[base..base + count], None) <==>
            a == Stream(chunks[base..base + split], None) && b == Stream(chunks[base + split..base + count], None)
  {
    var whole := chunks[base..base + count];
    var left, right := chunks[base..base + split], chunks[base + split..base + count];
    assert whole == left + right;
    if Concat(a, b) == Stream(whole, None) {
      assert a.chunks == (a.chunks + b.chunks)[..split] == left;
      assert b.chunks == (a.chunks + b.chunks)[split..] == right;
    }
  }

  /** A subtree streams its chunks exactly when it stands for them. */
  lemma {:induction false} TreeStreams(s: Store, plan: ReadPlan, id: Id, chunks: seq<Bytes>, base: nat, count: nat)
    requires Geometric(plan) && Fits(plan, chunks) && 1 <= count && base + count <= |chunks|
    ensures Streams(s, plan, id, chunks, base, count) <==> TreeStands(s, id, chunks, base, count)
    decreases count
  {
    if count == 1 {
      LeafStreams(s, plan, id, chunks, base);
    } else {
      ParentLoads(s, id);
      var loaded := LoadParent(s, id);
      if loaded.Ok? {
        Pow2BelowBounds(count);
        var split, left, right := Pow2Below(count), loaded.value.left, loaded.value.right;
        ParentStreams(s, plan, id, chunks, base, count, left, right);
        ParentStands(s, id, chunks, base, count, left, right);
        TreeStreams(s, plan, left, chunks, base, split);
        TreeStreams(s, plan, right, chunks, base + split, count - split);
      } else {
        NoParentStreams(s, plan, id, chunks, base, count);
        NoParentStands(s, id, chunks, base, count);
      }
    }
  }

  lemma {:induction false} ParentStands(s: Store, id: Id, chunks: seq<Bytes>, base: nat, count: nat, left: Id,
                                        right: Id)
    requires 2 <= count && base + count <= |chunks| && 1 <= Pow2Below(count) < count
    requires Resident(s, id, ParentNode(left, right))
    ensures TreeStands(s, id, chunks, base, count) <==>
            TreeStands(s, left, chunks, base, Pow2Below(count)) &&
            TreeStands(s, right, chunks, base + Pow2Below(count), count - Pow2Below(count))
  {
  }

  lemma {:induction false} NoParentStands(s: Store, id: Id, chunks: seq<Bytes>, base: nat, count: nat)
    requires 2 <= count && base + count <= |chunks| && LoadParent(s, id).Err?
    ensures !TreeStands(s, id, chunks, base, count)
  {
    ParentLoads(s, id);
    if id in s.nodes && |s.nodes[id].refs| == 2 {
      var left, right := s.nodes[id].refs[0].id, s.nodes[id].refs[1].id;
      assert LoadParent(s, id) == Ok(Children(left, right)) <==> Resident(s, id, ParentNode(left, right));
    }
  }

  lemma {:induction false} ParentStreams(s: Store, plan: ReadPlan, id: Id, chunks: seq<Bytes>, base: nat, count: nat,
                                         left: Id, right: Id)
    requires Geometric(plan) && Fits(plan, chunks) && 2 <= count && base + count <= |chunks|
    requires LoadParent(s, id) == Ok(Children(left, right)) && 1 <= Pow2Below(count) < count
    ensures Streams(s, plan, id, chunks, base, count) <==>
            Streams(s, plan, left, chunks, base, Pow2Below(count)) &&
            Streams(s, plan, right, chunks, base + Pow2Below(count), count - Pow2Below(count))
  {
    var split := Pow2Below(count);
    var a, b := WalkJoins(s, plan, id, base, count, left, right);
    StreamLength(s, plan, left, base, split);
    ConcatParts(a, b, chunks, base, split, count);
  }

  lemma {:induction false} WalkJoins(s: Store, plan: ReadPlan, id: Id, base: nat, count: nat, left: Id, right: Id)
    returns (a: Stream, b: Stream)
    requires 2 <= count && LoadParent(s, id) == Ok(Children(left, right)) && 1 <= Pow2Below(count) < count
    ensures a == Walk(LoaderOf(s, plan), plan, left, base, Pow2Below(count), None)
    ensures b == Walk(LoaderOf(s, plan), plan, right, base + Pow2Below(count), count - Pow2Below(count), None)
    ensures Walk(LoaderOf(s, plan), plan, id, base, count, None) == Concat(a, b)
  {
    a := Walk(LoaderOf(s, plan), plan, left, base, Pow2Below(count), None);
    b := Walk(LoaderOf(s, plan), plan, right, base + Pow2Below(count), count - Pow2Below(count), None);
    var _, _, _ := WalkParent(LoaderOf(s, plan), plan, id, base, count, None);
  }

  lemma {:induction false} StreamLength(s: Store, plan: ReadPlan, id: Id, base: nat, count: nat)
    requires Geometric(plan) && 1 <= count && base + count <= plan.leafCount
    ensures var stream := Walk(LoaderOf(s, plan), plan, id, base, count, None);
            stream.failure.None? ==> |stream.chunks| == count
  {
    if Walk(LoaderOf(s, plan), plan, id, base, count, None).failure.None? {
      LoaderChecksLengths(s, plan);
      WholeWalkGeometry(LoaderOf(s, plan), plan, id, base, count);
    }
  }

  lemma {:induction false} NoParentStreams(s: Store, plan: ReadPlan, id: Id, chunks: seq<Bytes>, base: nat, count: nat)
    requires 2 <= count && base + count <= |chunks| && LoadParent(s, id).Err?
    ensures !Streams(s, plan, id, chunks, base, count)
  {
    assert Walk(LoaderOf(s, plan), plan, id, base, count, None) == Stream([], Some(LoadParent(s, id).error));
  }

  // ---------------------------------------------------------------- the reader

  /** The lengths a plan of these bytes expects are those of their canonical split. */
  lemma {:induction false} SplitFits(plan: ReadPlan, bytes: Bytes)
    requires plan.totalBytes == |bytes| && plan.leafCount == |Split(bytes)| <= MAX_U32
    ensures Fits(plan, Split(bytes))
  {
    SplitGeometry(bytes);
  }

  /** Chunks with the lengths a plan expects are the canonical split of what they join to. */
  lemma {:induction false} FitsIsSplit(plan: ReadPlan, chunks: seq<Bytes>)
    requires Geometric(plan) && Fits(plan, chunks)
    ensures Split(Flatten(chunks)) == chunks
  {
    var front := chunks[..|chunks| - 1];
    forall i | 0 <= i < |front| ensures |front[i]| == CHUNK_SIZE { assert front[i] == chunks[i]; }
    SplitUnique(chunks);
  }

  /** A plan's tree streams, without failure, exactly the canonical chunks of the blob that stands there. */
  lemma {:induction false} PlanStreams(s: Store, plan: ReadPlan, bytes: Bytes)
    requires RequireRecipeOne(plan).Ok? && plan.leafCount <= MAX_U32
    ensures StreamPlan(s, plan).failure.None? && Flatten(StreamPlan(s, plan).chunks) == bytes <==>
            plan.totalBytes == |bytes| && TreeOf(s, plan.treeRoot, bytes)
  {
    var stream := StreamPlan(s, plan);
    if stream.failure.None? && Flatten(stream.chunks) == bytes { StreamStands(s, plan); }
    if plan.totalBytes == |bytes| && TreeOf(s, plan.treeRoot, bytes) { StandsStream(s, plan, bytes); }
  }

  lemma {:induction false} StreamStands(s: Store, plan: ReadPlan)
    requires RequireRecipeOne(plan).Ok? && plan.leafCount <= MAX_U32 && StreamPlan(s, plan).failure.None?
    ensures plan.totalBytes == |Flatten(StreamPlan(s, plan).chunks)|
    ensures TreeOf(s, plan.treeRoot, Flatten(StreamPlan(s, plan).chunks))
  {
    GeometryIsLeafCount(plan);
    var chunks := StreamPlan(s, plan).chunks;
    assert Fits(plan, chunks) && plan.totalBytes == |Flatten(chunks)| by {
      LoaderChecksLengths(s, plan);
      WholeWalkGeometry(LoaderOf(s, plan), plan, plan.treeRoot, 0, plan.leafCount);
    }
    FitsIsSplit(plan, chunks);
    assert chunks[0..plan.leafCount] == chunks;
    TreeStreams(s, plan, plan.treeRoot, chunks, 0, plan.leafCount);
  }

  lemma {:induction false} StandsStream(s: Store, plan: ReadPlan, bytes: Bytes)
    requires RequireRecipeOne(plan).Ok? && plan.leafCount <= MAX_U32
    requires plan.totalBytes == |bytes| && TreeOf(s, plan.treeRoot, bytes)
    ensures StreamPlan(s, plan) == Stream(Split(bytes), None) && Flatten(Split(bytes)) == bytes
  {
    GeometryIsLeafCount(plan);
    SplitGeometry(bytes);
    SplitFits(plan, bytes);
    TreeStreams(s, plan, plan.treeRoot, Split(bytes), 0, plan.leafCount);
    assert Split(bytes)[0..plan.leafCount] == Split(bytes);
  }

  /** The reader is sound and complete: a reference reads as these bytes if and only if they are within the
      declared bound and exactly their recipe-1 graph stands there. */
  lemma {:induction false} ReadsExactlyGraphs(s: Store, ref: Id, bytes: Bytes)
    ensures GetBlob(s, ref) == Ok(bytes) <==> |bytes| <= MAX_MATERIALIZED_BYTES && BlobStands(s, ref, bytes)
  {
    if GetBlob(s, ref) == Ok(bytes) { ReadStands(s, ref, bytes); }
    if |bytes| <= MAX_MATERIALIZED_BYTES && BlobStands(s, ref, bytes) { StandsReads(s, ref, bytes); }
  }

  lemma {:induction false} ReadStands(s: Store, ref: Id, bytes: Bytes)
    requires GetBlob(s, ref) == Ok(bytes)
    ensures |bytes| <= MAX_MATERIALIZED_BYTES && BlobStands(s, ref, bytes)
  {
    var plan := Resolve(s, ref).value;
    PlanResolves(s, ref, plan);
    GeometryIsLeafCount(plan);
    LoaderChecksLengths(s, plan);
    WholeWalkGeometry(LoaderOf(s, plan), plan, plan.treeRoot, 0, plan.leafCount);
    JoinedExactly(StreamPlan(s, plan).chunks, plan.totalBytes);
    PlanStreams(s, plan, bytes);
    SplitGeometry(bytes);
  }

  lemma {:induction false} StandsReads(s: Store, ref: Id, bytes: Bytes)
    requires |bytes| <= MAX_MATERIALIZED_BYTES && BlobStands(s, ref, bytes)
    ensures GetBlob(s, ref) == Ok(bytes)
  {
    SplitGeometry(bytes);
    var plan := ReadPlan(REFERENCED_CHUNK_RECIPE, |bytes|, |Split(bytes)|, s.nodes[ref].refs[0].id);
    PlanResolves(s, ref, plan);
    PlanStreams(s, plan, bytes);
    JoinedExactly(StreamPlan(s, plan).chunks, |bytes|);
  }

  /** A blob that was written stands, whatever its size. */
  lemma {:induction false} WrittenBlobStands(s: Store, bytes: Bytes)
    requires Materialize(s, Split(bytes)).outcome.Ok?
    ensures var put := Materialize(s, Split(bytes)); BlobStands(put.store, put.outcome.value, bytes)
  {
    var put := Materialize(s, Split(bytes));
    WrittenBlobStreamsBack(s, bytes);
    SplitGeometry(bytes);
    var plan := Resolve(put.store, put.outcome.value).value;
    PlanResolves(put.store, put.outcome.value, plan);
    PlanStreams(put.store, plan, bytes);
  }

  /** One address stands for one blob. */
  lemma {:induction false} OneBlobAtAnAddress(s: Store, ref: Id, a: Bytes, b: Bytes)
    requires |a| <= MAX_U64 && |Split(a)| <= MAX_U32 && BlobStands(s, ref, a)
    requires |b| <= MAX_U64 && |Split(b)| <= MAX_U32 && BlobStands(s, ref, b)
    ensures a == b
  {
    StandsOnce(s, ref, a);
    StandsOnce(s, ref, b);
  }

  lemma {:induction false} StandsOnce(s: Store, ref: Id, bytes: Bytes)
    requires |bytes| <= MAX_U64 && |Split(bytes)| <= MAX_U32 && BlobStands(s, ref, bytes)
    ensures Resolve(s, ref).Ok? && Flatten(StreamPlan(s, Resolve(s, ref).value).chunks) == bytes
  {
    SplitGeometry(bytes);
    var plan := ReadPlan(REFERENCED_CHUNK_RECIPE, |bytes|, |Split(bytes)|, s.nodes[ref].refs[0].id);
    PlanResolves(s, ref, plan);
    PlanStreams(s, plan, bytes);
  }

  /** What a range read of a readable blob answers, for every offset and length. */
  lemma {:induction false} ReadRangeExactly(s: Store, ref: Id, offset: int, length: int)
    requires GetBlob(s, ref).Ok?
    ensures var bytes := GetBlob(s, ref).value;
            ReadRange(s, ref, offset, length) ==
            if length > MAX_MATERIALIZED_BYTES then Err(Unmaterializable(length))
            else if offset < 0 || length < 0 || offset + length > |bytes| then
              Err(OutOfRange(offset, length, |bytes|))
            else Ok(bytes[offset..offset + length])
  {
    var bytes := GetBlob(s, ref).value;
    if 0 <= offset && 0 <= length && offset + length <= |bytes| {
      ReadRangeIsPartOfGet(s, ref, offset, length);
    }
    ReadStands(s, ref, bytes);
    PlanResolves(s, ref, Resolve(s, ref).value);
    PlanStreams(s, Resolve(s, ref).value, bytes);
    GetIsWhole(s, ref);
  }

  lemma {:induction false} GetIsWhole(s: Store, ref: Id)
    requires GetBlob(s, ref).Ok?
    ensures Resolve(s, ref).Ok? && Resolve(s, ref).value.totalBytes == |GetBlob(s, ref).value|
  {
    var plan := Resolve(s, ref).value;
    GeometryIsLeafCount(plan);
    LoaderChecksLengths(s, plan);
    WholeWalkGeometry(LoaderOf(s, plan), plan, plan.treeRoot, 0, plan.leafCount);
    JoinedExactly(StreamPlan(s, plan).chunks, plan.totalBytes);
  }
}
