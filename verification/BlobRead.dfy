/**
  The verified reader: plan, geometry, the whole walk and the range walk that prunes subtrees.
  Source: library/effects/src/cas/Blob.ts.
 */
module BlobRead {
  import opened Outcomes
  import opened CasStore
  import opened BlobGraph

  const CHUNK_SIZE: nat := 65_536
  const MAX_MATERIALIZED_BYTES: nat := 0x7fff_ffff
  const MAX_SAFE_INTEGER: nat := 0x1f_ffff_ffff_ffff

  datatype ReadPlan = ReadPlan(recipeId: nat, totalBytes: nat, leafCount: nat, treeRoot: Id)

  datatype SelectedRange = SelectedRange(offset: nat, end: nat)

  /** Where chunk `index` starts in the blob. */
  function SubtreeStart(index: nat): nat { index * 65_536 }

  function ExpectedLeafCount(totalBytes: nat): nat {
    if totalBytes == 0 then 1 else (totalBytes + CHUNK_SIZE - 1) / 65_536
  }

  predicate KnownRecipe(recipeId: nat) {
    recipeId == 0 || recipeId == REFERENCED_CHUNK_RECIPE
  }

  function LoadNode(s: Store, id: Id): Result<Node, BlobError> {
    match Load(s, id)
    case Ok(node) => Ok(node)
    case Err(e) => Err(Cas(e))
  }

  function LoadPlan(s: Store, ref: Id): Result<ReadPlan, BlobError> {
    match LoadNode(s, ref)
    case Err(e) => Err(e)
    case Ok(node) =>
      if node.tag != BLOB_MANIFEST_TAG then Err(Format)
      else if |node.refs| != 1 || node.refs[0].expectedTag != BLOB_NODE_TAG then Err(Format)
      else if |node.payload| != 16 then Err(Format)
      else match DecodeManifest(node.payload)
           case None => Err(Format)
           case Some(m) =>
             if !KnownRecipe(m.recipeId) then Err(UnsupportedRecipe(m.recipeId))
             else Ok(ReadPlan(m.recipeId, m.totalBytes, m.leafCount, node.refs[0].id))
  }

  function RequireRecipeOne(plan: ReadPlan): Result<ReadPlan, BlobError> {
    if plan.recipeId != REFERENCED_CHUNK_RECIPE then Err(UnsupportedRecipe(plan.recipeId))
    else if plan.leafCount == 0 || plan.leafCount != ExpectedLeafCount(plan.totalBytes) then Err(Format)
    else Ok(plan)
  }

  datatype Children = Children(left: Id, right: Id)

  function LoadParent(s: Store, id: Id): Result<Children, BlobError> {
    match LoadNode(s, id)
    case Err(e) => Err(e)
    case Ok(node) =>
      if node.tag != BLOB_NODE_TAG || |node.payload| > 0 || |node.refs| != 2 ||
         node.refs[0].expectedTag != BLOB_NODE_TAG || node.refs[1].expectedTag != BLOB_NODE_TAG then Err(Format)
      else Ok(Children(node.refs[0].id, node.refs[1].id))
  }

  function ExpectedChunkLength(plan: ReadPlan, index: nat): int {
    if plan.totalBytes == 0 then 0
    else if index + 1 < plan.leafCount then CHUNK_SIZE
    else plan.totalBytes - SubtreeStart(index)
  }

  function LoadChunk(s: Store, plan: ReadPlan, id: Id, index: nat): Result<Bytes, BlobError> {
    match LoadNode(s, id)
    case Err(e) => Err(e)
    case Ok(leaf) =>
      if leaf.tag != BLOB_NODE_TAG || |leaf.payload| != 8 || |leaf.refs| != 1 ||
         leaf.refs[0].expectedTag != CHUNK_DATA_TAG then Err(Format)
      else
        var declaredIndex := ReadNat(leaf.payload, 0, 4);
        var declaredLength := ReadNat(leaf.payload, 4, 4);
        if declaredIndex != index || declaredLength != ExpectedChunkLength(plan, index) then Err(Format)
        else match LoadNode(s, leaf.refs[0].id)
             case Err(e) => Err(e)
             case Ok(chunk) =>
               if chunk.tag != CHUNK_DATA_TAG || |chunk.refs| > 0 then Err(Format)
               else if |chunk.payload| != declaredLength then Err(Format)
               else Ok(chunk.payload)
  }

  /** A stream as its consumer sees it: the chunks emitted, and the failure that ended it, if any. */
  datatype Stream = Stream(chunks: seq<Bytes>, failure: Option<BlobError>)

  const EMPTY: Stream := Stream([], None)

  function Concat(a: Stream, b: Stream): Stream {
    if a.failure.Some? then a else Stream(a.chunks + b.chunks, b.failure)
  }

  function SubtreeEnd(plan: ReadPlan, base: nat, count: nat): nat {
    if base + count == plan.leafCount then plan.totalBytes else SubtreeStart(base + count)
  }

  predicate Pruned(plan: ReadPlan, base: nat, count: nat, selected: Option<SelectedRange>) {
    selected.Some? &&
    (selected.value.end <= SubtreeStart(base) || selected.value.offset >= SubtreeEnd(plan, base, count))
  }

  /** The part of a loaded chunk a selection asks for. */
  function ChunkStream(chunk: Bytes, base: nat, selected: Option<SelectedRange>): Stream {
    match selected
    case None => Stream([chunk], None)
    case Some(range) =>
      var chunkStart := SubtreeStart(base);
      var from := (if range.offset > chunkStart then range.offset else chunkStart) - chunkStart;
      var chunkEnd := chunkStart + |chunk|;
      var to := (if range.end < chunkEnd then range.end else chunkEnd) - chunkStart;
      if from == to then EMPTY else Stream([Slice(chunk, from, to)], None)
  }

  /** A byte slice with both ends clamped into the array. */
  function Slice(bytes: Bytes, from: int, to: int): Bytes {
    var lo := Clamp(from, |bytes|);
    var hi := Clamp(to, |bytes|);
    if lo <= hi then bytes[lo..hi] else []
  }

  function Clamp(i: int, n: nat): (c: nat)
    ensures c <= n
  {
    if i < 0 then 0 else if i > n then n else i
  }

  /** The two loads a walk makes, each of which may refuse. */
  datatype Loader = Loader(chunk: (Id, nat) -> Result<Bytes, BlobError>, parent: Id -> Result<Children, BlobError>)

  function LoaderOf(s: Store, plan: ReadPlan): Loader {
    Loader((id: Id, index: nat) => LoadChunk(s, plan, id, index), (id: Id) => LoadParent(s, id))
  }

  /** The recursive reader over one subtree; with a selection it loads nothing of a subtree outside it. */
  function Walk(r: Loader, plan: ReadPlan, id: Id, base: nat, count: nat, selected: Option<SelectedRange>): Stream
    requires 1 <= count
    decreases count, id
  {
    if Pruned(plan, base, count, selected) then EMPTY
    else if count == 1 then
      match r.chunk(id, base)
      case Err(e) => Stream([], Some(e))
      case Ok(chunk) => ChunkStream(chunk, base, selected)
    else
      match r.parent(id)
      case Err(e) => Stream([], Some(e))
      case Ok(Children(left, right)) =>
        Pow2BelowBounds(count);
        var split := Pow2Below(count);
        Concat(Walk(r, plan, left, base, split, selected),
               Walk(r, plan, right, base + split, count - split, selected))
  }

  predicate InRange(plan: ReadPlan, offset: int, length: int) {
    !(offset < 0 || length < 0 || offset + length > plan.totalBytes)
  }

  function StreamPlan(s: Store, plan: ReadPlan): Stream
    requires RequireRecipeOne(plan).Ok?
  {
    Walk(LoaderOf(s, plan), plan, plan.treeRoot, 0, plan.leafCount, None)
  }

  function SlicePlan(s: Store, plan: ReadPlan, offset: int, length: int): Stream
    requires RequireRecipeOne(plan).Ok?
  {
    if !InRange(plan, offset, length) then Stream([], Some(OutOfRange(offset, length, plan.totalBytes)))
    else if length == 0 then EMPTY
    else Walk(LoaderOf(s, plan), plan, plan.treeRoot, 0, plan.leafCount, Some(SelectedRange(offset, offset + length)))
  }

  function Zeros(n: nat): Bytes { seq(n, _ => 0) }

  /** What `join` answers: the chunks in one buffer of the declared size, or a refusal when the size is
      unsafe or the chunks do not fit. */
  function Joined(chunks: seq<Bytes>, totalBytes: int): Result<Bytes, BlobError> {
    if totalBytes > MAX_SAFE_INTEGER || totalBytes < |Flatten(chunks)| then Err(Unmaterializable(totalBytes))
    else Ok(Flatten(chunks) + Zeros(totalBytes - |Flatten(chunks)|))
  }

  /** The buffer filled by offset, as the source fills it; a chunk that does not fit is the refusal. */
  method Join(chunks: seq<Bytes>, totalBytes: int) returns (r: Result<Bytes, BlobError>)
    ensures r == Joined(chunks, totalBytes)
  {
    if totalBytes > MAX_SAFE_INTEGER || totalBytes < 0 {
      return Err(Unmaterializable(totalBytes));
    }
    var output := new Byte[totalBytes](_ => 0);
    var offset := 0;
    for i := 0 to |chunks|
      invariant offset == |Flatten(chunks[..i])| <= output.Length
      invariant output[..] == Flatten(chunks[..i]) + Zeros(output.Length - offset)
    {
      var chunk := chunks[i];
      assert chunks[..i + 1][..i] == chunks[..i];
      if offset + |chunk| > output.Length {
        assert chunks == chunks[..i + 1] + chunks[i + 1..];
        FlattenAppend(chunks[..i + 1], chunks[i + 1..]);
        return Err(Unmaterializable(totalBytes));
      }
      ghost var done := output[..offset];
      forall k | 0 <= k < |chunk| {
        output[offset + k] := chunk[k];
      }
      assert output[..offset] == done == Flatten(chunks[..i]);
      assert output[..] == Flatten(chunks[..i]) + chunk + Zeros(output.Length - offset - |chunk|);
      offset := offset + |chunk|;
    }
    assert chunks[..|chunks|] == chunks;
    return Ok(output[..]);
  }

  lemma {:induction false} JoinedExactly(chunks: seq<Bytes>, totalBytes: nat)
    requires |Flatten(chunks)| == totalBytes <= MAX_SAFE_INTEGER
    ensures Joined(chunks, totalBytes) == Ok(Flatten(chunks))
  {
    assert Flatten(chunks) + Zeros(0) == Flatten(chunks);
  }

  function Resolve(s: Store, ref: Id): Result<ReadPlan, BlobError> {
    match LoadPlan(s, ref)
    case Err(e) => Err(e)
    case Ok(plan) => RequireRecipeOne(plan)
  }

  function Collected(stream: Stream, length: int): Result<Bytes, BlobError> {
    match stream.failure
    case Some(e) => Err(e)
    case None => Joined(stream.chunks, length)
  }

  function GetBlob(s: Store, ref: Id): Result<Bytes, BlobError> {
    match Resolve(s, ref)
    case Err(e) => Err(e)
    case Ok(plan) =>
      if plan.totalBytes > MAX_MATERIALIZED_BYTES then Err(Unmaterializable(plan.totalBytes))
      else Collected(StreamPlan(s, plan), plan.totalBytes)
  }

  function ReadRange(s: Store, ref: Id, offset: int, length: int): Result<Bytes, BlobError> {
    match Resolve(s, ref)
    case Err(e) => Err(e)
    case Ok(plan) =>
      if length > MAX_MATERIALIZED_BYTES then Err(Unmaterializable(length))
      else Collected(SlicePlan(s, plan, offset, length), length)
  }

  // ---------------------------------------------------------------- the whole walk

  /** Every leaf but the last is full, and the last is not empty unless the blob is. */
  ghost predicate Geometric(plan: ReadPlan) {
    && plan.leafCount >= 1
    && (plan.totalBytes == 0 ==> plan.leafCount == 1)
    && (plan.totalBytes > 0 ==>
          SubtreeStart(plan.leafCount - 1) < plan.totalBytes <= SubtreeStart(plan.leafCount))
  }

  /** The leaf count a recipe-1 manifest must declare is exactly the one of that geometry. */
  lemma {:induction false} GeometryIsLeafCount(plan: ReadPlan)
    requires plan.recipeId == REFERENCED_CHUNK_RECIPE
    ensures RequireRecipeOne(plan).Ok? <==> Geometric(plan)
  {
  }

  /** A loader hands out no chunk whose length is not the geometric one. */
  ghost predicate ChecksLengths(r: Loader, plan: ReadPlan) {
    forall id: Id, index: nat :: r.chunk(id, index).Ok? ==>
      |r.chunk(id, index).value| == ExpectedChunkLength(plan, index)
  }

  lemma {:induction false} LoaderChecksLengths(s: Store, plan: ReadPlan)
    ensures ChecksLengths(LoaderOf(s, plan), plan)
  {
  }

  /** A subtree of two or more leaves streams its left half, then its right half. */
  lemma {:induction false} WalkParent(r: Loader, plan: ReadPlan, id: Id, base: nat, count: nat,
                                      selected: Option<SelectedRange>)
    returns (left: Id, right: Id, split: nat)
    requires count >= 2 && r.parent(id).Ok? && !Pruned(plan, base, count, selected)
    ensures r.parent(id) == Ok(Children(left, right)) && split == Pow2Below(count) && 1 <= split < count
    ensures Walk(r, plan, id, base, count, selected) ==
            Concat(Walk(r, plan, left, base, split, selected),
                   Walk(r, plan, right, base + split, count - split, selected))
  {
    Pow2BelowBounds(count);
    left, right, split := r.parent(id).value.left, r.parent(id).value.right, Pow2Below(count);
    var whole := Walk(r, plan, id, base, count, selected);
    var a := Walk(r, plan, left, base, split, selected);
    var b := Walk(r, plan, right, base + split, count - split, selected);
    assert whole == Concat(a, b);
  }

  /** One chunk per leaf, each of its geometric length, and together exactly the bytes of the subtree. */
  ghost predicate WholeSubtree(plan: ReadPlan, base: nat, count: nat, chunks: seq<Bytes>) {
    && |chunks| == count
    && (forall i :: 0 <= i < count ==> |chunks[i]| == ExpectedChunkLength(plan, base + i))
    && |Flatten(chunks)| == SubtreeEnd(plan, base, count) - SubtreeStart(base)
  }

  lemma {:induction false} WholeSubtreesJoin(plan: ReadPlan, base: nat, count: nat, split: nat, a: seq<Bytes>,
                                             b: seq<Bytes>)
    requires 1 <= split < count && base + count <= plan.leafCount
    requires WholeSubtree(plan, base, split, a) && WholeSubtree(plan, base + split, count - split, b)
    ensures WholeSubtree(plan, base, count, a + b)
  {
    FlattenAppend(a, b);
    forall i | 0 <= i < count ensures |(a + b)[i]| == ExpectedChunkLength(plan, base + i) {
      if i >= split { assert (a + b)[i] == b[i - split]; }
    }
  }

  /** A whole walk that succeeds yields one chunk per leaf, each of its geometric length, and together
      exactly the bytes of its subtree. */
  lemma {:induction false} WholeWalkGeometry(r: Loader, plan: ReadPlan, id: Id, base: nat, count: nat)
    requires Geometric(plan) && ChecksLengths(r, plan) && 1 <= count && base + count <= plan.leafCount
    requires Walk(r, plan, id, base, count, None).failure.None?
    ensures WholeSubtree(plan, base, count, Walk(r, plan, id, base, count, None).chunks)
    decreases count
  {
    if count == 1 {
      FlattenOne(r.chunk(id, base).value);
    } else {
      var left, right, split := WalkParent(r, plan, id, base, count, None);
      WholeWalkGeometry(r, plan, left, base, split);
      WholeWalkGeometry(r, plan, right, base + split, count - split);
      WholeSubtreesJoin(plan, base, count, split, Walk(r, plan, left, base, split, None).chunks,
                        Walk(r, plan, right, base + split, count - split, None).chunks);
    }
  }

  // ---------------------------------------------------------------- the range walk refines it

  /** The part of a subtree's bytes that a range selects. */
  function CutOut(bytes: Bytes, start: nat, range: SelectedRange): Bytes {
    Slice(bytes, range.offset - start, range.end - start)
  }

  lemma {:induction false} CutOutAppend(a: Bytes, b: Bytes, start: nat, range: SelectedRange)
    requires range.offset <= range.end
    ensures CutOut(a + b, start, range) == CutOut(a, start, range) + CutOut(b, start + |a|, range)
  {
  }

  lemma {:induction false} ChunkStreamIsCut(chunk: Bytes, base: nat, range: SelectedRange)
    requires range.offset < range.end
    requires range.end > SubtreeStart(base) && range.offset < SubtreeStart(base) + |chunk|
    ensures ChunkStream(chunk, base, Some(range)).failure.None?
    ensures Flatten(ChunkStream(chunk, base, Some(range)).chunks) == CutOut(chunk, SubtreeStart(base), range)
  {
    FlattenOne(CutOut(chunk, SubtreeStart(base), range));
  }

  /** A range's stream carries exactly the range's part of the subtree's bytes. */
  ghost predicate CutsWhole(part: Stream, whole: seq<Bytes>, base: nat, range: SelectedRange) {
    part.failure.None? && Flatten(part.chunks) == CutOut(Flatten(whole), SubtreeStart(base), range)
  }

  lemma {:induction false} CutsJoin(pa: Stream, pb: Stream, a: seq<Bytes>, b: seq<Bytes>, plan: ReadPlan,
                 base: nat, split: nat, range: SelectedRange)
    requires range.offset < range.end && base + split < plan.leafCount
    requires WholeSubtree(plan, base, split, a)
    requires CutsWhole(pa, a, base, range) && CutsWhole(pb, b, base + split, range)
    ensures CutsWhole(Concat(pa, pb), a + b, base, range)
  {
    var start := SubtreeStart(base);
    assert SubtreeStart(base + split) == start + |Flatten(a)|;
    assert Flatten(a + b) == Flatten(a) + Flatten(b) by { FlattenAppend(a, b); }
    assert Flatten(pa.chunks + pb.chunks) == Flatten(pa.chunks) + Flatten(pb.chunks) by {
      FlattenAppend(pa.chunks, pb.chunks);
    }
    CutOutAppend(Flatten(a), Flatten(b), start, range);
  }

  lemma {:induction false} PrunedCutsNothing(plan: ReadPlan, base: nat, count: nat, whole: seq<Bytes>,
                                             range: SelectedRange)
    requires WholeSubtree(plan, base, count, whole) && Pruned(plan, base, count, Some(range))
    requires range.offset < range.end
    ensures CutsWhole(EMPTY, whole, base, range)
  {
  }

  lemma {:induction false} LeafWalkCuts(r: Loader, plan: ReadPlan, id: Id, base: nat, range: SelectedRange)
    requires ChecksLengths(r, plan) && base + 1 <= plan.leafCount
    requires Walk(r, plan, id, base, 1, None).failure.None?
    requires WholeSubtree(plan, base, 1, Walk(r, plan, id, base, 1, None).chunks)
    requires range.offset < range.end && !Pruned(plan, base, 1, Some(range))
    ensures CutsWhole(Walk(r, plan, id, base, 1, Some(range)), Walk(r, plan, id, base, 1, None).chunks, base, range)
  {
    var chunk := r.chunk(id, base).value;
    FlattenOne(chunk);
    ChunkStreamIsCut(chunk, base, range);
  }

  lemma {:induction false} RangeWalkCutsWhole(
      r: Loader, plan: ReadPlan, id: Id, base: nat, count: nat, range: SelectedRange)
    requires Geometric(plan) && ChecksLengths(r, plan) && 1 <= count && base + count <= plan.leafCount
    requires Walk(r, plan, id, base, count, None).failure.None?
    requires range.offset < range.end
    ensures CutsWhole(Walk(r, plan, id, base, count, Some(range)),
                      Walk(r, plan, id, base, count, None).chunks, base, range)
    decreases count
  {
    WholeWalkGeometry(r, plan, id, base, count);
    if Pruned(plan, base, count, Some(range)) {
      PrunedCutsNothing(plan, base, count, Walk(r, plan, id, base, count, None).chunks, range);
    } else if count == 1 {
      LeafWalkCuts(r, plan, id, base, range);
    } else {
      var left, right, split := WalkParent(r, plan, id, base, count, None);
      var _, _, _ := WalkParent(r, plan, id, base, count, Some(range));
      RangeWalkCutsWhole(r, plan, left, base, split, range);
      RangeWalkCutsWhole(r, plan, right, base + split, count - split, range);
      WholeWalkGeometry(r, plan, left, base, split);
      CutsJoin(Walk(r, plan, left, base, split, Some(range)),
               Walk(r, plan, right, base + split, count - split, Some(range)),
               Walk(r, plan, left, base, split, None).chunks,
               Walk(r, plan, right, base + split, count - split, None).chunks, plan, base, split, range);
    }
  }

  /** Whenever the whole blob reads, every in-bounds range reads exactly its bytes of it, and the joined
      buffer is filled exactly. */
  lemma {:induction false} RangeReadRefinesWholeRead(s: Store, plan: ReadPlan, offset: int, length: int)
    requires RequireRecipeOne(plan).Ok?
    requires StreamPlan(s, plan).failure.None?
    requires InRange(plan, offset, length)
    ensures |Flatten(StreamPlan(s, plan).chunks)| == plan.totalBytes
    ensures var bytes := Flatten(StreamPlan(s, plan).chunks);
            var part := SlicePlan(s, plan, offset, length);
            && part.failure.None?
            && Flatten(part.chunks) == bytes[offset..offset + length]
            && (length <= MAX_SAFE_INTEGER ==> Joined(part.chunks, length) == Ok(bytes[offset..offset + length]))
  {
    GeometryIsLeafCount(plan);
    LoaderChecksLengths(s, plan);
    WholeWalkGeometry(LoaderOf(s, plan), plan, plan.treeRoot, 0, plan.leafCount);
    if length > 0 {
      RangeWalkCutsWhole(LoaderOf(s, plan), plan, plan.treeRoot, 0, plan.leafCount, SelectedRange(offset,
          offset + length));
    }
    if length <= MAX_SAFE_INTEGER {
      JoinedExactly(SlicePlan(s, plan, offset, length).chunks, length);
    }
  }

  // ---------------------------------------------------------------- what a range read loads

  datatype Subtree = Subtree(id: Id, base: nat, count: nat)

  /** The subtrees of a tree, as far as a loader shows them. */
  function Subtrees(r: Loader, id: Id, base: nat, count: nat): set<Subtree>
    requires 1 <= count
    decreases count, id
  {
    if count == 1 then {Subtree(id, base, count)}
    else
      match r.parent(id)
      case Err(_) => {Subtree(id, base, count)}
      case Ok(Children(left, right)) =>
        Pow2BelowBounds(count);
        var split := Pow2Below(count);
        {Subtree(id, base, count)} + Subtrees(r, left, base, split) + Subtrees(r, right, base + split, count - split)
  }

  /** Two loaders that load the same for every one of these subtrees that meets the range. */
  ghost predicate SameWhereMet(r: Loader, other: Loader, plan: ReadPlan, trees: set<Subtree>, range: SelectedRange) {
    forall t :: t in trees && !Pruned(plan, t.base, t.count, Some(range)) ==>
      if t.count == 1 then r.chunk(t.id, t.base) == other.chunk(t.id, t.base) else r.parent(t.id) == other.parent(t.id)
  }

  lemma {:induction false} SubtreesHold(r: Loader, id: Id, base: nat, count: nat)
    requires 1 <= count
    ensures Subtree(id, base, count) in Subtrees(r, id, base, count)
  {
  }

  lemma {:induction false} SubtreesBelow(r: Loader, id: Id, base: nat, count: nat, left: Id, right: Id, split: nat)
    requires count >= 2 && r.parent(id) == Ok(Children(left, right)) && split == Pow2Below(count) && 1 <= split < count
    ensures Subtrees(r, left, base, split) <= Subtrees(r, id, base, count)
    ensures Subtrees(r, right, base + split, count - split) <= Subtrees(r, id, base, count)
  {
  }

  /** Where a walk goes no further, one load decides. */
  lemma {:induction false} EndsAlike(r: Loader, other: Loader, plan: ReadPlan, id: Id, base: nat, count: nat,
                                     range: SelectedRange)
    requires 1 <= count && (Pruned(plan, base, count, Some(range)) || count == 1 || r.parent(id).Err?)
    requires !Pruned(plan, base, count, Some(range)) ==>
               if count == 1 then r.chunk(id, base) == other.chunk(id, base) else r.parent(id) == other.parent(id)
    ensures Walk(other, plan, id, base, count, Some(range)) == Walk(r, plan, id, base, count, Some(range))
  {
  }

  lemma {:induction false} ParentsAlike(r: Loader, other: Loader, plan: ReadPlan, id: Id, base: nat, count: nat,
                                        range: SelectedRange, left: Id, right: Id, split: nat)
    requires count >= 2 && !Pruned(plan, base, count, Some(range)) && split == Pow2Below(count) && 1 <= split < count
    requires r.parent(id) == other.parent(id) == Ok(Children(left, right))
    requires Walk(other, plan, left, base, split, Some(range)) == Walk(r, plan, left, base, split, Some(range))
    requires Walk(other, plan, right, base + split, count - split, Some(range)) ==
             Walk(r, plan, right, base + split, count - split, Some(range))
    ensures Walk(other, plan, id, base, count, Some(range)) == Walk(r, plan, id, base, count, Some(range))
  {
    var _, _, _ := WalkParent(r, plan, id, base, count, Some(range));
    var _, _, _ := WalkParent(other, plan, id, base, count, Some(range));
  }

  /** A range walk depends on nothing but the subtrees that meet the range. */
  lemma {:induction false} RangeWalkLocal(r: Loader, other: Loader, plan: ReadPlan, id: Id, base: nat, count: nat,
                                          range: SelectedRange, trees: set<Subtree>)
    requires 1 <= count && Subtrees(r, id, base, count) <= trees && SameWhereMet(r, other, plan, trees, range)
    ensures Walk(other, plan, id, base, count, Some(range)) == Walk(r, plan, id, base, count, Some(range))
    decreases count
  {
    SubtreesHold(r, id, base, count);
    if count >= 2 && r.parent(id).Ok? && !Pruned(plan, base, count, Some(range)) {
      Pow2BelowBounds(count);
      var left, right, split := r.parent(id).value.left, r.parent(id).value.right, Pow2Below(count);
      SubtreesBelow(r, id, base, count, left, right, split);
      RangeWalkLocal(r, other, plan, left, base, split, range, trees);
      RangeWalkLocal(r, other, plan, right, base + split, count - split, range, trees);
      assert Subtree(id, base, count) in trees;
      ParentsAlike(r, other, plan, id, base, count, range, left, right, split);
    } else {
      EndsAlike(r, other, plan, id, base, count, range);
    }
  }

  /** So a range still reads, and reads the same bytes, from a store that lost or damaged what lies outside. */
  lemma {:induction false} RangeReadsDespiteLoss(s: Store, damaged: Store, plan: ReadPlan, offset: nat, length: nat)
    requires RequireRecipeOne(plan).Ok? && StreamPlan(s, plan).failure.None? && InRange(plan, offset, length)
    requires SameWhereMet(LoaderOf(s, plan), LoaderOf(damaged, plan), plan,
                          Subtrees(LoaderOf(s, plan), plan.treeRoot, 0, plan.leafCount),
                          SelectedRange(offset, offset + length))
    ensures |Flatten(StreamPlan(s, plan).chunks)| == plan.totalBytes
    ensures var part := SlicePlan(damaged, plan, offset, length);
            && part.failure.None?
            && Flatten(part.chunks) == Flatten(StreamPlan(s, plan).chunks)[offset..offset + length]
  {
    RangeReadRefinesWholeRead(s, plan, offset, length);
    if length > 0 {
      RangeWalkLocal(LoaderOf(s, plan), LoaderOf(damaged, plan), plan, plan.treeRoot, 0, plan.leafCount,
                     SelectedRange(offset, offset + length),
                     Subtrees(LoaderOf(s, plan), plan.treeRoot, 0, plan.leafCount));
    }
  }

  /** The two public reads agree: a readable range of a readable blob is that range of it. */
  lemma {:induction false} ReadRangeIsPartOfGet(s: Store, ref: Id, offset: nat, length: nat)
    requires GetBlob(s, ref).Ok?
    requires offset + length <= |GetBlob(s, ref).value|
    ensures ReadRange(s, ref, offset, length) == Ok(GetBlob(s, ref).value[offset..offset + length])
  {
    var plan := Resolve(s, ref).value;
    GeometryIsLeafCount(plan);
    LoaderChecksLengths(s, plan);
    WholeWalkGeometry(LoaderOf(s, plan), plan, plan.treeRoot, 0, plan.leafCount);
    JoinedExactly(StreamPlan(s, plan).chunks, plan.totalBytes);
    RangeReadRefinesWholeRead(s, plan, offset, length);
  }
}
