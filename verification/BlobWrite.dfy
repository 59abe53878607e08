/**
  The rechunking writer, its independence of how the source is cut into parts, and the round trip.
  Source: library/effects/src/cas/Blob.ts (`put`).
 */
module BlobWrite {
  import opened Outcomes
  import opened CasStore
  import opened BlobGraph
  import opened BlobRead

  /** The canonical split: full chunks, then the rest; nothing at all is one empty chunk. */
  function Split(bytes: Bytes): seq<Bytes> {
    if |bytes| <= CHUNK_SIZE then [bytes] else [bytes[..CHUNK_SIZE]] + Split(bytes[CHUNK_SIZE..])
  }

  ghost predicate AllFull(chunks: seq<Bytes>) {
    forall i :: 0 <= i < |chunks| ==> |chunks[i]| == CHUNK_SIZE
  }

  /** Full chunks read so far are a prefix of the canonical split, whatever still follows. */
  lemma {:induction false} SplitAfterFull(full: seq<Bytes>, tail: Bytes)
    requires AllFull(full)
    ensures Split(Flatten(full) + tail) == if tail == [] && full != [] then full else full + Split(tail)
  {
    if full == [] {
      assert Flatten(full) + tail == tail;
    } else {
      var front, last := full[..|full| - 1], full[|full| - 1];
      SplitAfterFull(front, last + tail);
      assert Flatten(front) + (last + tail) == Flatten(full) + tail;
      assert full == front + [last];
      if tail == [] {
        assert last + tail == last;
      } else {
        assert (last + tail)[..CHUNK_SIZE] == last && (last + tail)[CHUNK_SIZE..] == tail;
        assert front + ([last] + Split(tail)) == full + Split(tail);
      }
    }
  }

  /** The split loses nothing, and has exactly the leaf count and chunk lengths a manifest demands. */
  lemma {:induction false} SplitGeometry(bytes: Bytes)
    ensures Flatten(Split(bytes)) == bytes
    ensures |Split(bytes)| == ExpectedLeafCount(|bytes|)
    ensures forall i :: 0 <= i < |Split(bytes)| ==>
              |Split(bytes)[i]| ==
              if i + 1 < |Split(bytes)| then CHUNK_SIZE else |bytes| - SubtreeStart(i)
    decreases |bytes|
  {
    if |bytes| <= CHUNK_SIZE {
      FlattenOne(bytes);
    } else {
      var head, rest := bytes[..CHUNK_SIZE], bytes[CHUNK_SIZE..];
      SplitGeometry(rest);
      FlattenOne(head);
      FlattenAppend([head], Split(rest));
      assert bytes == head + rest;
    }
  }

  /** Admitting one chunk more is admitting the list with that chunk at its end. */
  lemma {:induction false} AdmitOneMore(origin: Store, store: Store, leaves: seq<Id>, admitted: seq<Bytes>,
                                        chunk: Bytes)
    requires AdmitAll(origin, admitted) == Step(store, Ok(leaves))
    ensures var leaf := AdmitLeaf(store, |leaves|, |Flatten(admitted)|, chunk);
            AdmitAll(origin, admitted + [chunk]) ==
            Step(leaf.store, match leaf.outcome case Ok(id) => Ok(leaves + [id]) case Err(e) => Err(e))
    ensures Flatten(admitted + [chunk]) == Flatten(admitted) + chunk
  {
    assert (admitted + [chunk])[..|admitted|] == admitted;
  }

  /** The writer's state while the source streams: the leaves admitted so far and a fixed buffer. */
  class ChunkWriter {
    var store: Store
    var leaves: seq<Id>
    var totalBytes: nat
    var pending: array<Byte>
    var pendingLength: nat
    ghost const origin: Store
    ghost var admitted: seq<Bytes>

    /** Everything admitted so far is a run of full chunks, admitted in order from the first store. */
    ghost predicate Valid()
      reads this, pending
    {
      && pending.Length == CHUNK_SIZE
      && pendingLength < CHUNK_SIZE
      && AllFull(admitted)
      && AdmitAll(origin, admitted) == Step(store, Ok(leaves))
      && totalBytes == |Flatten(admitted)|
    }

    /** The bytes fed so far. */
    ghost function Contents(): Bytes
      reads this, pending
      requires pendingLength <= pending.Length
    {
      Flatten(admitted) + pending[..pendingLength]
    }

    /** Admission failed on the last full chunk; what was fed still starts with the admitted chunks. */
    ghost predicate StoppedOn(e: BlobError, fed: Bytes)
      reads this
    {
      && AllFull(admitted) && admitted != []
      && AdmitAll(origin, admitted) == Step(store, Err(e))
      && Flatten(admitted) <= fed
    }

    constructor (s: Store)
      ensures Valid() && fresh(pending) && origin == s && Contents() == []
    {
      store, leaves, totalBytes := s, [], 0;
      pending := new Byte[CHUNK_SIZE](_ => 0);
      pendingLength := 0;
      origin, admitted := s, [];
    }

    /** Copy as much of the part as fits into the buffer. */
    method Take(part: Bytes, offset: nat) returns (take: nat)
      requires Valid() && offset < |part|
      modifies this`pendingLength, pending
      ensures 1 <= take <= |part| - offset
      ensures pendingLength == old(pendingLength) + take <= CHUNK_SIZE == pending.Length
      ensures take < |part| - offset ==> pendingLength == CHUNK_SIZE
      ensures pending[..pendingLength] == old(pending[..pendingLength]) + part[offset..offset + take]
    {
      take := if CHUNK_SIZE - pendingLength < |part| - offset
              then CHUNK_SIZE - pendingLength else |part| - offset;
      forall k | 0 <= k < take {
        pending[pendingLength + k] := part[offset + k];
      }
      pendingLength := pendingLength + take;
    }

    /** Admit the full buffer as the next chunk. */
    method AdmitFull() returns (failure: Option<BlobError>)
      requires pending.Length == CHUNK_SIZE && pendingLength == CHUNK_SIZE
      requires AllFull(admitted) && AdmitAll(origin, admitted) == Step(store, Ok(leaves))
      requires totalBytes == |Flatten(admitted)|
      modifies this`store, this`leaves, this`totalBytes, this`admitted
      ensures admitted == old(admitted) + [pending[..]] && AllFull(admitted)
      ensures Flatten(admitted) == old(Contents())
      ensures AdmitAll(origin, admitted) ==
              Step(store, if failure.Some? then Err(failure.value) else Ok(leaves))
      ensures failure.None? ==> totalBytes == |Flatten(admitted)|
    {
      var chunk := pending[..];
      assert chunk == pending[..pendingLength];
      var leaf := AdmitLeaf(store, |leaves|, totalBytes, chunk);
      AdmitOneMore(origin, store, leaves, admitted, chunk);
      admitted := admitted + [chunk];
      store := leaf.store;
      if leaf.outcome.Err? {
        return Some(leaf.outcome.error);
      }
      leaves := leaves + [leaf.outcome.value];
      totalBytes := totalBytes + |chunk|;
      failure := None;
    }

    /** Admit the full buffer and start a new one. */
    method AdmitPending() returns (failure: Option<BlobError>)
      requires pending.Length == CHUNK_SIZE && pendingLength == CHUNK_SIZE
      requires AllFull(admitted) && AdmitAll(origin, admitted) == Step(store, Ok(leaves))
      requires totalBytes == |Flatten(admitted)|
      modifies this
      ensures failure.None? ==> Valid() && Contents() == old(Contents()) && fresh(pending)
      ensures failure.Some? ==> StoppedOn(failure.value, old(Contents()))
    {
      failure := AdmitFull();
      if failure.Some? { return; }
      pending := new Byte[CHUNK_SIZE](_ => 0);
      pendingLength := 0;
      assert pending[..pendingLength] == [] && Flatten(admitted) + [] == Flatten(admitted);
    }

    /** One turn of the copy loop: fill the buffer from the part, and admit it if that filled it. */
    method TakeAndAdmit(part: Bytes, offset: nat) returns (offset': nat, failure: Option<BlobError>)
      requires Valid() && offset < |part|
      modifies this, pending
      ensures offset < offset' <= |part|
      ensures failure.None? ==> Valid() && Contents() == old(Contents()) + part[offset..offset']
      ensures failure.None? ==> pending == old(pending) || fresh(pending)
      ensures failure.Some? ==> StoppedOn(failure.value, old(Contents()) + part[offset..offset'])
    {
      ghost var fed := Contents();
      var take := Take(part, offset);
      offset' := offset + take;
      failure := None;
      assert Contents() == fed + part[offset..offset'];
      if pendingLength == CHUNK_SIZE {
        failure := AdmitPending();
      }
    }

    /** One part of the stream: filled into the buffer, which is admitted each time it is full. */
    method Feed(part: Bytes) returns (failure: Option<BlobError>)
      requires Valid()
      modifies this, pending
      ensures failure.None? ==> Valid() && Contents() == old(Contents()) + part
      ensures failure.None? ==> pending == old(pending) || fresh(pending)
      ensures failure.Some? ==> StoppedOn(failure.value, old(Contents()) + part)
    {
      var offset := 0;
      ghost var fed := Contents();
      while offset < |part|
        invariant 0 <= offset <= |part|
        invariant Valid() && (pending == old(pending) || fresh(pending))
        invariant Contents() == fed + part[..offset]
      {
        ghost var before := offset;
        offset, failure := TakeAndAdmit(part, offset);
        FedSoFar(fed, part, before, offset);
        if failure.Some? {
          return;
        }
      }
      assert part[..offset] == part;
      failure := None;
    }

    /** What is left is admitted, unless something already was and nothing is left. */
    method AdmitRest() returns (failure: Option<BlobError>)
      requires Valid()
      modifies this
      ensures failure.None? ==> AdmitAll(origin, Split(old(Contents()))) == Step(store, Ok(leaves))
      ensures failure.None? ==> totalBytes == |Flatten(Split(old(Contents())))|
      ensures failure.Some? ==> AdmitAll(origin, Split(old(Contents()))) == Step(store, Err(failure.value))
    {
      failure := None;
      var rest := pending[..pendingLength];
      LastOfSplit(admitted, rest);
      if pendingLength > 0 || leaves == [] {
        var leaf := AdmitLeaf(store, |leaves|, totalBytes, rest);
        AdmitOneMore(origin, store, leaves, admitted, rest);
        store := leaf.store;
        if leaf.outcome.Err? {
          return Some(leaf.outcome.error);
        }
        leaves := leaves + [leaf.outcome.value];
        totalBytes := totalBytes + |rest|;
      }
    }

    /** The end of the stream. */
    method Finish() returns (step: Step<Id>)
      requires Valid()
      modifies this
      ensures step == Materialize(origin, Split(old(Contents())))
    {
      ghost var chunks := Split(Contents());
      var failure := AdmitRest();
      if failure.Some? {
        return Step(store, Err(failure.value));
      }
      Materialized(origin, chunks, store, leaves);
      step := Finalize(store, leaves, totalBytes);
    }
  }

  lemma {:induction false} Materialized(origin: Store, chunks: seq<Bytes>, store: Store, leaves: seq<Id>)
    requires AdmitAll(origin, chunks) == Step(store, Ok(leaves))
    ensures Materialize(origin, chunks) == Finalize(store, leaves, |Flatten(chunks)|)
  {
  }

  /** The split of full chunks and a rest shorter than a chunk: the rest is a chunk of its own unless it is
      empty and something precedes it. */
  lemma {:induction false} LastOfSplit(full: seq<Bytes>, rest: Bytes)
    requires AllFull(full) && |rest| < CHUNK_SIZE
    ensures Split(Flatten(full) + rest) == if rest == [] && full != [] then full else full + [rest]
  {
    SplitAfterFull(full, rest);
  }

  lemma {:induction false} FedSoFar(fed: Bytes, part: Bytes, before: nat, offset: nat)
    requires before <= offset <= |part|
    ensures fed + part[..before] + part[before..offset] == fed + part[..offset]
    ensures fed + part[..offset] <= fed + part
  {
  }

  /** The writer: feed every part, then finish. Whatever the parts, the graph is that of the canonical split. */
  method PutBlob(s: Store, source: seq<Bytes>) returns (step: Step<Id>)
    ensures step == Materialize(s, Split(Flatten(source)))
  {
    var writer := new ChunkWriter(s);
    for p := 0 to |source|
      invariant writer.Valid() && fresh(writer) && fresh(writer.pending) && writer.origin == s
      invariant writer.Contents() == Flatten(source[..p])
    {
      assert source[..p + 1][..p] == source[..p];
      var failure := writer.Feed(source[p]);
      if failure.Some? {
        FlattenPrefix(source, p + 1);
        StoppedEarly(s, writer.admitted, Flatten(source));
        return Step(writer.store, Err(failure.value));
      }
    }
    assert source[..|source|] == source;
    step := writer.Finish();
  }

  lemma {:induction false} FlattenPrefix(chunks: seq<Bytes>, n: nat)
    requires n <= |chunks|
    ensures Flatten(chunks[..n]) <= Flatten(chunks)
  {
    assert chunks == chunks[..n] + chunks[n..];
    FlattenAppend(chunks[..n], chunks[n..]);
  }

  /** A failure while admitting full chunks is the failure of admitting the whole split. */
  lemma {:induction false} StoppedEarly(s: Store, admitted: seq<Bytes>, whole: Bytes)
    requires AllFull(admitted) && admitted != [] && Flatten(admitted) <= whole
    requires AdmitAll(s, admitted).outcome.Err?
    ensures Materialize(s, Split(whole)) == Step(AdmitAll(s, admitted).store, Err(AdmitAll(s, admitted).outcome.error))
  {
    var tail := whole[|Flatten(admitted)|..];
    assert whole == Flatten(admitted) + tail;
    SplitAfterFull(admitted, tail);
    if tail != [] {
      AdmitAllStops(s, admitted, Split(tail));
    }
  }

  /** The canonical split is the only one with a manifest's geometry: chunks that are full but for the last,
      which is not empty unless it stands alone, are the split of the bytes they carry. */
  lemma {:induction false} SplitUnique(chunks: seq<Bytes>)
    requires chunks != [] && AllFull(chunks[..|chunks| - 1])
    requires |chunks[|chunks| - 1]| <= CHUNK_SIZE && (|chunks| > 1 ==> chunks[|chunks| - 1] != [])
    ensures Split(Flatten(chunks)) == chunks
  {
    var full, last := chunks[..|chunks| - 1], chunks[|chunks| - 1];
    assert chunks == full + [last];
    FlattenAppend(full, [last]);
    FlattenOne(last);
    SplitAfterFull(full, last);
  }

  // ---------------------------------------------------------------- what the graph reads back as

  /** The subtree at id reads back as chunks[base..base + count], node by node. */
  ghost predicate Reads(r: Loader, id: Id, chunks: seq<Bytes>, base: nat, count: nat)
    requires 1 <= count && base + count <= |chunks|
    decreases count, id
  {
    if count == 1 then r.chunk(id, base) == Ok(chunks[base])
    else
      && r.parent(id).Ok?
      && (Pow2BelowBounds(count);
          var split := Pow2Below(count);
          && Reads(r, r.parent(id).value.left, chunks, base, split)
          && Reads(r, r.parent(id).value.right, chunks, base + split, count - split))
  }

  lemma {:induction false} SlicesJoin<T>(s: seq<T>, base: nat, split: nat, count: nat)
    requires split <= count && base + count <= |s|
    ensures s[base..base + split] + s[base + split..base + split + (count - split)] == s[base..base + count]
  {
  }

  /** What reads back node by node is what the walk streams. */
  lemma {:induction false} ReadsIsWalk(r: Loader, plan: ReadPlan, id: Id, chunks: seq<Bytes>, base: nat, count: nat)
    requires 1 <= count && base + count <= |chunks|
    requires Reads(r, id, chunks, base, count)
    ensures Walk(r, plan, id, base, count, None) == Stream(chunks[base..base + count], None)
    decreases count
  {
    if count == 1 {
      assert chunks[base..base + 1] == [chunks[base]];
    } else {
      var left, right, split := WalkParent(r, plan, id, base, count, None);
      ReadsIsWalk(r, plan, left, chunks, base, split);
      ReadsIsWalk(r, plan, right, chunks, base + split, count - split);
      SlicesJoin(chunks, base, split, count);
    }
  }

  /** Whatever one loader answers, the other answers too. */
  ghost predicate Extends(r: Loader, r': Loader) {
    && (forall id: Id, index: nat :: r.chunk(id, index).Ok? ==> r'.chunk(id, index) == r.chunk(id, index))
    && (forall id: Id :: r.parent(id).Ok? ==> r'.parent(id) == r.parent(id))
  }

  /** A store that only grew answers every load it answered before. */
  lemma {:induction false} GrowthExtends(s: Store, s': Store, plan: ReadPlan)
    requires Grows(s, s')
    ensures Extends(LoaderOf(s, plan), LoaderOf(s', plan))
  {
    forall id: Id, index: nat | LoadChunk(s, plan, id, index).Ok?
      ensures LoadChunk(s', plan, id, index) == LoadChunk(s, plan, id, index)
    {
      ChunkSurvivesGrowth(s, s', plan, id, index);
    }
    forall id: Id | LoadParent(s, id).Ok? ensures LoadParent(s', id) == LoadParent(s, id) {
    }
  }

  lemma {:induction false} ChunkSurvivesGrowth(s: Store, s': Store, plan: ReadPlan, id: Id, index: nat)
    requires Grows(s, s') && LoadChunk(s, plan, id, index).Ok?
    ensures LoadChunk(s', plan, id, index) == LoadChunk(s, plan, id, index)
  {
  }

  lemma {:induction false} PutStepLoads(s: Store, node: Node)
    ensures Grows(s, PutStep(s, node).store)
    ensures PutStep(s, node).outcome.Ok? ==>
              LoadNode(PutStep(s, node).store, PutStep(s, node).outcome.value) == Ok(node)
  {
  }

  lemma {:induction false} LeafReadsBack(s: Store, plan: ReadPlan, index: nat, totalBytes: nat, bytes: Bytes)
    requires AdmitLeaf(s, index, totalBytes, bytes).outcome.Ok?
    requires |bytes| == ExpectedChunkLength(plan, index)
    ensures var leaf := AdmitLeaf(s, index, totalBytes, bytes);
            && Grows(s, leaf.store)
            && LoadChunk(leaf.store, plan, leaf.outcome.value, index) == Ok(bytes)
  {
    var chunk := PutStep(s, ChunkNode(bytes));
    PutStepLoads(s, ChunkNode(bytes));
    var node := LeafNode(index, |bytes|, chunk.outcome.value);
    PutStepLoads(chunk.store, node);
    Widths();
    var a, b := WriteNat(index, 4), WriteNat(|bytes|, 4);
    ReadWritten(index, 4, [], b);
    assert [] + a + b == a + b;
    ReadWritten(|bytes|, 4, a, []);
    assert a + b + [] == a + b;
  }

  /** Leaf i reads back as chunk i. */
  ghost predicate LeavesRead(r: Loader, leaves: seq<Id>, chunks: seq<Bytes>) {
    |leaves| == |chunks| && forall i :: 0 <= i < |chunks| ==> r.chunk(leaves[i], i) == Ok(chunks[i])
  }

  lemma {:induction false} LeavesReadOneMore(r: Loader, r': Loader, leaves: seq<Id>, chunks: seq<Bytes>, leafId: Id,
                                             chunk: Bytes)
    requires Extends(r, r') && LeavesRead(r, leaves, chunks)
    requires r'.chunk(leafId, |chunks|) == Ok(chunk)
    ensures LeavesRead(r', leaves + [leafId], chunks + [chunk])
  {
  }

  /** Where all chunks were admitted, the last was, after the others. */
  lemma {:induction false} LastAdmitted(s: Store, front: seq<Bytes>, last: Bytes)
    returns (before: Step<seq<Id>>, leaf: Step<Id>)
    requires AdmitAll(s, front + [last]).outcome.Ok?
    ensures AdmitAll(s, front) == before && before.outcome.Ok?
    ensures leaf == AdmitLeaf(before.store, |before.outcome.value|, |Flatten(front)|, last) && leaf.outcome.Ok?
    ensures AdmitAll(s, front + [last]) == Step(leaf.store, Ok(before.outcome.value + [leaf.outcome.value]))
  {
    assert (front + [last])[..|front|] == front;
    before := AdmitAll(s, front);
    AdmitOneMore(s, before.store, before.outcome.value, front, last);
    leaf := AdmitLeaf(before.store, |before.outcome.value|, |Flatten(front)|, last);
  }

  lemma {:induction false} AdmitAllReads(s: Store, plan: ReadPlan, chunks: seq<Bytes>)
    requires AdmitAll(s, chunks).outcome.Ok?
    requires forall i :: 0 <= i < |chunks| ==> |chunks[i]| == ExpectedChunkLength(plan, i)
    ensures LeavesRead(LoaderOf(AdmitAll(s, chunks).store, plan), AdmitAll(s, chunks).outcome.value, chunks)
  {
    if chunks != [] {
      var front, last := chunks[..|chunks| - 1], chunks[|chunks| - 1];
      assert chunks == front + [last];
      var before, leaf := LastAdmitted(s, front, last);
      assert AdmitAll(s, chunks) == Step(leaf.store, Ok(before.outcome.value + [leaf.outcome.value]));
      assert forall i :: 0 <= i < |front| ==> front[i] == chunks[i];
      AdmitAllReads(s, plan, front);
      LeafJoins(before.store, plan, before.outcome.value, front, last);
    }
  }

  lemma {:induction false} LeafJoins(s: Store, plan: ReadPlan, leaves: seq<Id>, chunks: seq<Bytes>, chunk: Bytes)
    requires LeavesRead(LoaderOf(s, plan), leaves, chunks)
    requires |chunk| == ExpectedChunkLength(plan, |chunks|)
    ensures var leaf := AdmitLeaf(s, |leaves|, |Flatten(chunks)|, chunk);
            leaf.outcome.Ok? ==>
              LeavesRead(LoaderOf(leaf.store, plan), leaves + [leaf.outcome.value], chunks + [chunk])
  {
    var leaf := AdmitLeaf(s, |leaves|, |Flatten(chunks)|, chunk);
    if leaf.outcome.Ok? {
      LeafReadsBack(s, plan, |leaves|, |Flatten(chunks)|, chunk);
      GrowthExtends(s, leaf.store, plan);
      LeavesReadOneMore(LoaderOf(s, plan), LoaderOf(leaf.store, plan), leaves, chunks, leaf.outcome.value, chunk);
    }
  }

  predicate IsParent(node: Node) {
    |node.refs| == 2 && node == ParentNode(node.refs[0].id, node.refs[1].id)
  }

  /** The subtree at id has exactly leaves[base..base + count] at its bottom, in the ratified shape. */
  ghost predicate Shaped(s: Store, id: Id, leaves: seq<Id>, base: nat, count: nat)
    requires 1 <= count && base + count <= |leaves|
    decreases count, id
  {
    if count == 1 then id == leaves[base]
    else
      && id in s.nodes && IsParent(s.nodes[id])
      && (Pow2BelowBounds(count);
          var split := Pow2Below(count);
          && Shaped(s, s.nodes[id].refs[0].id, leaves, base, split)
          && Shaped(s, s.nodes[id].refs[1].id, leaves, base + split, count - split))
  }

  lemma {:induction false} ShapeSurvivesGrowth(s: Store, s': Store, id: Id, leaves: seq<Id>, base: nat, count: nat)
    requires 1 <= count && base + count <= |leaves|
    requires Grows(s, s') && Shaped(s, id, leaves, base, count)
    ensures Shaped(s', id, leaves, base, count)
    decreases count
  {
    if count > 1 {
      Pow2BelowBounds(count);
      var split := Pow2Below(count);
      ShapeSurvivesGrowth(s, s', s.nodes[id].refs[0].id, leaves, base, split);
      ShapeSurvivesGrowth(s, s', s.nodes[id].refs[1].id, leaves, base + split, count - split);
    }
  }

  /** A build step that only grew the store and answered a root of the ratified shape. */
  ghost predicate Built(s: Store, tree: Step<Id>, leaves: seq<Id>, base: nat, count: nat)
    requires 1 <= count && base + count <= |leaves|
  {
    tree.outcome.Ok? && Grows(s, tree.store) && Shaped(tree.store, tree.outcome.value, leaves, base, count)
  }

  /** The tree that is built has the ratified shape over the leaves it was given. */
  lemma {:induction false} TreeIsShaped(s: Store, leaves: seq<Id>, base: nat, count: nat) returns (tree: Step<Id>)
    requires 1 <= count && base + count <= |leaves|
    ensures tree == BuildTree(s, leaves, base, count)
    ensures tree.outcome.Ok? ==> Built(s, tree, leaves, base, count)
    decreases count
  {
    if count == 1 { return Step(s, Ok(leaves[base])); }
    Pow2BelowBounds(count);
    var split := Pow2Below(count);
    var left := TreeIsShaped(s, leaves, base, split);
    if left.outcome.Err? { return left; }
    var right := TreeIsShaped(left.store, leaves, base + split, count - split);
    if right.outcome.Err? { return right; }
    tree := PutStep(right.store, ParentNode(left.outcome.value, right.outcome.value));
    if tree.outcome.Ok? { JoinedTreesShaped(s, left, right, tree, leaves, base, count, split); }
  }

  lemma {:induction false} JoinedTreesShaped(s: Store, left: Step<Id>, right: Step<Id>, tree: Step<Id>, leaves: seq<Id>,
                          base: nat, count: nat, split: nat)
    requires base + count <= |leaves| && split == Pow2Below(count) && 1 <= split < count
    requires Built(s, left, leaves, base, split)
    requires Built(left.store, right, leaves, base + split, count - split)
    requires tree == PutStep(right.store, ParentNode(left.outcome.value, right.outcome.value))
    requires tree.outcome.Ok?
    ensures Built(s, tree, leaves, base, count)
  {
    var parent := ParentNode(left.outcome.value, right.outcome.value);
    assert Grows(right.store, tree.store) && tree.outcome.value in tree.store.nodes &&
           tree.store.nodes[tree.outcome.value] == parent by {
      PutStepLoads(right.store, parent);
    }
    assert Grows(left.store, tree.store) by { GrowsTransitive(left.store, right.store, tree.store); }
    assert Grows(s, tree.store) by { GrowsTransitive(s, left.store, tree.store); }
    ShapeSurvivesGrowth(left.store, tree.store, left.outcome.value, leaves, base, split);
    ShapeSurvivesGrowth(right.store, tree.store, right.outcome.value, leaves, base + split, count - split);
  }

  /** The loader answers a parent of the store with its two children. */
  ghost predicate AnswersParents(r: Loader, s: Store) {
    forall id: Id :: id in s.nodes && IsParent(s.nodes[id]) ==>
      r.parent(id) == Ok(Children(s.nodes[id].refs[0].id, s.nodes[id].refs[1].id))
  }

  lemma {:induction false} LoaderAnswersParents(s: Store, plan: ReadPlan)
    ensures AnswersParents(LoaderOf(s, plan), s)
  {
  }

  /** A tree of the ratified shape over leaves that read back reads back itself. */
  lemma {:induction false} ShapedTreeReads(r: Loader, s: Store, id: Id, leaves: seq<Id>, chunks: seq<Bytes>,
                                           base: nat, count: nat)
    requires AnswersParents(r, s) && LeavesRead(r, leaves, chunks)
    requires 1 <= count && base + count <= |leaves|
    requires Shaped(s, id, leaves, base, count)
    ensures Reads(r, id, chunks, base, count)
    decreases count
  {
    if count > 1 {
      Pow2BelowBounds(count);
      var split := Pow2Below(count);
      ShapedTreeReads(r, s, s.nodes[id].refs[0].id, leaves, chunks, base, split);
      ShapedTreeReads(r, s, s.nodes[id].refs[1].id, leaves, chunks, base + split, count - split);
    }
  }

  /** A manifest put over a root resolves to the plan it declares. */
  lemma {:induction false} ManifestResolves(s: Store, root: Id, totalBytes: nat, leafCount: nat)
    requires totalBytes <= MAX_U64 && leafCount <= MAX_U32 && leafCount == ExpectedLeafCount(totalBytes)
    ensures var m := ManifestContent(REFERENCED_CHUNK_RECIPE, totalBytes, leafCount);
            var done := PutStep(s, ManifestNode(m, root));
            && Grows(s, done.store)
            && (done.outcome.Ok? ==>
                  Resolve(done.store, done.outcome.value) ==
                  Ok(ReadPlan(REFERENCED_CHUNK_RECIPE, totalBytes, leafCount, root)))
  {
    var m := ManifestContent(REFERENCED_CHUNK_RECIPE, totalBytes, leafCount);
    PutStepLoads(s, ManifestNode(m, root));
    DecodeEncodedManifest(m);
  }

  /** A shaped tree over leaves that read back streams their chunks, in any store grown from there. */
  lemma {:induction false} ShapedTreeStreams(s: Store, s': Store, plan: ReadPlan, root: Id, leaves: seq<Id>,
                                             chunks: seq<Bytes>)
    requires LeavesRead(LoaderOf(s, plan), leaves, chunks) && leaves != []
    requires Grows(s, s') && Shaped(s', root, leaves, 0, |leaves|)
    ensures Walk(LoaderOf(s', plan), plan, root, 0, |leaves|, None) == Stream(chunks, None)
  {
    var r := LoaderOf(s', plan);
    GrowthExtends(s, s', plan);
    LoaderAnswersParents(s', plan);
    ShapedTreeReads(r, s', root, leaves, chunks, 0, |leaves|);
    ReadsIsWalk(r, plan, root, chunks, 0, |leaves|);
    assert chunks[0..|leaves|] == chunks;
  }

  /** Finalizing leaves that read back as chunks of the recipe's geometry gives a manifest that resolves,
      and whose whole stream is those chunks. */
  lemma {:induction false} FinalizedStreamsBack(s: Store, leaves: seq<Id>, chunks: seq<Bytes>)
    requires Finalize(s, leaves, |Flatten(chunks)|).outcome.Ok?
    requires |leaves| == |chunks| == ExpectedLeafCount(|Flatten(chunks)|)
    requires forall plan: ReadPlan :: plan.totalBytes == |Flatten(chunks)| && plan.leafCount == |chunks| ==>
               LeavesRead(LoaderOf(s, plan), leaves, chunks)
    ensures StreamsBack(Finalize(s, leaves, |Flatten(chunks)|), chunks)
  {
    var totalBytes := |Flatten(chunks)|;
    var _ := TreeIsShaped(s, leaves, 0, |leaves|);
    var tree := BuildTree(s, leaves, 0, |leaves|);
    var root := tree.outcome.value;
    var done := Finalize(s, leaves, totalBytes);
    ManifestResolves(tree.store, root, totalBytes, |leaves|);
    ShapeSurvivesGrowth(tree.store, done.store, root, leaves, 0, |leaves|);
    GrowsTransitive(s, tree.store, done.store);
    var plan := ReadPlan(REFERENCED_CHUNK_RECIPE, totalBytes, |leaves|, root);
    ShapedTreeStreams(s, done.store, plan, root, leaves, chunks);
  }

  /** A finished write whose manifest resolves to the bytes' size and streams back exactly these chunks. */
  ghost predicate StreamsBack(put: Step<Id>, chunks: seq<Bytes>) {
    && put.outcome.Ok?
    && Resolve(put.store, put.outcome.value).Ok?
    && var plan := Resolve(put.store, put.outcome.value).value;
       && plan.totalBytes == |Flatten(chunks)|
       && RequireRecipeOne(plan).Ok?
       && StreamPlan(put.store, plan) == Stream(chunks, None)
  }

  /** Every write that succeeds streams back its canonical split. */
  lemma {:induction false} WrittenBlobStreamsBack(s: Store, bytes: Bytes)
    requires Materialize(s, Split(bytes)).outcome.Ok?
    ensures StreamsBack(Materialize(s, Split(bytes)), Split(bytes))
  {
    SplitGeometry(bytes);
    var chunks := Split(bytes);
    var admitted := AdmitAll(s, chunks);
    forall plan: ReadPlan | plan.totalBytes == |bytes| && plan.leafCount == |chunks|
      ensures LeavesRead(LoaderOf(admitted.store, plan), admitted.outcome.value, chunks)
    {
      AdmitAllReads(s, plan, chunks);
    }
    FinalizedStreamsBack(admitted.store, admitted.outcome.value, chunks);
  }

  lemma {:induction false} StreamedBlobIsGot(put: Step<Id>, chunks: seq<Bytes>)
    requires StreamsBack(put, chunks)
    ensures GetBlob(put.store, put.outcome.value) ==
            if |Flatten(chunks)| > MAX_MATERIALIZED_BYTES then Err(Unmaterializable(|Flatten(chunks)|))
            else Ok(Flatten(chunks))
  {
    if |Flatten(chunks)| <= MAX_MATERIALIZED_BYTES {
      JoinedExactly(chunks, |Flatten(chunks)|);
    }
  }

  /** Put then get: a blob that was written reads back byte for byte, unless it is too large to hold in
      one buffer; the stream of its canonical chunks has no such bound. */
  lemma {:induction false} WrittenBlobReadsBack(s: Store, bytes: Bytes)
    requires Materialize(s, Split(bytes)).outcome.Ok?
    ensures var put := Materialize(s, Split(bytes));
            GetBlob(put.store, put.outcome.value) ==
            if |bytes| > MAX_MATERIALIZED_BYTES then Err(Unmaterializable(|bytes|)) else Ok(bytes)
  {
    WrittenBlobStreamsBack(s, bytes);
    SplitGeometry(bytes);
    StreamedBlobIsGot(Materialize(s, Split(bytes)), Split(bytes));
  }
}
