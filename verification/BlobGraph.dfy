/**
  Recipe-1 blob graphs: wire fields, leaves, the tree and its manifest.
  Source: library/effects/src/internal/blobGraph.ts.
 */
module BlobGraph {
  import opened Outcomes
  import opened CasStore

  const CHUNK_DATA_TAG: nat := 8
  const BLOB_NODE_TAG: nat := 9
  const BLOB_MANIFEST_TAG: nat := 10
  const REFERENCED_CHUNK_RECIPE: nat := 1
  const MAX_U32: nat := 0xffff_ffff
  const MAX_U64: nat := 0xffff_ffff_ffff_ffff

  datatype BlobError =
    | Cas(error: CasError)
    | Format
    | UnsupportedRecipe(recipeId: nat)
    | OutOfRange(offset: int, length: int, totalBytes: nat)
    | Unmaterializable(bytes: int)

  /** Where a run of n leaves is split: by rounding halves up until two are left. */
  function Pow2Below(n: nat): nat {
    if n <= 2 then 1 else 2 * Pow2Below((n + 1) / 2)
  }

  lemma {:induction false} Pow2BelowBounds(n: nat)
    requires n >= 2
    ensures 1 <= Pow2Below(n) < n
  {
    if n > 2 { Pow2BelowBounds((n + 1) / 2); }
  }

  ghost predicate IsPow2(p: nat) {
    p == 1 || (p > 1 && p % 2 == 0 && IsPow2(p / 2))
  }

  /** It is a power of two, strictly below n, and the next one is not. */
  lemma {:induction false} Pow2BelowIsLargest(n: nat)
    requires n >= 2
    ensures IsPow2(Pow2Below(n))
    ensures 1 <= Pow2Below(n) < n <= 2 * Pow2Below(n)
  {
    if n > 2 {
      Pow2BelowIsLargest((n + 1) / 2);
      assert Pow2Below(n) / 2 == Pow2Below((n + 1) / 2);
    }
  }

  // ---------------------------------------------------------------- wire fields

  function Pow256(width: nat): nat {
    if width == 0 then 1 else 256 * Pow256(width - 1)
  }

  /** A big-endian field of a fixed width; what does not fit is cut off, as the byte writes do. */
  function WriteNat(v: nat, width: nat): (bytes: Bytes)
    ensures |bytes| == width
  {
    if width == 0 then [] else WriteNat(v / 256, width - 1) + [v % 256]
  }

  /** A big-endian read; a missing byte reads as zero. */
  function ReadNat(source: Bytes, offset: nat, width: nat): nat {
    if width == 0 then 0
    else ReadNat(source, offset, width - 1) * 256 +
         if offset + width - 1 < |source| then source[offset + width - 1] else 0
  }

  lemma {:induction false} ReadWritten(v: nat, width: nat, before: Bytes, after: Bytes)
    requires v < Pow256(width)
    ensures ReadNat(before + WriteNat(v, width) + after, |before|, width) == v
  {
    if width > 0 {
      var rest := [v % 256] + after;
      ReadWritten(v / 256, width - 1, before, rest);
      assert before + WriteNat(v, width) + after == before + WriteNat(v / 256, width - 1) + rest;
    }
  }

  lemma {:induction false} WriteRead(source: Bytes, offset: nat, width: nat)
    requires offset + width <= |source|
    ensures ReadNat(source, offset, width) < Pow256(width)
    ensures WriteNat(ReadNat(source, offset, width), width) == source[offset..offset + width]
  {
    if width > 0 {
      WriteRead(source, offset, width - 1);
      var high, low := ReadNat(source, offset, width - 1), source[offset + width - 1];
      assert (high * 256 + low) / 256 == high && (high * 256 + low) % 256 == low;
      assert source[offset..offset + width] == source[offset..offset + width - 1] + [low];
    }
  }

  lemma {:induction false} Widths()
    ensures Pow256(4) == MAX_U32 + 1
    ensures Pow256(8) == MAX_U64 + 1
  {
    assert Pow256(4) == 256 * 256 * 256 * 256;
    assert Pow256(8) == 256 * 256 * 256 * 256 * Pow256(4);
  }

  datatype ManifestContent = ManifestContent(recipeId: nat, totalBytes: nat, leafCount: nat)

  ghost predicate FitsWire(m: ManifestContent) {
    m.recipeId <= MAX_U32 && m.totalBytes <= MAX_U64 && m.leafCount <= MAX_U32
  }

  function EncodeManifest(m: ManifestContent): Bytes {
    WriteNat(m.recipeId, 4) + WriteNat(m.totalBytes, 8) + WriteNat(m.leafCount, 4)
  }

  function DecodeManifest(bytes: Bytes): Option<ManifestContent> {
    if |bytes| != 16 then None
    else Some(ManifestContent(ReadNat(bytes, 0, 4), ReadNat(bytes, 4, 8), ReadNat(bytes, 12, 4)))
  }

  /** Encoding then decoding is the identity on every manifest the wire can carry. */
  lemma {:induction false} DecodeEncodedManifest(m: ManifestContent)
    requires FitsWire(m)
    ensures DecodeManifest(EncodeManifest(m)) == Some(m)
  {
    Widths();
    var a, b, c := WriteNat(m.recipeId, 4), WriteNat(m.totalBytes, 8), WriteNat(m.leafCount, 4);
    ReadWritten(m.recipeId, 4, [], b + c);
    assert a + b + c == [] + a + (b + c);
    ReadWritten(m.totalBytes, 8, a, c);
    ReadWritten(m.leafCount, 4, a + b, []);
    assert a + b + c == (a + b) + c + [];
  }

  /** Every accepted payload is the one canonical encoding of what it decodes to. */
  lemma {:induction false} EncodeDecodedManifest(bytes: Bytes)
    requires DecodeManifest(bytes).Some?
    ensures FitsWire(DecodeManifest(bytes).value)
    ensures EncodeManifest(DecodeManifest(bytes).value) == bytes
  {
    Widths();
    WriteRead(bytes, 0, 4);
    WriteRead(bytes, 4, 8);
    WriteRead(bytes, 12, 4);
    assert bytes == bytes[0..4] + bytes[4..12] + bytes[12..16];
  }

  // ---------------------------------------------------------------- building the graph

  function ChunkNode(bytes: Bytes): Node { Node(CHUNK_DATA_TAG, bytes, []) }

  function LeafPayload(index: nat, chunkLength: nat): Bytes {
    WriteNat(index, 4) + WriteNat(chunkLength, 4)
  }

  function LeafNode(index: nat, chunkLength: nat, chunkId: Id): Node {
    Node(BLOB_NODE_TAG, LeafPayload(index, chunkLength), [Ref(chunkId, CHUNK_DATA_TAG)])
  }

  function ParentNode(left: Id, right: Id): Node {
    Node(BLOB_NODE_TAG, [], [Ref(left, BLOB_NODE_TAG), Ref(right, BLOB_NODE_TAG)])
  }

  function ManifestNode(m: ManifestContent, root: Id): Node {
    Node(BLOB_MANIFEST_TAG, EncodeManifest(m), [Ref(root, BLOB_NODE_TAG)])
  }

  /** A store operation's outcome together with the store it leaves. */
  datatype Step<T> = Step(store: Store, outcome: Result<T, BlobError>)

  function PutStep(s: Store, node: Node): Step<Id> {
    match Put(s, node)
    case Admitted(s', id) => Step(s', Ok(id))
    case Refused(e) => Step(s, Err(Cas(e)))
  }

  /** One chunk as two nodes: its bytes, and a leaf that names them and says where they stand. Nothing is put
      when the index or the total is out of range. */
  function AdmitLeaf(s: Store, index: nat, totalBytes: nat, bytes: Bytes): Step<Id> {
    if index >= MAX_U32 || |bytes| > MAX_U32 || totalBytes + |bytes| > MAX_U64 then Step(s, Err(Format))
    else
      var chunk := PutStep(s, ChunkNode(bytes));
      match chunk.outcome
      case Err(_) => chunk
      case Ok(chunkId) => PutStep(chunk.store, LeafNode(index, |bytes|, chunkId))
  }

  /** The tree over leaves[base..base + count], split at the largest power of two below the count. */
  function BuildTree(s: Store, leaves: seq<Id>, base: nat, count: nat): Step<Id>
    requires 1 <= count && base + count <= |leaves|
    decreases count, leaves
  {
    if count == 1 then Step(s, Ok(leaves[base]))
    else
      Pow2BelowBounds(count);
      var split := Pow2Below(count);
      var left := BuildTree(s, leaves, base, split);
      match left.outcome
      case Err(_) => left
      case Ok(leftId) =>
        var right := BuildTree(left.store, leaves, base + split, count - split);
        match right.outcome
        case Err(_) => right
        case Ok(rightId) => PutStep(right.store, ParentNode(leftId, rightId))
  }

  function Finalize(s: Store, leaves: seq<Id>, totalBytes: nat): Step<Id> {
    if leaves == [] || |leaves| > MAX_U32 || totalBytes > MAX_U64 then Step(s, Err(Format))
    else
      var tree := BuildTree(s, leaves, 0, |leaves|);
      match tree.outcome
      case Err(_) => tree
      case Ok(root) =>
        PutStep(tree.store,
                ManifestNode(ManifestContent(REFERENCED_CHUNK_RECIPE, totalBytes, |leaves|), root))
  }

  // ---------------------------------------------------------------- materializing a chunk list

  function Flatten(chunks: seq<Bytes>): Bytes {
    if chunks == [] then [] else Flatten(chunks[..|chunks| - 1]) + chunks[|chunks| - 1]
  }

  lemma {:induction false} FlattenAppend(a: seq<Bytes>, b: seq<Bytes>)
    ensures Flatten(a + b) == Flatten(a) + Flatten(b)
  {
    if b == [] {
      assert a + b == a;
    } else {
      FlattenAppend(a, b[..|b| - 1]);
      assert (a + b)[..|a + b| - 1] == a + b[..|b| - 1];
    }
  }

  lemma {:induction false} FlattenOne(chunk: Bytes)
    ensures Flatten([chunk]) == chunk
  {
    assert [chunk][..0] == [];
  }

  /** The leaves admitted for a chunk list, in order; the first failure stops it. */
  function AdmitAll(s: Store, chunks: seq<Bytes>): (step: Step<seq<Id>>)
    ensures step.outcome.Ok? ==> |step.outcome.value| == |chunks|
  {
    if chunks == [] then Step(s, Ok([]))
    else
      var front := chunks[..|chunks| - 1];
      var before := AdmitAll(s, front);
      match before.outcome
      case Err(_) => before
      case Ok(leaves) =>
        var leaf := AdmitLeaf(before.store, |leaves|, |Flatten(front)|, chunks[|chunks| - 1]);
        match leaf.outcome
        case Err(e) => Step(leaf.store, Err(e))
        case Ok(leafId) => Step(leaf.store, Ok(leaves + [leafId]))
  }

  /** The graph of an explicit chunk list. */
  function Materialize(s: Store, chunks: seq<Bytes>): Step<Id> {
    var admitted := AdmitAll(s, chunks);
    match admitted.outcome
    case Err(e) => Step(admitted.store, Err(e))
    case Ok(leaves) => Finalize(admitted.store, leaves, |Flatten(chunks)|)
  }

  lemma {:induction false} AdmitAllStops(s: Store, a: seq<Bytes>, b: seq<Bytes>)
    requires AdmitAll(s, a).outcome.Err?
    ensures AdmitAll(s, a + b) == AdmitAll(s, a)
  {
    if b == [] {
      assert a + b == a;
    } else {
      AdmitAllStops(s, a, b[..|b| - 1]);
      assert (a + b)[..|a + b| - 1] == a + b[..|b| - 1];
    }
  }

  lemma {:induction false} GrowsTransitive(a: Store, b: Store, c: Store)
    requires Grows(a, b) && Grows(b, c)
    ensures Grows(a, c)
  {
  }
}
