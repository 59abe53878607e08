/**
  When a write succeeds, what it answers and what it leaves: a blob's graph as one list of nodes, put in order.
  Source: library/effects/src/cas/Blob.ts (`put`), library/effects/src/internal/blobGraph.ts and
  library/effects/src/internal/admission.ts.

  The nodes and their addresses are read off the bytes and the address scheme alone; the store has no part
  in them.
 */
module BlobAdmission {
  import opened Outcomes
  import opened CasStore
  import opened BlobGraph
  import opened BlobRead
  import opened BlobWrite
  import opened BlobSound

  type Scheme = imap<Node, Id>

  function NameOf(scheme: Scheme, node: Node): Id {
    if node in scheme then scheme[node] else ""
  }

  // ---------------------------------------------------------------- the nodes of a blob

  function LeafNodes(scheme: Scheme, index: nat, bytes: Bytes): seq<Node> {
    [ChunkNode(bytes), LeafNode(index, |bytes|, NameOf(scheme, ChunkNode(bytes)))]
  }

  function LeafName(scheme: Scheme, index: nat, bytes: Bytes): Id {
    NameOf(scheme, LeafNodes(scheme, index, bytes)[1])
  }

  function ChunkNodes(scheme: Scheme, chunks: seq<Bytes>): seq<Node> {
    if chunks == [] then []
    else
      var front := chunks[..|chunks| - 1];
      ChunkNodes(scheme, front) + LeafNodes(scheme, |front|, chunks[|chunks| - 1])
  }

  function LeafNames(scheme: Scheme, chunks: seq<Bytes>): (r: seq<Id>)
    ensures |r| == |chunks|
  {
    if chunks == [] then []
    else
      var front := chunks[..|chunks| - 1];
      LeafNames(scheme, front) + [LeafName(scheme, |front|, chunks[|chunks| - 1])]
  }

  /** How a run of leaves is joined, two by two. */
  datatype Shape = Tip(index: nat) | Fork(left: Shape, right: Shape)

  /** The ratified shape over count leaves: split at the largest power of two below the count. */
  function ShapeOf(base: nat, count: nat): Shape
    requires count >= 1
    decreases count, base
  {
    if count == 1 then Tip(base)
    else
      Pow2BelowBounds(count);
      var split := Pow2Below(count);
      Fork(ShapeOf(base, split), ShapeOf(base + split, count - split))
  }

  /** The name of a tree's root over these leaves. */
  function Root(scheme: Scheme, leaves: seq<Id>, shape: Shape): Id {
    match shape
    case Tip(index) => if index < |leaves| then leaves[index] else ""
    case Fork(left, right) => NameOf(scheme, ParentNode(Root(scheme, leaves, left), Root(scheme, leaves, right)))
  }

  /** A tree's parents, children first. */
  function Parents(scheme: Scheme, leaves: seq<Id>, shape: Shape): seq<Node> {
    match shape
    case Tip(_) => []
    case Fork(left, right) =>
      Parents(scheme, leaves, left) + Parents(scheme, leaves, right) +
      [ParentNode(Root(scheme, leaves, left), Root(scheme, leaves, right))]
  }

  function Manifest(scheme: Scheme, bytes: Bytes): Node {
    var leaves := LeafNames(scheme, Split(bytes));
    ManifestNode(ManifestContent(REFERENCED_CHUNK_RECIPE, |bytes|, |leaves|),
                 Root(scheme, leaves, ShapeOf(0, |leaves|)))
  }

  /** Every node of a blob, each after those it refers to. */
  function BlobNodes(scheme: Scheme, bytes: Bytes): seq<Node> {
    var leaves := LeafNames(scheme, Split(bytes));
    ChunkNodes(scheme, Split(bytes)) + Parents(scheme, leaves, ShapeOf(0, |leaves|)) + [Manifest(scheme, bytes)]
  }

  // ---------------------------------------------------------------- nodes put in order

  /** The store that is left, and the refusal that stopped it. */
  datatype PutRun = PutRun(store: Store, failure: Option<CasError>)

  function PutAll(s: Store, nodes: seq<Node>): PutRun {
    if nodes == [] then PutRun(s, None)
    else
      var before := PutAll(s, nodes[..|nodes| - 1]);
      if before.failure.Some? then before
      else
        match Put(before.store, nodes[|nodes| - 1])
        case Admitted(s', _) => PutRun(s', None)
        case Refused(e) => PutRun(before.store, Some(e))
  }

  lemma {:induction false} PutAllAppend(s: Store, a: seq<Node>, b: seq<Node>)
    ensures PutAll(s, a + b) == if PutAll(s, a).failure.Some? then PutAll(s, a) else PutAll(PutAll(s, a).store, b)
  {
    if b == [] {
      assert a + b == a;
    } else {
      PutAllAppend(s, a, b[..|b| - 1]);
      assert (a + b)[..|a + b| - 1] == a + b[..|b| - 1];
    }
  }

  lemma {:induction false} PutAllGrows(s: Store, nodes: seq<Node>)
    ensures Grows(s, PutAll(s, nodes).store)
  {
    if nodes != [] { PutAllGrows(s, nodes[..|nodes| - 1]); }
  }

  /** An operation that answers what putting these nodes answers, under this name. */
  ghost predicate IsRun<T>(step: Step<T>, run: PutRun, answer: T) {
    && step.store == run.store
    && step.outcome == match run.failure case None => Ok(answer) case Some(e) => Err(Cas(e))
  }

  lemma {:induction false} PutOne(s: Store, node: Node)
    ensures IsRun(PutStep(s, node), PutAll(s, [node]), NameOf(s.scheme, node))
  {
    assert [node][..0] == [];
    assert PutAll(s, [node][..0]) == PutRun(s, None);
  }

  lemma {:induction false} LeafIsRun(s: Store, index: nat, totalBytes: nat, bytes: Bytes)
    requires index < MAX_U32 && |bytes| <= MAX_U32 && totalBytes + |bytes| <= MAX_U64
    ensures IsRun(AdmitLeaf(s, index, totalBytes, bytes), PutAll(s, LeafNodes(s.scheme, index, bytes)),
                  LeafName(s.scheme, index, bytes))
  {
    var chunk := ChunkNode(bytes);
    var leaf := LeafNode(index, |bytes|, NameOf(s.scheme, chunk));
    PutOne(s, chunk);
    assert LeafNodes(s.scheme, index, bytes) == [chunk] + [leaf];
    PutAllAppend(s, [chunk], [leaf]);
    PutAllGrows(s, [chunk]);
    PutOne(PutAll(s, [chunk]).store, leaf);
  }

  /** Chunks as long as the recipe allows, and no more of them than a manifest can count. */
  ghost predicate Countable(chunks: seq<Bytes>) {
    |chunks| <= MAX_U32 && forall i :: 0 <= i < |chunks| ==> |chunks[i]| <= CHUNK_SIZE
  }

  lemma {:induction false} CountableFits(chunks: seq<Bytes>)
    requires forall i :: 0 <= i < |chunks| ==> |chunks[i]| <= CHUNK_SIZE
    ensures |Flatten(chunks)| <= |chunks| * 65_536
  {
    if chunks != [] { CountableFits(chunks[..|chunks| - 1]); }
  }

  lemma {:induction false} ChunksAreRun(s: Store, chunks: seq<Bytes>)
    requires Countable(chunks)
    ensures IsRun(AdmitAll(s, chunks), PutAll(s, ChunkNodes(s.scheme, chunks)), LeafNames(s.scheme, chunks))
  {
    if chunks != [] {
      var front, last := chunks[..|chunks| - 1], chunks[|chunks| - 1];
      ChunksAreRun(s, front);
      PutAllGrows(s, ChunkNodes(s.scheme, front));
      PutAllAppend(s, ChunkNodes(s.scheme, front), LeafNodes(s.scheme, |front|, last));
      CountableFits(front);
      LeafIsRun(AdmitAll(s, front).store, |front|, |Flatten(front)|, last);
    }
  }

  /** The tree as it is built, by its shape. */
  function Build(s: Store, leaves: seq<Id>, shape: Shape): Step<Id>
    requires Within(shape, |leaves|)
    decreases shape
  {
    match shape
    case Tip(index) => Step(s, Ok(leaves[index]))
    case Fork(l, r) =>
      var left := Build(s, leaves, l);
      Joined(left, Build(left.store, leaves, r))
  }

  predicate Within(shape: Shape, n: nat) {
    match shape case Tip(index) => index < n case Fork(left, right) => Within(left, n) && Within(right, n)
  }

  lemma {:induction false} BuildsShape(s: Store, leaves: seq<Id>, base: nat, count: nat)
    requires 1 <= count && base + count <= |leaves|
    ensures Within(ShapeOf(base, count), |leaves|)
    ensures BuildTree(s, leaves, base, count) == Build(s, leaves, ShapeOf(base, count))
    decreases count
  {
    if count > 1 {
      var split := ShapeForks(base, count);
      var left := BuildTree(s, leaves, base, split);
      var right := BuildTree(left.store, leaves, base + split, count - split);
      BuildForks(s, leaves, base, count, split, left, right);
      BuildsShape(s, leaves, base, split);
      BuildsShape(left.store, leaves, base + split, count - split);
      JoinBuilds(s, leaves, ShapeOf(base, split), ShapeOf(base + split, count - split), left, right);
    }
  }

  lemma {:induction false} ShapeForks(base: nat, count: nat) returns (split: nat)
    requires count >= 2
    ensures split == Pow2Below(count) && 1 <= split < count
    ensures ShapeOf(base, count) == Fork(ShapeOf(base, split), ShapeOf(base + split, count - split))
  {
    Pow2BelowBounds(count);
    split := Pow2Below(count);
  }

  /** Two subtrees built one after the other, and their parent. */
  function Joined(left: Step<Id>, right: Step<Id>): Step<Id> {
    if left.outcome.Err? then left
    else if right.outcome.Err? then right
    else PutStep(right.store, ParentNode(left.outcome.value, right.outcome.value))
  }

  lemma {:induction false} BuildForks(s: Store, leaves: seq<Id>, base: nat, count: nat, split: nat, left: Step<Id>,
                                      right: Step<Id>)
    requires 2 <= count && base + count <= |leaves| && split == Pow2Below(count) && 1 <= split < count
    requires left == BuildTree(s, leaves, base, split)
    requires right == BuildTree(left.store, leaves, base + split, count - split)
    ensures BuildTree(s, leaves, base, count) == Joined(left, right)
  {
    if left.outcome.Err? {
    } else if right.outcome.Err? {
    }
  }

  lemma {:induction false} JoinBuilds(s: Store, leaves: seq<Id>, l: Shape, r: Shape, left: Step<Id>, right: Step<Id>)
    requires Within(l, |leaves|) && Within(r, |leaves|)
    requires left == Build(s, leaves, l) && right == Build(left.store, leaves, r)
    ensures Build(s, leaves, Fork(l, r)) == Joined(left, right)
  {
  }

  lemma {:induction false} TreeIsRun(s: Store, leaves: seq<Id>, shape: Shape)
    requires Within(shape, |leaves|)
    ensures IsRun(Build(s, leaves, shape), PutAll(s, Parents(s.scheme, leaves, shape)), Root(s.scheme, leaves, shape))
    decreases shape
  {
    match shape
    case Tip(_) =>
    case Fork(left, right) =>
      TreeIsRun(s, leaves, left);
      var a := Parents(s.scheme, leaves, left);
      PutAllGrows(s, a);
      TreeIsRun(PutAll(s, a).store, leaves, right);
      JoinIsRun(s, leaves, left, right, a, Parents(s.scheme, leaves, right), Root(s.scheme, leaves, left),
                Root(s.scheme, leaves, right));
  }

  lemma {:induction false} JoinIsRun(s: Store, leaves: seq<Id>, left: Shape, right: Shape, a: seq<Node>, b: seq<Node>,
                                     leftId: Id, rightId: Id)
    requires Within(left, |leaves|) && Within(right, |leaves|)
    requires IsRun(Build(s, leaves, left), PutAll(s, a), leftId)
    requires IsRun(Build(PutAll(s, a).store, leaves, right), PutAll(PutAll(s, a).store, b), rightId)
    ensures var parent := ParentNode(leftId, rightId);
            IsRun(Build(s, leaves, Fork(left, right)), PutAll(s, a + b + [parent]), NameOf(s.scheme, parent))
  {
    var parent := ParentNode(leftId, rightId);
    var first, second := RunsJoin(s, a, b, parent);
    PutOne(second.store, parent);
  }

  lemma {:induction false} RunsJoin(s: Store, left: seq<Node>, right: seq<Node>, parent: Node)
    returns (a: PutRun, b: PutRun)
    ensures a == PutAll(s, left) && b == PutAll(a.store, right) && b.store.scheme == s.scheme
    ensures PutAll(s, left + right + [parent]) ==
            if a.failure.Some? then a else if b.failure.Some? then b else PutAll(b.store, [parent])
  {
    a := PutAll(s, left);
    b := PutAll(a.store, right);
    PutAllGrows(s, left);
    PutAllGrows(a.store, right);
    PutAllAppend(s, left, right);
    PutAllAppend(s, left + right, [parent]);
  }

  /** A write is its blob's nodes, put in order. */
  lemma {:induction false} WriteIsPuts(s: Store, bytes: Bytes)
    requires |Split(bytes)| <= MAX_U32
    ensures IsRun(Materialize(s, Split(bytes)), PutAll(s, BlobNodes(s.scheme, bytes)),
                  NameOf(s.scheme, Manifest(s.scheme, bytes)))
  {
    var chunks := Split(bytes);
    SplitGeometry(bytes);
    SplitShort(bytes);
    var leaves := LeafNames(s.scheme, chunks);
    var tree := Parents(s.scheme, leaves, ShapeOf(0, |leaves|));
    var a, manifest := ChunkNodes(s.scheme, chunks), Manifest(s.scheme, bytes);
    ChunksAreRun(s, chunks);
    PutAllGrows(s, a);
    var s1 := PutAll(s, a).store;
    BuildsShape(s1, leaves, 0, |leaves|);
    TreeIsRun(s1, leaves, ShapeOf(0, |leaves|));
    PutAllGrows(s1, tree);
    PutOne(PutAll(s1, tree).store, manifest);
    PutAllAppend(s, a, tree);
    PutAllAppend(s, a + tree, [manifest]);
    CountableFits(chunks);
  }

  lemma {:induction false} SplitShort(bytes: Bytes)
    ensures forall i :: 0 <= i < |Split(bytes)| ==> |Split(bytes)[i]| <= CHUNK_SIZE
    decreases |bytes|
  {
    if |bytes| > CHUNK_SIZE { SplitShort(bytes[CHUNK_SIZE..]); }
  }

  // ---------------------------------------------------------------- references

  /** One of these nodes has this name and this kind. */
  ghost predicate Names(scheme: Scheme, nodes: seq<Node>, id: Id, tag: nat) {
    exists j :: 0 <= j < |nodes| && NameOf(scheme, nodes[j]) == id && nodes[j].tag == tag
  }

  /** Each node refers only to those before it. */
  ghost predicate InOrder(scheme: Scheme, nodes: seq<Node>) {
    nodes != [] ==>
      var front, last := nodes[..|nodes| - 1], nodes[|nodes| - 1];
      && InOrder(scheme, front)
      && forall i :: 0 <= i < |last.refs| ==> Names(scheme, front, last.refs[i].id, last.refs[i].expectedTag)
  }

  lemma {:induction false} NamesMore(scheme: Scheme, a: seq<Node>, all: seq<Node>, id: Id, tag: nat)
    requires Names(scheme, a, id, tag) && a <= all
    ensures Names(scheme, all, id, tag)
  {
    var j :| 0 <= j < |a| && NameOf(scheme, a[j]) == id && a[j].tag == tag;
    assert all[j] == a[j];
  }

  /** One node more, referring to those before it. */
  lemma {:induction false} InOrderNext(scheme: Scheme, nodes: seq<Node>, last: Node) returns (all: seq<Node>)
    requires InOrder(scheme, nodes)
    requires forall i :: 0 <= i < |last.refs| ==> Names(scheme, nodes, last.refs[i].id, last.refs[i].expectedTag)
    ensures all == nodes + [last] && InOrder(scheme, all) && Names(scheme, all, NameOf(scheme, last), last.tag)
  {
    all := nodes + [last];
    assert all[..|all| - 1] == nodes && all[|all| - 1] == last;
  }

  /** These leaves are all named by the nodes. */
  ghost predicate NamesLeaves(scheme: Scheme, nodes: seq<Node>, leaves: seq<Id>) {
    forall i :: 0 <= i < |leaves| ==> Names(scheme, nodes, leaves[i], BLOB_NODE_TAG)
  }

  lemma {:induction false} NamesLeavesMore(scheme: Scheme, a: seq<Node>, all: seq<Node>, leaves: seq<Id>)
    requires NamesLeaves(scheme, a, leaves) && a <= all
    ensures NamesLeaves(scheme, all, leaves)
  {
    forall i | 0 <= i < |leaves| ensures Names(scheme, all, leaves[i], BLOB_NODE_TAG) {
      NamesMore(scheme, a, all, leaves[i], BLOB_NODE_TAG);
    }
  }

  lemma {:induction false} LeafInOrder(scheme: Scheme, before: seq<Node>, index: nat, bytes: Bytes)
    returns (all: seq<Node>)
    requires InOrder(scheme, before)
    ensures all == before + LeafNodes(scheme, index, bytes) && InOrder(scheme, all)
    ensures Names(scheme, all, LeafName(scheme, index, bytes), BLOB_NODE_TAG)
  {
    var nodes := LeafNodes(scheme, index, bytes);
    var half := InOrderNext(scheme, before, nodes[0]);
    all := InOrderNext(scheme, half, nodes[1]);
  }

  lemma {:induction false} ChunksInOrder(scheme: Scheme, chunks: seq<Bytes>) returns (all: seq<Node>)
    ensures all == ChunkNodes(scheme, chunks) && InOrder(scheme, all)
    ensures NamesLeaves(scheme, all, LeafNames(scheme, chunks))
  {
    all := [];
    if chunks != [] {
      var front, last := chunks[..|chunks| - 1], chunks[|chunks| - 1];
      var nodes := ChunksInOrder(scheme, front);
      all := LeafInOrder(scheme, nodes, |front|, last);
      NamesLeavesMore(scheme, nodes, all, LeafNames(scheme, front));
    }
  }

  lemma {:induction false} ShapeWithin(leaves: seq<Id>)
    requires leaves != []
    ensures Within(ShapeOf(0, |leaves|), |leaves|)
  {
    BuildsShape(Store(map[], imap[], iset{}), leaves, 0, |leaves|);
  }

  /** The nodes so far, and after them a tree's. */
  lemma {:induction false} TreeInOrder(scheme: Scheme, before: seq<Node>, leaves: seq<Id>, shape: Shape)
    returns (all: seq<Node>)
    requires Within(shape, |leaves|) && InOrder(scheme, before) && NamesLeaves(scheme, before, leaves)
    ensures all == before + Parents(scheme, leaves, shape)
    ensures InOrder(scheme, all) && Names(scheme, all, Root(scheme, leaves, shape), BLOB_NODE_TAG)
    decreases shape
  {
    match shape
    case Tip(index) => all := before;
    case Fork(left, right) =>
      var half := TreeInOrder(scheme, before, leaves, left);
      NamesLeavesMore(scheme, before, half, leaves);
      var both := TreeInOrder(scheme, half, leaves, right);
      NamesMore(scheme, half, both, Root(scheme, leaves, left), BLOB_NODE_TAG);
      all := ParentInOrder(scheme, both, Root(scheme, leaves, left), Root(scheme, leaves, right));
      Chained(before, Parents(scheme, leaves, left), Parents(scheme, leaves, right), all[|both|]);
  }

  lemma {:induction false} Chained(a: seq<Node>, b: seq<Node>, c: seq<Node>, last: Node)
    ensures a + b + c + [last] == a + (b + c + [last])
  {
  }

  lemma {:induction false} ParentInOrder(scheme: Scheme, before: seq<Node>, left: Id, right: Id)
    returns (all: seq<Node>)
    requires InOrder(scheme, before)
    requires Names(scheme, before, left, BLOB_NODE_TAG) && Names(scheme, before, right, BLOB_NODE_TAG)
    ensures all == before + [ParentNode(left, right)] && InOrder(scheme, all)
    ensures Names(scheme, all, NameOf(scheme, ParentNode(left, right)), BLOB_NODE_TAG)
  {
    all := InOrderNext(scheme, before, ParentNode(left, right));
  }

  lemma {:induction false} BlobInOrder(scheme: Scheme, bytes: Bytes)
    ensures InOrder(scheme, BlobNodes(scheme, bytes))
  {
    var leaves := LeafNames(scheme, Split(bytes));
    var chunks := ChunksInOrder(scheme, Split(bytes));
    ShapeWithin(leaves);
    var trees := TreeInOrder(scheme, chunks, leaves, ShapeOf(0, |leaves|));
    var all := InOrderNext(scheme, trees, Manifest(scheme, bytes));
  }

  // ---------------------------------------------------------------- which puts succeed

  /** What is resident once these nodes are. */
  function With(s: Store, nodes: seq<Node>): map<Id, Node> {
    if nodes == [] then s.nodes
    else With(s, nodes[..|nodes| - 1])[NameOf(s.scheme, nodes[|nodes| - 1]) := nodes[|nodes| - 1]]
  }

  function WithAll(s: Store, nodes: seq<Node>): Store { Store(With(s, nodes), s.scheme, s.declines) }

  /** Why node k cannot be put after the ones before it: another node has its address, or the backend would
      have to write it and declines. */
  function Obstacle(s: Store, nodes: seq<Node>, k: nat): Option<CasError>
    requires k < |nodes|
  {
    var id, resident := NameOf(s.scheme, nodes[k]), With(s, nodes[..k]);
    if id in resident then if resident[id] == nodes[k] then None else Some(Collision(id))
    else if nodes[k] in s.declines then Some(BackendFailure)
    else None
  }

  ghost predicate Clear(s: Store, nodes: seq<Node>, n: nat)
    requires n <= |nodes|
  {
    forall k :: 0 <= k < n ==> Obstacle(s, nodes, k).None?
  }

  /** Where nodes stop being put: at the first with something in its way, or nowhere. */
  ghost predicate Stops(s: Store, nodes: seq<Node>, k: nat) {
    k <= |nodes| && Clear(s, nodes, k) && (k < |nodes| ==> Obstacle(s, nodes, k).Some?)
  }

  lemma {:induction false} ClearBefore(s: Store, nodes: seq<Node>, j: nat, k: nat)
    requires k <= |nodes| && Clear(s, nodes, k)
    ensures j < k ==> Obstacle(s, nodes, j).None?
  {
  }

  lemma {:induction false} ObstacleOfFront(s: Store, nodes: seq<Node>, n: nat, k: nat)
    requires k < n <= |nodes|
    ensures Obstacle(s, nodes[..n], k) == Obstacle(s, nodes, k)
  {
    assert nodes[..n][..k] == nodes[..k];
  }

  lemma {:induction false} ClearFront(s: Store, nodes: seq<Node>, n: nat)
    requires n <= |nodes| && Clear(s, nodes, n)
    ensures Clear(s, nodes[..n], n)
  {
    forall k | 0 <= k < n ensures Obstacle(s, nodes[..n], k).None? { ObstacleOfFront(s, nodes, n, k); }
  }

  /** Where nothing is in the way, every node ends up under its name. */
  lemma {:induction false} AllResident(s: Store, nodes: seq<Node>, j: nat)
    requires j < |nodes| && Clear(s, nodes, |nodes|)
    ensures NameOf(s.scheme, nodes[j]) in With(s, nodes) && With(s, nodes)[NameOf(s.scheme, nodes[j])] == nodes[j]
    decreases |nodes|
  {
    var n := |nodes| - 1;
    if j < n {
      ClearFront(s, nodes, n);
      AllResident(s, nodes[..n], j);
      assert Obstacle(s, nodes, n).None?;
    }
  }

  lemma {:induction false} NamedResident(s: Store, nodes: seq<Node>, id: Id, tag: nat)
    requires Clear(s, nodes, |nodes|) && Names(s.scheme, nodes, id, tag)
    ensures Holds(WithAll(s, nodes), Ref(id, tag))
  {
    var j :| 0 <= j < |nodes| && NameOf(s.scheme, nodes[j]) == id && nodes[j].tag == tag;
    AllResident(s, nodes, j);
  }

  lemma {:induction false} NextPut(s: Store, nodes: seq<Node>)
    requires nodes != [] && InOrder(s.scheme, nodes) && Clear(s, nodes, |nodes| - 1)
    ensures var n := |nodes| - 1;
            Put(WithAll(s, nodes[..n]), nodes[n]) ==
            match Obstacle(s, nodes, n)
            case None => Admitted(WithAll(s, nodes), NameOf(s.scheme, nodes[n]))
            case Some(e) => Refused(e)
  {
    var n := |nodes| - 1;
    var front, last := nodes[..n], nodes[n];
    ClearFront(s, nodes, n);
    forall i | 0 <= i < |last.refs| ensures Holds(WithAll(s, front), last.refs[i]) {
      NamedResident(s, front, last.refs[i].id, last.refs[i].expectedTag);
    }
    PutExactly(WithAll(s, front), last);
  }

  /** How far the nodes get, and what is left then. */
  lemma {:induction false} PutsUntil(s: Store, nodes: seq<Node>) returns (k: nat)
    requires InOrder(s.scheme, nodes)
    ensures Stops(s, nodes, k)
    ensures PutAll(s, nodes) ==
            PutRun(WithAll(s, nodes[..k]), if k < |nodes| then Obstacle(s, nodes, k) else None)
  {
    k := 0;
    if nodes != [] {
      var n := |nodes| - 1;
      k := PutsUntil(s, nodes[..n]);
      StopsInFront(s, nodes, k);
      if k == n {
        NextPut(s, nodes);
        if Obstacle(s, nodes, n).None? { k := n + 1; assert nodes[..k] == nodes; }
      }
    }
  }

  lemma {:induction false} StopsInFront(s: Store, nodes: seq<Node>, k: nat)
    requires nodes != [] && Stops(s, nodes[..|nodes| - 1], k)
    ensures Clear(s, nodes, k) && nodes[..|nodes| - 1][..k] == nodes[..k]
    ensures k < |nodes| - 1 ==> Stops(s, nodes, k) && Obstacle(s, nodes[..|nodes| - 1], k) == Obstacle(s, nodes, k)
  {
    var n := |nodes| - 1;
    forall j | 0 <= j <= k && j < n ensures Obstacle(s, nodes[..n], j) == Obstacle(s, nodes, j) {
      ObstacleOfFront(s, nodes, n, j);
    }
  }

  /** What a write of a countable blob answers and leaves, on every store. */
  lemma {:induction false} WriteExactly(s: Store, bytes: Bytes, k: nat)
    requires |Split(bytes)| <= MAX_U32 && Stops(s, BlobNodes(s.scheme, bytes), k)
    ensures var nodes := BlobNodes(s.scheme, bytes);
            Materialize(s, Split(bytes)) ==
            Step(WithAll(s, nodes[..k]),
                 if k < |nodes| then Err(Cas(Obstacle(s, nodes, k).value))
                 else Ok(NameOf(s.scheme, Manifest(s.scheme, bytes))))
  {
    var nodes := BlobNodes(s.scheme, bytes);
    WriteIsPuts(s, bytes);
    BlobInOrder(s.scheme, bytes);
    var j := PutsUntil(s, nodes);
    ClearBefore(s, nodes, j, k);
    ClearBefore(s, nodes, k, j);
  }

  /** A blob of more chunks than a manifest can count is never written. */
  lemma {:induction false} OnlyCountable(s: Store, chunks: seq<Bytes>)
    requires AdmitAll(s, chunks).outcome.Ok?
    ensures |chunks| <= MAX_U32
  {
    if chunks != [] { OnlyCountable(s, chunks[..|chunks| - 1]); }
  }

  /** A write succeeds exactly when its chunks can be counted and nothing is in the way of any of its nodes. */
  lemma {:induction false} WriteSucceedsExactly(s: Store, bytes: Bytes)
    ensures Materialize(s, Split(bytes)).outcome.Ok? <==>
            && |Split(bytes)| <= MAX_U32
            && Clear(s, BlobNodes(s.scheme, bytes), |BlobNodes(s.scheme, bytes)|)
  {
    var nodes := BlobNodes(s.scheme, bytes);
    if |Split(bytes)| <= MAX_U32 {
      BlobInOrder(s.scheme, bytes);
      var k := PutsUntil(s, nodes);
      WriteExactly(s, bytes, k);
    } else if AdmitAll(s, Split(bytes)).outcome.Ok? {
      OnlyCountable(s, Split(bytes));
    }
  }

  // ---------------------------------------------------------------- addresses of blobs

  /** Whatever the stores, a blob that is written has the address its bytes have under the scheme. */
  lemma {:induction false} AddressIsOfBytes(s: Store, t: Store, bytes: Bytes)
    requires s.scheme == t.scheme
    requires Materialize(s, Split(bytes)).outcome.Ok? && Materialize(t, Split(bytes)).outcome.Ok?
    ensures Materialize(s, Split(bytes)).outcome == Materialize(t, Split(bytes)).outcome
  {
    var nodes := BlobNodes(s.scheme, bytes);
    WriteSucceedsExactly(s, bytes);
    WriteSucceedsExactly(t, bytes);
    WriteExactly(s, bytes, |nodes|);
    WriteExactly(t, bytes, |nodes|);
  }

  lemma {:induction false} PutAgain(s: Store, nodes: seq<Node>)
    requires forall j :: 0 <= j < |nodes| ==> Resident(s, NameOf(s.scheme, nodes[j]), nodes[j])
    ensures With(s, nodes) == s.nodes && Clear(s, nodes, |nodes|)
  {
    if nodes != [] {
      var front := nodes[..|nodes| - 1];
      forall j | 0 <= j < |front| ensures Resident(s, NameOf(s.scheme, front[j]), front[j]) {
        assert front[j] == nodes[j];
      }
      PutAgain(s, front);
      forall k | 0 <= k < |nodes| ensures Obstacle(s, nodes, k).None? {
        if k < |front| { ObstacleOfFront(s, nodes, |front|, k); }
      }
    }
  }

  /** Writing a blob again, into the store it left or one grown from it, changes nothing and answers the same. */
  lemma {:induction false} WriteTwice(s: Store, t: Store, bytes: Bytes)
    requires Materialize(s, Split(bytes)).outcome.Ok? && Grows(Materialize(s, Split(bytes)).store, t)
    ensures Materialize(t, Split(bytes)) == Step(t, Materialize(s, Split(bytes)).outcome)
  {
    var nodes := BlobNodes(s.scheme, bytes);
    WriteSucceedsExactly(s, bytes);
    WriteExactly(s, bytes, |nodes|);
    assert nodes[..|nodes|] == nodes;
    forall j | 0 <= j < |nodes| ensures Resident(t, NameOf(s.scheme, nodes[j]), nodes[j]) {
      AllResident(s, nodes, j);
    }
    PutAgain(t, nodes);
    WriteExactly(t, bytes, |nodes|);
  }

  lemma {:induction false} StandsOnGrowth(s: Store, t: Store, ref: Id, bytes: Bytes)
    requires Grows(s, t) && BlobStands(s, ref, bytes)
    ensures BlobStands(t, ref, bytes)
  {
    TreeStandsOnGrowth(s, t, s.nodes[ref].refs[0].id, Split(bytes), 0, |Split(bytes)|);
  }

  lemma {:induction false} TreeStandsOnGrowth(s: Store, t: Store, id: Id, chunks: seq<Bytes>, base: nat, count: nat)
    requires 1 <= count && base + count <= |chunks| && Grows(s, t) && TreeStands(s, id, chunks, base, count)
    ensures TreeStands(t, id, chunks, base, count)
    decreases count
  {
    if count > 1 {
      Pow2BelowBounds(count);
      var split := Pow2Below(count);
      TreeStandsOnGrowth(s, t, s.nodes[id].refs[0].id, chunks, base, split);
      TreeStandsOnGrowth(s, t, s.nodes[id].refs[1].id, chunks, base + split, count - split);
    }
  }

  /** And different bytes never get one address: of two blobs written one after the other, into a store that
      only grew between, the same address means the same bytes. Nothing is asked of the scheme. */
  lemma {:induction false} AddressMeansBytes(s: Store, t: Store, a: Bytes, b: Bytes)
    requires Materialize(s, Split(a)).outcome.Ok? && Grows(Materialize(s, Split(a)).store, t)
    requires Materialize(t, Split(b)).outcome == Materialize(s, Split(a)).outcome
    ensures a == b
  {
    var first, second := Materialize(s, Split(a)), Materialize(t, Split(b));
    var ref := first.outcome.value;
    WrittenBlobStands(s, a);
    WrittenBlobStands(t, b);
    WriteSucceedsExactly(s, a);
    WriteSucceedsExactly(t, b);
    WriteIsPuts(t, b);
    PutAllGrows(t, BlobNodes(t.scheme, b));
    GrowsTransitive(first.store, t, second.store);
    StandsOnGrowth(first.store, second.store, ref, a);
    ShortEnough(a);
    ShortEnough(b);
    OneBlobAtAnAddress(second.store, ref, a, b);
  }

  lemma {:induction false} ShortEnough(bytes: Bytes)
    requires |Split(bytes)| <= MAX_U32
    ensures |bytes| <= MAX_U64
  {
    SplitShort(bytes);
    SplitGeometry(bytes);
    CountableFits(Split(bytes));
  }
}
