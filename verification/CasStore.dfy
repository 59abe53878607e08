/**
  The store law the blob layer stands on: a grow-only map of verified nodes.
  Sources: library/effects/src/cas/Store.ts and library/effects/src/internal/admission.ts.

  Addresses are opaque. Nothing here assumes the address function is injective: a put whose address is
  held by a different node is refused, as the admission judge does.
 */
module CasStore {
  import opened Outcomes

  type Byte = b: int | 0 <= b < 256
  type Bytes = seq<Byte>
  type Id = string

  datatype Ref = Ref(id: Id, expectedTag: nat)

  datatype Node = Node(tag: nat, payload: Bytes, refs: seq<Ref>)

  datatype CasError =
    | ContentNotFound(id: Id)
    | DanglingReference(missing: Id)
    | WrongKindReference(ref: Id, expectedTag: nat, actualTag: nat)
    | Collision(id: Id)
    | BackendFailure

  /** The resident nodes, the scheme's addresses, and whatever writes the backend declines. */
  datatype Store = Store(nodes: map<Id, Node>, scheme: imap<Node, Id>, declines: iset<Node>)

  /** The address of a node under the scheme. */
  function Address(s: Store, node: Node): Id {
    if node in s.scheme then s.scheme[node] else ""
  }

  function Load(s: Store, id: Id): Result<Node, CasError> {
    if id in s.nodes then Ok(s.nodes[id]) else Err(ContentNotFound(id))
  }

  /** The first reference at fault: absence before kind mismatch, in declaration order. */
  function RefFault(s: Store, refs: seq<Ref>): Option<CasError> {
    if refs == [] then None
    else if refs[0].id !in s.nodes then Some(DanglingReference(refs[0].id))
    else if s.nodes[refs[0].id].tag != refs[0].expectedTag then
      Some(WrongKindReference(refs[0].id, refs[0].expectedTag, s.nodes[refs[0].id].tag))
    else RefFault(s, refs[1..])
  }

  /** The store a put leaves and the address it answers, or why it was refused. */
  datatype PutOutcome = Admitted(store: Store, id: Id) | Refused(error: CasError)

  /** Admit a node: references first, then residency at its own address. */
  function Put(s: Store, node: Node): PutOutcome {
    var id := Address(s, node);
    match RefFault(s, node.refs)
    case Some(e) => Refused(e)
    case None =>
      if id in s.nodes then
        if s.nodes[id] == node then Admitted(s, id) else Refused(Collision(id))
      else if node in s.declines then Refused(BackendFailure)
      else Admitted(s.(nodes := s.nodes[id := node]), id)
  }

  /** Everything resident stays resident, unchanged, under the same scheme. */
  ghost predicate Grows(s: Store, s': Store) {
    && s'.scheme == s.scheme
    && s'.declines == s.declines
    && forall id :: id in s.nodes ==> id in s'.nodes && s'.nodes[id] == s.nodes[id]
  }

  /** An accepted put answers an address that loads the node back, and disturbs nothing. */
  lemma {:induction false} PutLoads(s: Store, node: Node)
    requires Put(s, node).Admitted?
    ensures Grows(s, Put(s, node).store) && Load(Put(s, node).store, Put(s, node).id) == Ok(node)
  {
  }

  /** The reference names a resident node of the kind it expects. */
  predicate Holds(s: Store, r: Ref) {
    r.id in s.nodes && s.nodes[r.id].tag == r.expectedTag
  }

  ghost predicate AllHold(s: Store, refs: seq<Ref>) {
    forall i :: 0 <= i < |refs| ==> Holds(s, refs[i])
  }

  /** Reference k is the first that does not hold, and this is what is wrong with it. */
  ghost predicate FirstBroken(s: Store, refs: seq<Ref>, k: nat, e: CasError) {
    && k < |refs| && AllHold(s, refs[..k]) && !Holds(s, refs[k])
    && e == if refs[k].id !in s.nodes then DanglingReference(refs[k].id)
            else WrongKindReference(refs[k].id, refs[k].expectedTag, s.nodes[refs[k].id].tag)
  }

  lemma {:induction false} NoneBroken(s: Store, refs: seq<Ref>, n: nat, j: nat)
    requires n <= |refs| && AllHold(s, refs[..n])
    ensures j < n ==> Holds(s, refs[j])
  {
    if j < n { assert refs[..n][j] == refs[j]; }
  }

  lemma {:induction false} RefFaultIsFirst(s: Store, refs: seq<Ref>)
    ensures RefFault(s, refs).None? <==> AllHold(s, refs)
    ensures forall e :: RefFault(s, refs) == Some(e) <==> exists k: nat :: FirstBroken(s, refs, k, e)
  {
    var k := 0;
    while k < |refs| && Holds(s, refs[k])
      invariant k <= |refs| && AllHold(s, refs[..k]) && RefFault(s, refs) == RefFault(s, refs[k..])
    {
      assert refs[k..][0] == refs[k] && refs[k..][1..] == refs[k + 1..];
      assert refs[..k + 1] == refs[..k] + [refs[k]];
      k := k + 1;
    }
    if k < |refs| {
      assert refs[k..][0] == refs[k];
      assert FirstBroken(s, refs, k, RefFault(s, refs).value);
      forall e, j: nat | FirstBroken(s, refs, j, e) ensures j == k {
        NoneBroken(s, refs, j, k);
        NoneBroken(s, refs, k, j);
      }
    } else {
      assert refs[..k] == refs;
    }
  }

  /** What a put answers. It is refused for its first broken reference; then for an address that holds another
      node; then for a write that the backend declines, which is only tried for a node not yet resident.
      Otherwise the store has the node at its address and nothing else is different. */
  lemma {:induction false} PutExactly(s: Store, node: Node)
    ensures var id := Address(s, node);
            && (forall e :: (exists k: nat :: FirstBroken(s, node.refs, k, e)) ==> Put(s, node) == Refused(e))
            && (AllHold(s, node.refs) ==>
                  Put(s, node) ==
                  if id in s.nodes && s.nodes[id] != node then Refused(Collision(id))
                  else if id !in s.nodes && node in s.declines then Refused(BackendFailure)
                  else Admitted(Store(s.nodes[id := node], s.scheme, s.declines), id))
  {
    RefFaultIsFirst(s, node.refs);
    var id := Address(s, node);
    assert id in s.nodes && s.nodes[id] == node ==> s.nodes[id := node] == s.nodes;
  }
}
