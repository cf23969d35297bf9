/** The signed, hash-chained op-log: its entries and the total order over them.

    `digest` stands for the value of `Op::hash` (BLAKE3 over the signing bytes and
    the signature); `prev` is the digest of the predecessor, zero for a chain root.
    Collision freedom of the hash is never built into the type: it is the predicate
    `DigestsIdentify`, required where an argument needs it. */
module OpLog {
  type Digest = nat
  type NoteId = nat
  type AuthorKey = nat

  datatype LinkRel = Related | Supersedes | Contradicts | Refines | Duplicates

  datatype OpKind =
    | Remember
    | Edit
    | Forget
    | Redact
    | Link(to: NoteId)
    | Relate(to: NoteId, rel: LinkRel)
    | Reinforce

  datatype Op = Op(
    opId: nat,
    author: string,
    authorKey: AuthorKey,
    lamport: nat,
    keyEpoch: nat,
    kind: OpKind,
    noteId: NoteId,
    objectKey: string,
    cid: Digest,
    prev: Digest,
    digest: Digest)

  const GENESIS_PREV: Digest := 0

  /** The millisecond timestamp in the top 48 bits of a 128-bit ULID. */
  function TimestampMs(ulid: nat): nat {
    ulid / 0x1_0000_0000_0000_0000_0000
  }

  /** Equal digests mean the same op: what a collision-free hash gives any set of ops. */
  ghost predicate DigestsIdentify(ops: set<Op>) {
    forall a, b :: a in ops && b in ops && a.digest == b.digest ==> a == b
  }

  /** `op_outranks`: the order (lamport, op_id, author_key, hash), strictly. */
  predicate Outranks(a: Op, b: Op) {
    if a.lamport != b.lamport then a.lamport > b.lamport
    else if a.opId != b.opId then a.opId > b.opId
    else if a.authorKey != b.authorKey then a.authorKey > b.authorKey
    else a.digest > b.digest
  }

  /** `a` is the op of `ops` that no other outranks. */
  ghost predicate Leads(a: Op, ops: set<Op>) {
    a in ops && forall b :: b in ops && b != a ==> Outranks(a, b)
  }

  function ToSet(ops: seq<Op>): set<Op> {
    set op | op in ops
  }
}
