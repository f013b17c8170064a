/**
 * Content-addressed blobs, commits and head refs, shared by the transfer,
 * publication and export modules.
 *
 * A digest is modelled by the blob it was computed from. Equal digests then mean
 * equal blobs, which is the collision freedom the system relies on.
 */
module Ledger {
  datatype Option<+T> = None | Some(value: T)

  datatype Result<+T, +E> = Ok(value: T) | Err(error: E)

  datatype Codec = CommitCodec | TxnCodec | OtherCodec

  /** A content id: what kind of object, and the digest of its bytes. */
  datatype Cid = Cid(codec: Codec, digest: Blob)

  /** Stored bytes: a well-formed commit, or bytes that do not parse as one. */
  datatype Blob = CommitBlob(commit: Commit) | OpaqueBlob(bytes: seq<nat>)

  /** The identity of a fact: graph, subject, predicate, object, datatype, metadata. */
  datatype Fact = Fact(g: Option<string>, s: string, p: string, o: string, dt: string, m: Option<string>)

  /** One operation of a commit: assert (`op`) or retract a fact. */
  datatype Flake = Flake(fact: Fact, op: bool)

  datatype Commit = Commit(
    t: int,
    parents: seq<Cid>,
    txn: Option<Cid>,
    flakes: seq<Flake>,
    nsDelta: map<nat, string>)

  /** The value of a head ref; an unborn ledger has no id and t = 0. */
  datatype RefValue = RefValue(id: Option<Cid>, t: int)

  function CommitCid(c: Commit): Cid {
    Cid(CommitCodec, CommitBlob(c))
  }

  /** Reading a blob as a commit fails on anything that is not one. */
  function ReadCommit(b: Blob): Option<Commit> {
    match b
    case CommitBlob(c) => Some(c)
    case OpaqueBlob(_) => None
  }

  /** `ContentId::verify`: the bytes hash to the digest the id names. */
  predicate Verify(id: Cid, b: Blob) {
    id.digest == b
  }

  /**
   * `compare_and_set_ref` for a commit head; None is a ledger without a nameservice record. An
   * existing record is updated only for an expected value with the same id, and if t grows.
   */
  predicate CasUpdates(current: Option<RefValue>, expected: Option<RefValue>, next: RefValue) {
    match (expected, current)
    case (None, None) => true
    case (None, Some(_)) => false
    case (Some(_), None) => false
    case (Some(e), Some(c)) => e.id == c.id && next.t > c.t
  }

  function Least(a: nat, b: nat): nat { if a < b then a else b }
}
