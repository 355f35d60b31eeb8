/**
 What an event's hash is (platform/audit.py, `compute_hash`) and what is assumed of SHA-256: only that
 it never sends two texts to one digest. That the genesis link is never a real event's hash is not
 assumed: it follows, because the genesis text is not the serialization of any event.
 */
module AuditHash {
  import opened CanonicalJson

  /** How events are hashed, and the link of an organization's first event. */
  datatype Scheme = Scheme(hash: (Covered, string) -> string, genesis: string) {
    /** The hash determines what it was taken over, and is never the genesis link. */
    ghost predicate Ideal() {
      && (forall a, p, b, q :: hash(a, p) == hash(b, q) ==> a == b && p == q)
      && (forall a, p :: hash(a, p) != genesis)
    }
  }

  ghost predicate CollisionFree(digest: string -> string) {
    forall x, y :: digest(x) == digest(y) ==> x == y
  }

  /** The repository's scheme over a digest. */
  function SchemeOf(digest: string -> string): Scheme {
    Scheme((c, previousHash) => digest(Preimage(c, previousHash)), digest("iluvtrade/audit-chain/genesis/v1"))
  }

  lemma NotGenesis(c: Covered, previousHash: string)
    ensures Preimage(c, previousHash) != "iluvtrade/audit-chain/genesis/v1"
  {
    assert Preimage(c, previousHash)[0] == '{';
  }

  lemma HashIsIdeal(digest: string -> string, a: Covered, p: string, b: Covered, q: string)
    requires CollisionFree(digest)
    ensures digest(Preimage(a, p)) == digest(Preimage(b, q)) ==> a == b && p == q
    ensures digest(Preimage(a, p)) != digest("iluvtrade/audit-chain/genesis/v1")
  {
    NotGenesis(a, p);
    Distinct(digest, Preimage(a, p), Preimage(b, q), "iluvtrade/audit-chain/genesis/v1");
    if Preimage(a, p) == Preimage(b, q) {
      PreimageDetermines(a, p, b, q);
    }
  }

  lemma Distinct(digest: string -> string, u: string, v: string, g: string)
    requires CollisionFree(digest) && u != g
    ensures (digest(u) == digest(v) ==> u == v) && digest(u) != digest(g)
  {
  }

  /** Freedom from collisions is all the chain needs of the digest. */
  lemma SchemeIsIdeal(digest: string -> string)
    requires CollisionFree(digest)
    ensures SchemeOf(digest).Ideal()
  {
    forall a, p, b, q {
      HashIsIdeal(digest, a, p, b, q);
    }
  }
}
