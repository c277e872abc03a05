/** The effect of every operation on object references and leases, table by table, and which digests a collector must
    leave alone (internal/controlplane/sqlstore.go). */
module RefFacts {
  import opened Prelude
  import opened ObjectRefs

  /** The owner table has this row. */
  predicate Holds(s: State, digest: string, owner: string) {
    digest in s.owners && owner in s.owners[digest]
  }

  /** Nothing about other digests, and no lease, is different. */
  ghost predicate OnlyOf(s: State, n: State, digest: string) {
    && n.leases == s.leases
    && (forall d, o :: d != digest ==> (Holds(n, d, o) <==> Holds(s, d, o)))
    && (forall d :: d != digest ==> (d in n.refs <==> d in s.refs))
    && forall d :: d != digest && d in s.refs ==> n.refs[d] == s.refs[d]
  }

  /** Recording an owner, once: the count goes up with the first row, a kind or size left out keeps what is known, and
      blanks and letter case of the digest do not matter. */
  lemma EnsureEffect(s: State, digest: string, kind: string, bytes: int, owner: string)
    ensures var d, o, n := Lower(TrimSpace(digest)), TrimSpace(owner), Apply(s, EnsureEv(digest, kind, bytes, owner));
            if d == "" || o == "" || Holds(s, d, o) then n == s
            else
              && OnlyOf(s, n, d) && (forall x :: Holds(n, d, x) <==> x == o || Holds(s, d, x)) && d in n.refs
              && (d !in s.refs ==> n.refs[d] == Ref(kind, bytes, 1))
              && (d in s.refs ==>
                    && n.refs[d].count == s.refs[d].count + 1
                    && n.refs[d].kind == (if |kind| == 0 then s.refs[d].kind else kind)
                    && n.refs[d].bytes == if 0 < bytes then bytes else s.refs[d].bytes)
  {
  }

  /** Withdrawing an owner that is recorded: the count goes down, never below nothing. */
  lemma ReleaseEffect(s: State, digest: string, owner: string)
    ensures var d, o, n := Lower(TrimSpace(digest)), TrimSpace(owner), Apply(s, ReleaseEv(digest, owner));
            if d == "" || o == "" || !Holds(s, d, o) then n == s
            else
              && OnlyOf(s, n, d) && (forall x :: Holds(n, d, x) <==> x != o && Holds(s, d, x))
              && (d in n.refs <==> d in s.refs)
              && (d in s.refs ==> n.refs[d].kind == s.refs[d].kind && n.refs[d].bytes == s.refs[d].bytes)
              && (d in s.refs && 1 <= s.refs[d].count ==> n.refs[d].count == s.refs[d].count - 1)
              && (d in s.refs && s.refs[d].count <= 0 ==> n.refs[d].count == 0)
  {
  }

  /** The unowned adjustment takes the digest as it is written, refuses to go below nothing, and touches no owner. */
  lemma AdjustEffect(s: State, digest: string, kind: string, bytes: int, delta: int)
    ensures var n := Apply(s, AdjustEv(digest, kind, bytes, delta));
            var was := if digest in s.refs then s.refs[digest].count else 0;
            if TrimSpace(digest) == "" || was + delta < 0 then n == s
            else
              && OnlyOf(s, n, digest) && n.owners == s.owners && digest in n.refs && n.refs[digest].count == was + delta
              && n.refs[digest].kind == (if digest in s.refs && |kind| == 0 then s.refs[digest].kind else kind)
              && n.refs[digest].bytes == if digest in s.refs && bytes <= 0 then s.refs[digest].bytes else bytes
  {
  }

  /** A lease needs a digest, an owner and an end, and replaces the one of the same name; dropping takes it away. */
  lemma LeaseEffect(s: State, id: string, l: Lease)
    ensures var n := Apply(s, AcquireEv(id, l));
            && n.refs == s.refs && n.owners == s.owners
            && (|l.digest| == 0 || |l.owner| == 0 || l.expires == 0 ==> n == s)
            && (0 < |l.digest| && 0 < |l.owner| && l.expires != 0 ==> n.leases == s.leases[id := l])
    ensures var n := Apply(s, DropEv(id));
            && n.refs == s.refs && n.owners == s.owners && id !in n.leases
            && forall other :: other != id ==>
                 (other in n.leases <==> other in s.leases) && (other in s.leases ==> n.leases[other] == s.leases[other])
  {
  }

  /** A digest is protected by a positive count, or by a lease that ends later than now; by nothing else. */
  lemma ProtectedIff(s: State, now: int, digest: string)
    ensures digest in Protected(s, now)
       <==> || (digest in s.refs && 1 <= s.refs[digest].count)
            || exists id :: id in s.leases && s.leases[id].digest == digest && now < s.leases[id].expires
  {
  }

  /** In books that balance, a digest stays protected until its last owner is withdrawn; after that only a lease
      protects it. */
  lemma LastOwnerLeaves(s: State, digest: string, owner: string, now: int)
    requires Balanced(s) && Lower(TrimSpace(digest)) == digest != "" && TrimSpace(owner) == owner != "" && Holds(s, digest, owner)
    ensures digest in Protected(s, now)
    ensures var n := Apply(s, ReleaseEv(digest, owner));
            digest in Protected(n, now)
            <==> || (exists o :: o != owner && Holds(s, digest, o))
                 || exists id :: id in s.leases && s.leases[id].digest == digest && now < s.leases[id].expires
  {
    var n := Apply(s, ReleaseEv(digest, owner));
    OwnedIsProtected(s, digest, owner, now);
    ReleaseKeepsBalance(s, digest, owner);
    assert CountOf(n, digest) == |OwnersOf(n, digest)| && OwnersOf(n, digest) == s.owners[digest] - {owner};
    if OwnersOf(n, digest) != {} {
      var o :| o in OwnersOf(n, digest);
      assert Holds(s, digest, o);
    }
    ProtectedIff(n, now, digest);
  }
}
