/** What a source packs and what a target takes, in terms of digests, score texts and archive entries
    (internal/cassync/cassync.go). */
module SyncFacts {
  import opened Prelude
  import opened Finite
  import opened Ordering
  import opened Inventory
  import opened CasManifest
  import opened CasSync
  import opened CasInstall
  import opened CasTransfer
  import CasReconcile

  // --- Who should hold an object -----------------------------------------------------------------

  /** 64 hexadecimal digits in lower case. */
  lemma ValidIff(d: string)
    ensures ValidDigest(d) <==> |d| == 64 && forall c :: c in d ==> '0' <= c <= '9' || 'a' <= c <= 'f'
  {
    if forall c :: c in d ==> '0' <= c <= '9' || 'a' <= c <= 'f' {
      forall i | 0 <= i < |d| ensures HexDigit(d[i]) {
        assert d[i] in d;
      }
    }
  }

  /** An agent is desired when fewer than `factor` agents of the pool have a higher score text, or the same one and a
      smaller identity. */
  lemma DesiredIff(digest: string, hash: string -> string, pool: set<string>, factor: int, id: string, ahead: set<string>)
    requires forall y :: y in ahead <==>
               && y in pool
               && (TextLess(hash(digest + "\0" + id), hash(digest + "\0" + y))
                   || (hash(digest + "\0" + id) == hash(digest + "\0" + y) && TextLess(y, id)))
    ensures Desired(digest, hash, pool, factor, id) <==> id in pool && |ahead| < factor
  {
    forall y ensures y in ahead <==> y in Before(digest, hash, pool, id) {
      TextConnected(hash(digest + "\0" + id), hash(digest + "\0" + y));
    }
    assert ahead == Before(digest, hash, pool, id);
  }

  /** The agent with the highest score is always among the desired. */
  lemma HighestIsDesired(digest: string, hash: string -> string, pool: set<string>, factor: int, id: string)
    requires id in pool && 1 <= factor
    requires forall y :: y in pool && y != id ==> TextLess(hash(digest + "\0" + y), hash(digest + "\0" + id))
    ensures Desired(digest, hash, pool, factor, id)
  {
    forall y | y in pool && y != id ensures !TextLess(hash(digest + "\0" + id), hash(digest + "\0" + y)) {
      TextConnected(hash(digest + "\0" + id), hash(digest + "\0" + y));
    }
    TextConnected(id, id);
    TextConnected(hash(digest + "\0" + id), hash(digest + "\0" + id));
    DesiredIff(digest, hash, pool, factor, id, {});
  }

  // --- What is packed --------------------------------------------------------------------------------

  /** A stored object is packed when its name is a digest, the request names its first two characters, in either case,
      and the target should hold it. */
  lemma PackedIff(store: Objects, prefixes: seq<string>, pool: set<string>, factor: int, target: string, hash: string -> string, d: string)
    ensures d in Parcel(store, Lowered(prefixes), pool, factor, target, hash)
       <==> && d in store && |d| == 64 && (forall c :: c in d ==> '0' <= c <= '9' || 'a' <= c <= 'f')
            && (exists p :: p in prefixes && Lower(p) == d[..2]) && Desired(d, hash, pool, factor, target)
    ensures d in Parcel(store, Lowered(prefixes), pool, factor, target, hash) ==>
              Parcel(store, Lowered(prefixes), pool, factor, target, hash)[d] == store[d]
  {
    ValidIff(d);
  }

  /** A digest asked for by name is read without the blanks around it and in lower case. */
  lemma AvailableIff(d: string, store: Objects, sum: Bytes -> string)
    requires Digest(sum)
    ensures Available(d, store, sum)
       <==> var n := Lower(TrimSpace(d));
            |n| == 64 && (forall c :: c in n ==> '0' <= c <= '9' || 'a' <= c <= 'f') && n in store && sum(store[n]) == n
  {
    ValidIff(Normal(d));
    if ValidDigest(Normal(d)) && Normal(d) in store {
      IntactMeansTrue(Normal(d), store[Normal(d)], sum);
    }
  }

  /** Asking for digests by name sends all of them or nothing. */
  method SendNamed(store: Objects, digests: seq<string>, sum: Bytes -> string) returns (entries: seq<Entry>, ok: bool)
    requires Digest(sum)
    ensures ok <==> forall d :: d in digests ==>
              var n := Lower(TrimSpace(d));
              |n| == 64 && (forall c :: c in n ==> '0' <= c <= '9' || 'a' <= c <= 'f') && n in store && sum(store[n]) == n
    ensures ok ==> forall d :: d in Contents(entries) <==> exists e :: e in digests && Lower(TrimSpace(e)) == d
    ensures ok ==> forall d :: d in Contents(entries) ==> d in store && Contents(entries)[d] == store[d]
  {
    entries, ok := ArchiveDigests(store, digests, sum);
    forall d | d in digests
      ensures Available(d, store, sum)
         <==> var n := Lower(TrimSpace(d));
              |n| == 64 && (forall c :: c in n ==> '0' <= c <= '9' || 'a' <= c <= 'f') && n in store && sum(store[n]) == n
    {
      AvailableIff(d, store, sum);
    }
    if ok {
      assert Contents(entries).Keys == Requested(digests);
    }
  }

  // --- What is taken ------------------------------------------------------------------------------------

  /** The contents of an archive by position: the last entry of a digest counts. */
  lemma {:induction false} ContentsIff(entries: seq<Entry>, d: string, content: Bytes)
    ensures (d in Contents(entries) && Contents(entries)[d] == content)
       <==> exists i :: 0 <= i < |entries| && entries[i] == Packed(d, content)
                        && forall j :: i < j < |entries| && entries[j].Packed? ==> entries[j].digest != d
  {
    if entries != [] {
      var n := |entries| - 1;
      ContentsIff(entries[..n], d, content);
      if i :| 0 <= i < |entries| && entries[i] == Packed(d, content)
              && forall j :: i < j < |entries| && entries[j].Packed? ==> entries[j].digest != d {
        if i < n {
          assert entries[..n][i] == Packed(d, content);
        }
      }
      if i :| 0 <= i < n && entries[..n][i] == Packed(d, content)
              && forall j :: i < j < n && entries[..n][j].Packed? ==> entries[..n][j].digest != d {
        if !(entries[n].Packed? && entries[n].digest == d) {
          assert entries[i] == Packed(d, content);
        }
      }
    }
  }

  /** Every entry is an object under its true digest or a manifest of readable length, and no object comes twice. */
  ghost predicate WellFormed(entries: seq<Entry>, sum: Bytes -> string) {
    && (forall i :: 0 <= i < |entries| ==>
          match entries[i]
          case Packed(d, content) => ValidDigest(d) && sum(content) == d
          case Index(_, length) => length <= 8388608
          case Stray(_) => false)
    && forall i, j :: 0 <= i < j < |entries| && entries[i].Packed? && entries[j].Packed? ==> entries[i].digest != entries[j].digest
  }

  lemma Carried(entries: seq<Entry>, d: string)
    ensures d in Contents(entries) <==> exists i :: 0 <= i < |entries| && entries[i].Packed? && entries[i].digest == d
  {
    if entries != [] {
      var n := |entries| - 1;
      Carried(entries[..n], d);
      assert forall i :: 0 <= i < n ==> entries[..n][i] == entries[i];
    }
  }

  lemma {:induction false} AcceptableIff(entries: seq<Entry>, sum: Bytes -> string)
    ensures Acceptable(entries, sum) <==> WellFormed(entries, sum)
  {
    if entries != [] {
      var n := |entries| - 1;
      AcceptableIff(entries[..n], sum);
      assert forall i :: 0 <= i < n ==> entries[..n][i] == entries[i];
      if entries[n].Packed? {
        Carried(entries[..n], entries[n].digest);
      }
    }
  }

  /** The manifest that counts is the last one; without one there is nothing to check. */
  lemma {:induction false} ManifestIs(entries: seq<Entry>)
    ensures forall i :: 0 <= i < |entries| && entries[i].Index? && (forall j :: i < j < |entries| ==> !entries[j].Index?) ==>
              Manifest(entries) == entries[i].items
    ensures (forall i :: 0 <= i < |entries| ==> !entries[i].Index?) ==> Manifest(entries) == []
  {
    if entries != [] {
      var n := |entries| - 1;
      ManifestIs(entries[..n]);
      assert forall i :: 0 <= i < n ==> entries[..n][i] == entries[i];
    }
  }

  /** Installing goes through exactly when the archive is well formed, no copy the store has of its objects is damaged,
      and every object of its manifest ends up in the store, undamaged, with the listed length if it was sent. */
  lemma InstallableIff(entries: seq<Entry>, store: Objects, sum: Bytes -> string)
    ensures Installable(entries, store, sum)
       <==> && WellFormed(entries, sum)
            && (forall d :: d in Contents(entries) && d in store ==> sum(store[d]) == d)
            && forall i :: i in Manifest(entries) ==>
                 if i.digest in store then
                   sum(store[i.digest]) == i.digest && (i.digest in Contents(entries) ==> |Contents(entries)[i.digest]| == i.bytes)
                 else
                   i.digest in Contents(entries) && |Contents(entries)[i.digest]| == i.bytes
  {
    AcceptableIff(entries, sum);
    if Acceptable(entries, sum) {
      StagedTrue(entries, sum);
    }
  }

  // --- Where new objects come from ---------------------------------------------------------------------

  /** An object that is new on an agent after any run of a plan was asked for by an order to that agent, and some agent
      had it undamaged before the run. */
  lemma NewIsExplained(worlds: seq<World>, orders: seq<CasReconcile.Order>, i: nat, plan: seq<CasReconcile.Order>, sources: set<string>,
                       hash: Hash, sum: Sum, a: string, d: string)
    requires Runs(worlds, orders, hash, sum) && i < |worlds| && Closed(plan, sources) && forall o :: o in orders ==> o in plan
    requires a in sources && a in worlds[i] && d in worlds[i][a] && (a in worlds[0] ==> d !in worlds[0][a])
    ensures exists p :: p in plan && p.target == a && 2 <= |d| && (exists q :: q in p.prefixes && Lower(q) == d[..2])
                        && Desired(d, hash, p.pool, p.factor, a)
    ensures exists s :: s in sources && s in worlds[0] && d in worlds[0][s] && sum(worlds[0][s][d]) == d
  {
    RunExplained(worlds, orders, i, plan, sources, hash, sum);
    assert Arrives(worlds[0], plan, sources, a, d, hash, sum);
    var p :| p in plan && p.target == a && Asks(p, d, hash);
  }
}
