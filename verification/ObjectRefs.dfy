/** Durable object references and leases, the roots that protect CAS objects from collection
    (internal/controlplane/sqlstore.go). A lease that expires at 0 has no expiry set. */
module ObjectRefs {
  import opened Prelude

  datatype Ref = Ref(kind: string, bytes: int, count: int)

  datatype Lease = Lease(digest: string, owner: string, expires: int)

  datatype State = State(refs: map<string, Ref>, owners: map<string, set<string>>, leases: map<string, Lease>)

  const EMPTY := State(map[], map[], map[])

  function Norm(digest: string): string {
    Lower(TrimSpace(digest))
  }

  function OwnersOf(s: State, digest: string): set<string> {
    if digest in s.owners then s.owners[digest] else {}
  }

  function CountOf(s: State, digest: string): int {
    if digest in s.refs then s.refs[digest].count else 0
  }

  /** The row after counting one more or one fewer owner; blanks keep what was recorded. */
  function Merge(s: State, digest: string, kind: string, bytes: int, delta: int): Ref {
    if digest !in s.refs then Ref(kind, bytes, delta)
    else
      var cur := s.refs[digest];
      Ref(if kind == "" then cur.kind else kind, if bytes <= 0 then cur.bytes else bytes, cur.count + delta)
  }

  function Ensure(s: State, digest: string, kind: string, bytes: int, owner: string): State {
    var d, o := Norm(digest), TrimSpace(owner);
    if d == "" || o == "" || o in OwnersOf(s, d) then s
    else s.(owners := s.owners[d := OwnersOf(s, d) + {o}], refs := s.refs[d := Merge(s, d, kind, bytes, 1)])
  }

  function Release(s: State, digest: string, owner: string): State {
    var d, o := Norm(digest), TrimSpace(owner);
    if d == "" || o == "" || o !in OwnersOf(s, d) then s
    else
      var left := s.(owners := s.owners[d := OwnersOf(s, d) - {o}]);
      if d !in s.refs then left
      else left.(refs := s.refs[d := s.refs[d].(count := if s.refs[d].count > 0 then s.refs[d].count - 1 else 0)])
  }

  /** The unowned adjustment: it moves the count alone. */
  function Adjust(s: State, digest: string, kind: string, bytes: int, delta: int): State {
    if TrimSpace(digest) == "" || CountOf(s, digest) + delta < 0 then s
    else s.(refs := s.refs[digest := Merge(s, digest, kind, bytes, delta)])
  }

  function Acquire(s: State, id: string, l: Lease): State {
    if l.digest == "" || l.owner == "" || l.expires == 0 then s else s.(leases := s.leases[id := l])
  }

  function Drop(s: State, id: string): State {
    s.(leases := s.leases - {id})
  }

  /** The digests no collector may remove. */
  function Protected(s: State, now: int): set<string> {
    (set d | d in s.refs && s.refs[d].count > 0)
    + set id | id in s.leases && s.leases[id].expires > now :: s.leases[id].digest
  }

  datatype Event =
    | EnsureEv(digest: string, kind: string, bytes: int, owner: string)
    | ReleaseEv(digest: string, owner: string)
    | AdjustEv(digest: string, kind: string, bytes: int, delta: int)
    | AcquireEv(id: string, lease: Lease)
    | DropEv(id: string)
    | IdleEv

  function Apply(s: State, e: Event): State {
    match e
    case EnsureEv(d, kind, bytes, o) => Ensure(s, d, kind, bytes, o)
    case ReleaseEv(d, o) => Release(s, d, o)
    case AdjustEv(d, kind, bytes, delta) => Adjust(s, d, kind, bytes, delta)
    case AcquireEv(id, l) => Acquire(s, id, l)
    case DropEv(id) => Drop(s, id)
    case IdleEv => s
  }

  ghost predicate Run(states: seq<State>, events: seq<Event>) {
    && |states| == |events| + 1
    && forall i :: 0 <= i < |events| ==> states[i + 1] == Apply(states[i], events[i])
  }

  // --- The tables as an object ----------------------------------------------------

  class Tables {
    var refs: map<string, Ref>
    var owners: map<string, set<string>>
    var leases: map<string, Lease>

    ghost function Now(): State
      reads this
    {
      State(refs, owners, leases)
    }

    constructor ()
      ensures Now() == EMPTY
    {
      refs, owners, leases := map[], map[], map[];
    }

    method EnsureObjectRef(digest: string, kind: string, bytes: int, owner: string) returns (r: Result<bool, string>)
      modifies this
      ensures Now() == Apply(old(Now()), EnsureEv(digest, kind, bytes, owner))
      ensures r == if Norm(digest) == "" || TrimSpace(owner) == "" then Failure("digest and owner are required")
                   else Success(TrimSpace(owner) !in OwnersOf(old(Now()), Norm(digest)))
    {
      var d, o := Norm(digest), TrimSpace(owner);
      if d == "" || o == "" {
        return Failure("digest and owner are required");
      }
      var current := if d in owners then owners[d] else {};
      if o in current {
        return Success(false);
      }
      owners := owners[d := current + {o}];
      if d in refs {
        var cur := refs[d];
        refs := refs[d := Ref(if kind == "" then cur.kind else kind, if bytes <= 0 then cur.bytes else bytes, cur.count + 1)];
      } else {
        refs := refs[d := Ref(kind, bytes, 1)];
      }
      r := Success(true);
    }

    method ReleaseObjectRef(digest: string, owner: string) returns (r: Result<bool, string>)
      modifies this
      ensures Now() == Apply(old(Now()), ReleaseEv(digest, owner))
      ensures r == if Norm(digest) == "" || TrimSpace(owner) == "" then Failure("digest and owner are required")
                   else Success(TrimSpace(owner) in OwnersOf(old(Now()), Norm(digest)))
    {
      var d, o := Norm(digest), TrimSpace(owner);
      if d == "" || o == "" {
        return Failure("digest and owner are required");
      }
      var current := if d in owners then owners[d] else {};
      if o !in current {
        return Success(false);
      }
      owners := owners[d := current - {o}];
      if d in refs {
        refs := refs[d := refs[d].(count := if refs[d].count > 0 then refs[d].count - 1 else 0)];
      }
      r := Success(true);
    }

    method AcquireObjectLease(id: string, l: Lease) returns (ok: bool)
      modifies this`leases
      ensures Now() == Apply(old(Now()), AcquireEv(id, l))
      ensures ok <==> l.digest != "" && l.owner != "" && l.expires != 0
    {
      if l.digest == "" || l.owner == "" || l.expires == 0 {
        return false;
      }
      leases := leases[id := l];
      ok := true;
    }

    method ReleaseObjectLease(id: string)
      modifies this`leases
      ensures Now() == Apply(old(Now()), DropEv(id))
    {
      leases := leases - {id};
    }

    method ProtectedObjectDigests(now: int) returns (out: set<string>)
      ensures out == Protected(Now(), now)
    {
      out := {};
      var todo := refs.Keys;
      while todo != {}
        invariant todo <= refs.Keys
        invariant out == set d | d in refs.Keys - todo && refs[d].count > 0
      {
        var d :| d in todo;
        if refs[d].count > 0 {
          out := out + {d};
        }
        todo := todo - {d};
      }
      ghost var counted := out;
      var ids := leases.Keys;
      while ids != {}
        invariant ids <= leases.Keys
        invariant out == counted + set id | id in leases.Keys - ids && leases[id].expires > now :: leases[id].digest
      {
        var id :| id in ids;
        if leases[id].expires > now {
          out := out + {leases[id].digest};
        }
        ids := ids - {id};
      }
    }
  }

  // --- Counting owners -----------------------------------------------------------------

  /** Every reference count is the number of distinct owners. */
  ghost predicate Balanced(s: State) {
    forall d :: CountOf(s, d) == |OwnersOf(s, d)|
  }

  lemma EnsureKeepsBalance(s: State, digest: string, kind: string, bytes: int, owner: string)
    requires Balanced(s)
    ensures Balanced(Ensure(s, digest, kind, bytes, owner))
  {
    var s' := Ensure(s, digest, kind, bytes, owner);
    forall d ensures CountOf(s', d) == |OwnersOf(s', d)| {
      assert CountOf(s, d) == |OwnersOf(s, d)|;
    }
  }

  lemma ReleaseKeepsBalance(s: State, digest: string, owner: string)
    requires Balanced(s)
    ensures Balanced(Release(s, digest, owner))
  {
    var s' := Release(s, digest, owner);
    forall d ensures CountOf(s', d) == |OwnersOf(s', d)| {
      assert CountOf(s, d) == |OwnersOf(s, d)|;
    }
  }

  /** The unowned adjustment keeps the balance exactly when it is refused or changes nothing. */
  lemma AdjustKeepsBalanceIff(s: State, digest: string, kind: string, bytes: int, delta: int)
    requires Balanced(s)
    ensures Balanced(Adjust(s, digest, kind, bytes, delta))
            <==> TrimSpace(digest) == "" || CountOf(s, digest) + delta < 0 || delta == 0
  {
    var s' := Adjust(s, digest, kind, bytes, delta);
    assert CountOf(s, digest) == |OwnersOf(s, digest)|;
    if TrimSpace(digest) != "" && CountOf(s, digest) + delta >= 0 {
      assert CountOf(s', digest) == CountOf(s, digest) + delta && OwnersOf(s', digest) == OwnersOf(s, digest);
      forall d | d != digest ensures CountOf(s', d) == |OwnersOf(s', d)| {
        assert CountOf(s, d) == |OwnersOf(s, d)|;
      }
    }
  }

  const DIGEST := seq(64, i => '0')

  /** An owner's reference followed by the unowned adjustment: the owner is still there, nothing protects
      the object, and the books do not balance. */
  lemma AdjustUnprotects(now: int) returns (states: seq<State>, events: seq<Event>)
    ensures Run(states, events) && states[0] == EMPTY && |events| == 2 && events[1] == AdjustEv(DIGEST, "", 0, -1)
    ensures Balanced(states[1]) && Owned(states[1], DIGEST, "o") && DIGEST in Protected(states[1], now)
    ensures Owned(states[2], DIGEST, "o") && DIGEST !in Protected(states[2], now) && !Balanced(states[2])
  {
    assert Lower(DIGEST) == DIGEST;
    var s1 := Ensure(EMPTY, DIGEST, "erasure-shard", 1, "o");
    var s2 := Adjust(s1, DIGEST, "", 0, -1);
    states, events := [EMPTY, s1, s2], [EnsureEv(DIGEST, "erasure-shard", 1, "o"), AdjustEv(DIGEST, "", 0, -1)];
    assert OwnersOf(s1, DIGEST) == {"o"};
    EnsureKeepsBalance(EMPTY, DIGEST, "erasure-shard", 1, "o");
    AdjustKeepsBalanceIff(s1, DIGEST, "", 0, -1);
  }

  /** With ensure and release alone, counts equal owners in every reachable state. */
  lemma {:induction false} RunKeepsBalance(states: seq<State>, events: seq<Event>, i: nat)
    requires Run(states, events) && Balanced(states[0]) && i < |states|
    requires forall e :: e in events ==> !e.AdjustEv?
    ensures Balanced(states[i])
  {
    if i > 0 {
      RunKeepsBalance(states, events, i - 1);
      var e := events[i - 1];
      assert e in events;
      if e.EnsureEv? {
        EnsureKeepsBalance(states[i - 1], e.digest, e.kind, e.bytes, e.owner);
      } else if e.ReleaseEv? {
        ReleaseKeepsBalance(states[i - 1], e.digest, e.owner);
      } else {
        forall d ensures CountOf(states[i], d) == |OwnersOf(states[i], d)| {
          assert CountOf(states[i - 1], d) == |OwnersOf(states[i - 1], d)|;
        }
      }
    }
  }

  // --- Handing protection from a lease to a reference --------------------------------------

  predicate Leased(s: State, id: string, digest: string, until: int) {
    id in s.leases && s.leases[id].digest == digest && s.leases[id].expires >= until
  }

  predicate Owned(s: State, digest: string, owner: string) {
    owner in OwnersOf(s, digest)
  }

  /** This event records the reference of `owner` to `digest`. */
  predicate Refers(e: Event, digest: string, owner: string) {
    e.EnsureEv? && Norm(e.digest) == digest && TrimSpace(e.owner) == owner
  }

  /** The handover discipline of a transfer, for one event in one state: its reference is not released,
      and its lease is dropped or replaced only while the reference is recorded. */
  predicate Disciplined(s: State, e: Event, id: string, digest: string, owner: string, until: int) {
    && !e.AdjustEv?
    && !(e.ReleaseEv? && Norm(e.digest) == digest && TrimSpace(e.owner) == owner)
    && ((e.DropEv? && e.id == id)
        || (e.AcquireEv? && e.id == id && !(e.lease.digest == digest && e.lease.expires >= until)) ==>
          Owned(s, digest, owner))
  }

  lemma OwnedStays(s: State, e: Event, digest: string, owner: string)
    requires Owned(s, digest, owner) && !(e.ReleaseEv? && Norm(e.digest) == digest && TrimSpace(e.owner) == owner)
    ensures Owned(Apply(s, e), digest, owner)
  {
  }

  lemma LeasedStays(s: State, e: Event, id: string, digest: string, until: int)
    requires Leased(s, id, digest, until) && !(e.DropEv? && e.id == id)
    requires e.AcquireEv? && e.id == id ==> e.lease.digest == digest && e.lease.expires >= until
    ensures Leased(Apply(s, e), id, digest, until)
  {
  }

  /** Once referenced, the shard has its owner; before that, its lease. */
  lemma {:induction false} HandoverHolds(
    states: seq<State>, events: seq<Event>, i: nat, id: string, digest: string, owner: string, until: int)
    requires Run(states, events) && i < |states| && digest != "" && owner != ""
    requires Leased(states[0], id, digest, until)
    requires forall k :: 0 <= k < |events| ==> Disciplined(states[k], events[k], id, digest, owner, until)
    ensures Leased(states[i], id, digest, until) || Owned(states[i], digest, owner)
    ensures (exists j :: 0 <= j < i && Refers(events[j], digest, owner)) ==> Owned(states[i], digest, owner)
  {
    if i > 0 {
      HandoverHolds(states, events, i - 1, id, digest, owner, until);
      HandoverStep(states[i - 1], events[i - 1], id, digest, owner, until);
    }
  }

  lemma HandoverStep(s: State, e: Event, id: string, digest: string, owner: string, until: int)
    requires digest != "" && owner != "" && Disciplined(s, e, id, digest, owner, until)
    requires Leased(s, id, digest, until) || Owned(s, digest, owner)
    ensures Leased(Apply(s, e), id, digest, until) || Owned(Apply(s, e), digest, owner)
    ensures Owned(s, digest, owner) || Refers(e, digest, owner) ==> Owned(Apply(s, e), digest, owner)
  {
    if Owned(s, digest, owner) {
      OwnedStays(s, e, digest, owner);
    } else if !Refers(e, digest, owner) {
      LeasedStays(s, e, id, digest, until);
    }
  }

  lemma OwnedIsProtected(s: State, digest: string, owner: string, now: int)
    requires Balanced(s) && Owned(s, digest, owner)
    ensures digest in Protected(s, now)
  {
    assert CountOf(s, digest) == |OwnersOf(s, digest)|;
    assert OwnersOf(s, digest) != {};
  }

  /** From the acquisition of a transfer lease on, the digest is protected at every moment before the
      lease expires; and from the event that records the reference on, at every moment whatever. */
  lemma ProtectedThroughHandover(
    states: seq<State>, events: seq<Event>, i: nat, id: string, digest: string, owner: string, until: int, now: int)
    requires Run(states, events) && Balanced(states[0]) && i < |states| && digest != "" && owner != ""
    requires Leased(states[0], id, digest, until)
    requires forall k :: 0 <= k < |events| ==> Disciplined(states[k], events[k], id, digest, owner, until)
    ensures now < until ==> digest in Protected(states[i], now)
    ensures (exists j :: 0 <= j < i && Refers(events[j], digest, owner)) ==> digest in Protected(states[i], now)
  {
    forall e | e in events ensures !e.AdjustEv? {
      var k :| 0 <= k < |events| && events[k] == e;
      assert Disciplined(states[k], events[k], id, digest, owner, until);
    }
    RunKeepsBalance(states, events, i);
    HandoverHolds(states, events, i, id, digest, owner, until);
    if Owned(states[i], digest, owner) {
      OwnedIsProtected(states[i], digest, owner, now);
    }
  }
}
