/** Archives whose manifest is longer than a target reads (internal/cassync/cassync.go:124): a transfer that can
    never succeed, and a plan that settles a pool or not depending on the order its transfers run in. */
module CrowdedArchive {
  import opened Prelude
  import Finite
  import opened Inventory
  import opened CasManifest
  import opened CasSync
  import opened CasInstall
  import opened CasReconcile
  import opened CasTransfer
  import opened CasConvergence

  // --- Many small objects -------------------------------------------------------------------

  const NUMBERS := 0x100_0000

  /** An object of 32 bytes for every number. */
  function Number(i: nat): (b: Bytes)
    requires i < NUMBERS
    ensures |b| == 32 && b[0] == 0
  {
    [0, (i / 65536) as byte, (i / 256 % 256) as byte, (i % 256) as byte,
     0, 0, 0, 0, 0, 0, 0, 0, 0, 0, 0, 0, 0, 0, 0, 0, 0, 0, 0, 0, 0, 0, 0, 0, 0, 0, 0, 0]
  }

  lemma NumberInjective(i: nat, j: nat)
    requires i < NUMBERS && j < NUMBERS && Number(i) == Number(j)
    ensures i == j
  {
    assert Number(i)[1] == Number(j)[1] && Number(i)[2] == Number(j)[2] && Number(i)[3] == Number(j)[3];
    SameCode(i, j);
  }

  /** Small objects by number, and the digest of objects. */
  datatype Stock = Stock(number: nat -> Bytes, sum: Sum)

  ghost predicate Lawful(k: Stock) {
    && Digest(k.sum)
    && (forall i :: 0 <= i < NUMBERS ==> Regular(k, i))
    && forall i, j :: 0 <= i < NUMBERS && 0 <= j < NUMBERS && k.number(i) == k.number(j) ==> i == j
  }

  predicate Regular(k: Stock, i: nat) {
    |k.number(i)| == 32 && ValidDigest(k.sum(k.number(i))) && PrefixOf(k.sum(k.number(i))) == "00"
  }

  function Numbered(i: nat): Bytes {
    if i < NUMBERS then Number(i) else []
  }

  const HEX_STOCK := Stock(Numbered, Hex)

  /** There is such a stock. */
  lemma HexStockIsLawful()
    ensures Lawful(HEX_STOCK)
  {
    HexIsDigest();
    forall i | 0 <= i < NUMBERS ensures Regular(HEX_STOCK, i) {
      HexIsValid(Number(i));
      assert HalfByte(Number(i), 0) == 0 && HalfByte(Number(i), 1) == 0;
      assert Hex(Number(i))[..2] == [Nibble(0), Nibble(0)];
    }
    forall i, j | 0 <= i < NUMBERS && 0 <= j < NUMBERS && Numbered(i) == Numbered(j) ensures i == j {
      NumberInjective(i, j);
    }
  }

  function Name(i: nat, k: Stock): string {
    k.sum(k.number(i))
  }

  lemma NameIsValid(i: nat, k: Stock)
    requires Lawful(k) && i < NUMBERS
    ensures ValidDigest(Name(i, k)) && PrefixOf(Name(i, k)) == "00" && |k.number(i)| == 32
  {
    assert Regular(k, i);
  }

  /** The first `n` of them. */
  function Pile(n: nat, k: Stock): Objects
    requires n <= NUMBERS
  {
    if n == 0 then map[] else Pile(n - 1, k)[Name(n - 1, k) := k.number(n - 1)]
  }

  lemma {:induction false} PileHas(n: nat, d: string, k: Stock)
    requires Lawful(k) && n <= NUMBERS
    ensures d in Pile(n, k) ==> exists i: nat :: i < n && d == Name(i, k) && Pile(n, k)[d] == k.number(i)
  {
    if n > 0 {
      PileHas(n - 1, d, k);
    }
  }

  lemma {:induction false} PileHolds(n: nat, i: nat, k: Stock)
    requires Lawful(k) && i < n <= NUMBERS
    ensures Name(i, k) in Pile(n, k)
  {
    if i < n - 1 {
      PileHolds(n - 1, i, k);
    }
  }

  lemma NextIsNew(n: nat, k: Stock)
    requires Lawful(k) && n < NUMBERS
    ensures Name(n, k) !in Pile(n, k)
  {
    PileHas(n, Name(n, k), k);
    forall i: nat | i < n ensures Name(i, k) != Name(n, k) {
      if k.number(i) == k.number(n) {
        assert false;
      }
    }
  }

  lemma PileIsSane(n: nat, k: Stock)
    requires Lawful(k) && n <= NUMBERS
    ensures Sane(Pile(n, k), k.sum) && forall d :: d in Pile(n, k) ==> ValidDigest(d) && PrefixOf(d) == "00"
  {
    forall d | d in Pile(n, k) ensures k.sum(Pile(n, k)[d]) == d && ValidDigest(d) && PrefixOf(d) == "00" {
      PileHas(n, d, k);
      var i: nat :| i < n && d == Name(i, k) && Pile(n, k)[d] == k.number(i);
      NameIsValid(i, k);
    }
  }

  lemma OneMore(before: Objects, after: Objects, d: string, content: Bytes)
    requires d !in before && |content| == 32 && after == before[d := content]
    ensures Weight(after) == Weight(before) + 89 && |after| == |before| + 1
  {
    WeightStep(after, d);
    assert after - {d} == before;
    assert |Decimal(32)| == 2;
  }

  lemma PileNext(n: nat, k: Stock)
    requires n < NUMBERS
    ensures Pile(n + 1, k) == Pile(n, k)[Name(n, k) := k.number(n)]
  {
  }

  lemma PileStep(n: nat, k: Stock)
    requires Lawful(k) && n < NUMBERS
    ensures Weight(Pile(n + 1, k)) == Weight(Pile(n, k)) + 89 && |Pile(n + 1, k)| == |Pile(n, k)| + 1
  {
    NextIsNew(n, k);
    NameIsValid(n, k);
    PileNext(n, k);
    OneMore(Pile(n, k), Pile(n + 1, k), Name(n, k), k.number(n));
  }

  lemma Sum89(x: nat, m: nat)
    requires x == 89 * m
    ensures x + 89 == 89 * (m + 1)
  {
  }

  lemma {:induction false} PileWeight(n: nat, k: Stock)
    requires Lawful(k) && n <= NUMBERS
    ensures Weight(Pile(n, k)) == 89 * n && |Pile(n, k)| == n
  {
    if n > 0 {
      var m := n - 1;
      PileWeight(m, k);
      PileStep(m, k);
      Sum89(Weight(Pile(m, k)), m);
    }
  }

  /** The last number of such objects that a target still accepts at once. */
  const MOST := 94_253

  lemma PileFitsIff(n: nat, k: Stock)
    requires Lawful(k) && n <= NUMBERS
    ensures Fits(Pile(n, k)) <==> n <= MOST
  {
    PileWeight(n, k);
  }

  // --- An archive that never installs ---------------------------------------------------------

  /** What a source packs without an error, no target installs, however often it is sent. */
  lemma NeverInstalls(entries: seq<Entry>, n: nat, store: Objects, k: Stock)
    requires Lawful(k) && MOST < n <= NUMBERS && Faithful(entries, k.sum) && Contents(entries) == Pile(n, k)
    ensures !Installable(entries, store, k.sum)
  {
    PileFitsIff(n, k);
    FaithfulInstallsIff(entries, store, k.sum);
  }

  const S := "s"
  const T := "t"
  const U := "u"

  /** From one agent to another of a pool of two that both want everything. */
  function Sending(source: string, target: string): Order {
    Order(source, target, ["00"], {S, T}, 2)
  }

  lemma BothWantAll(d: string, hash: Hash, id: string)
    requires id == S || id == T
    ensures Desired(d, hash, {S, T}, 2, id)
  {
    var other := if id == S then T else S;
    RendezvousConnected(d, hash, id, id);
    assert Before(d, hash, {S, T}, id) <= {other};
    Finite.SubsetSize(Before(d, hash, {S, T}, id), {other});
  }

  /** Everything of a pile is asked for. */
  lemma SendsAll(w: World, source: string, target: string, n: nat, hash: Hash, k: Stock)
    requires Lawful(k) && n <= NUMBERS && source in w && w[source] == Pile(n, k) && (target == S || target == T)
    ensures Sent(w, Sending(source, target), hash) == Pile(n, k)
  {
    PileIsSane(n, k);
    assert Lower("00") == "00" && "00" in ["00"];
    forall d | d in Pile(n, k) ensures d in Sent(w, Sending(source, target), hash) {
      BothWantAll(d, hash, target);
      SentAsks(w, Sending(source, target), d, hash);
    }
  }

  /** A source with more than the limit and an empty target: the one order of the plan is proper and packs nothing
      damaged, and every run of it leaves the target empty. */
  lemma CrowdedTransferFails(n: nat, worlds: seq<World>, hash: Hash, k: Stock)
    requires Lawful(k) && MOST < n <= NUMBERS
    requires Runs(worlds, [Sending(S, T)], hash, k.sum) && worlds[0] == map[S := Pile(n, k), T := map[]]
    ensures Proper(worlds[0], [Sending(S, T)], {S, T}, {S, T}, 2) && Sane(Sent(worlds[0], Sending(S, T), hash), k.sum)
    ensures worlds[1] == worlds[0] && !Settled(worlds[0], worlds[1], {S, T}, {S, T}, 2, hash, k.sum)
  {
    var o := Sending(S, T);
    AgentsDiffer();
    PileIsSane(n, k);
    SendsAll(worlds[0], S, T, n, hash, k);
    assert [o][0] == o && Transfer(worlds[0], o, worlds[1], hash, k.sum);
    NothingArrives(n, worlds[0], worlds[1], hash, k);
    StaysEmpty(n, worlds[0], hash, k);
  }

  lemma NothingArrives(n: nat, w: World, m: World, hash: Hash, k: Stock)
    requires Lawful(k) && MOST < n <= NUMBERS && w == map[S := Pile(n, k), T := map[]]
    requires Transfer(w, Sending(S, T), m, hash, k.sum)
    ensures m == w
  {
    AgentsDiffer();
    SendsAll(w, S, T, n, hash, k);
    PileFitsIff(n, k);
  }

  lemma StaysEmpty(n: nat, w: World, hash: Hash, k: Stock)
    requires Lawful(k) && 0 < n <= NUMBERS && w == map[S := Pile(n, k), T := map[]]
    ensures !Settled(w, w, {S, T}, {S, T}, 2, hash, k.sum)
  {
    AgentsDiffer();
    PileHolds(n, 0, k);
    PileIsSane(n, k);
    BothWantAll(Name(0, k), hash, T);
    assert Owed(w, S, Name(0, k), T, {S, T}, 2, hash, k.sum);
  }

  // --- A plan that depends on its order ---------------------------------------------------------

  /** `s` holds `n` objects, `u` one more; both `s` and `t` want everything. */
  ghost function Start(n: nat, k: Stock): World
    requires n < NUMBERS
  {
    map[S := Pile(n, k), T := map[], U := Extra(n, k)]
  }

  function Extra(n: nat, k: Stock): Objects
    requires n < NUMBERS
  {
    map[Name(n, k) := k.number(n)]
  }

  lemma AgentsDiffer()
    ensures S != T && S != U && T != U
  {
    assert S[0] != T[0] && S[0] != U[0] && T[0] != U[0];
  }

  const PLAN := [Sending(S, T), Sending(U, S), Sending(U, T)]

  /** The other order: `u` sends to `s` first. */
  const OTHER := [Sending(U, S), Sending(S, T), Sending(U, T)]

  lemma ExtraIsSane(n: nat, k: Stock)
    requires Lawful(k) && n < NUMBERS
    ensures ValidDigest(Name(n, k)) && PrefixOf(Name(n, k)) == "00" && Sane(Extra(n, k), k.sum) && Fits(Extra(n, k))
    ensures Extra(n, k) + Pile(n, k) == Pile(n + 1, k) && Name(n, k) !in Pile(n, k)
  {
    NameIsValid(n, k);
    NextIsNew(n, k);
    assert map[][Name(n, k) := k.number(n)] == Extra(n, k);
    OneMore(map[], Extra(n, k), Name(n, k), k.number(n));
    assert map[][Name(n, k) := k.number(n)] == Extra(n, k);
    assert |Extra(n, k)| == 1;
  }

  lemma ExtraIsSent(w: World, target: string, n: nat, hash: Hash, k: Stock)
    requires Lawful(k) && n < NUMBERS && U in w && w[U] == Extra(n, k) && (target == S || target == T)
    ensures Sent(w, Sending(U, target), hash) == Extra(n, k)
  {
    ExtraIsSane(n, k);
    assert Lower("00") == "00" && "00" in ["00"];
    BothWantAll(Name(n, k), hash, target);
    SentAsks(w, Sending(U, target), Name(n, k), hash);
  }

  lemma FirstWorks(n: nat, hash: Hash, k: Stock)
    requires Lawful(k) && n <= MOST
    ensures Works(Start(n, k), Sending(S, T), hash, k.sum)
  {
    PileIsSane(n, k);
    PileFitsIff(n, k);
    AgentsDiffer();
    SendsAll(Start(n, k), S, T, n, hash, k);
  }

  lemma OthersWork(n: nat, target: string, hash: Hash, k: Stock)
    requires Lawful(k) && n <= MOST && (target == S || target == T)
    ensures Works(Start(n, k), Sending(U, target), hash, k.sum)
  {
    ExtraIsSane(n, k);
    AgentsDiffer();
    ExtraIsSent(Start(n, k), target, n, hash, k);
  }

  lemma StartIsWellnamed(n: nat, k: Stock)
    requires Lawful(k) && n < NUMBERS
    ensures Wellnamed(Start(n, k))
  {
    PileIsSane(n, k);
    ExtraIsSane(n, k);
  }

  lemma PlanIsProper(n: nat, k: Stock)
    requires Lawful(k) && n < NUMBERS
    ensures Proper(Start(n, k), PLAN, {S, T, U}, {S, T}, 2)
  {
    AgentsDiffer();
  }

  lemma Carried(n: nat, x: string, d: string, t: string, k: Stock)
    requires Lawful(k) && n < NUMBERS && x in Start(n, k) && d in Start(n, k)[x]
    ensures Brings(Start(n, k), Sending(x, t), d, t)
  {
    PileIsSane(n, k);
    ExtraIsSane(n, k);
    assert Lower("00") == "00" && "00" in ["00"];
  }

  lemma ServedBy(w: World, o: Order, d: string, t: string, hash: Hash, k: Stock)
    requires Lawful(k) && o in PLAN && Brings(w, o, d, t) && Works(w, o, hash, k.sum)
    ensures Served(w, PLAN, d, t, hash, k.sum)
  {
  }

  lemma PileIsServed(n: nat, d: string, t: string, hash: Hash, k: Stock)
    requires Lawful(k) && n <= MOST && d in Pile(n, k) && t in {S, T} && !Intact(Start(n, k)[t], d, k.sum)
    ensures d !in Start(n, k)[t] && Served(Start(n, k), PLAN, d, t, hash, k.sum)
  {
    AgentsDiffer();
    PileIsSane(n, k);
    Carried(n, S, d, t, k);
    FirstWorks(n, hash, k);
    assert t == T && PLAN[0] == Sending(S, T);
    ServedBy(Start(n, k), Sending(S, T), d, t, hash, k);
  }

  lemma ExtraIsServed(n: nat, t: string, hash: Hash, k: Stock)
    requires Lawful(k) && n <= MOST && t in {S, T}
    ensures Name(n, k) !in Start(n, k)[t] && Served(Start(n, k), PLAN, Name(n, k), t, hash, k.sum)
  {
    AgentsDiffer();
    ExtraIsSane(n, k);
    Carried(n, U, Name(n, k), t, k);
    OthersWork(n, t, hash, k);
    assert Sending(U, t) == PLAN[1] || Sending(U, t) == PLAN[2];
    ServedBy(Start(n, k), Sending(U, t), Name(n, k), t, hash, k);
  }

  lemma PairIsServed(n: nat, x: string, d: string, t: string, hash: Hash, k: Stock)
    requires Lawful(k) && n <= MOST && x in Start(n, k) && d in Start(n, k)[x] && t in {S, T} && !Intact(Start(n, k)[t], d, k.sum)
    ensures d !in Start(n, k)[t] && Served(Start(n, k), PLAN, d, t, hash, k.sum)
  {
    if d in Pile(n, k) {
      PileIsServed(n, d, t, hash, k);
    } else {
      AgentsDiffer();
      ExtraIsServed(n, t, hash, k);
    }
  }

  /** Every order of the plan works, and together they cover what is missing. */
  lemma PlanCoversAll(n: nat, hash: Hash, k: Stock)
    requires Lawful(k) && n <= MOST
    ensures Covered(Start(n, k), PLAN, {S, T, U}, {S, T}, 2, hash, k.sum)
  {
    var w := Start(n, k);
    forall x, d, t | x in {S, T, U} && Owed(w, x, d, t, {S, T}, 2, hash, k.sum) && !Intact(w[t], d, k.sum)
      ensures d !in w[t] && Served(w, PLAN, d, t, hash, k.sum)
    {
      PairIsServed(n, x, d, t, hash, k);
    }
  }

  lemma FirstGrows(n: nat, w: World, hash: Hash, k: Stock)
    requires Lawful(k) && n <= MOST && Transfer(Start(n, k), Sending(U, S), w, hash, k.sum)
    ensures w == map[S := Pile(n + 1, k), T := map[], U := Extra(n, k)]
  {
    AgentsDiffer();
    OthersWork(n, S, hash, k);
    ExtraIsSent(Start(n, k), S, n, hash, k);
    ExtraIsSane(n, k);
  }

  /** Once `u` has sent to `s`, the parcel for `t` has outgrown the limit. */
  lemma SecondFails(n: nat, w: World, m: World, hash: Hash, k: Stock)
    requires Lawful(k) && n == MOST && w == map[S := Pile(n + 1, k), T := map[], U := Extra(n, k)] && Transfer(w, Sending(S, T), m, hash, k.sum)
    ensures m == w
  {
    AgentsDiffer();
    SendsAll(w, S, T, n + 1, hash, k);
    PileFitsIff(n + 1, k);
  }

  lemma ThirdBrings(n: nat, w: World, m: World, hash: Hash, k: Stock)
    requires Lawful(k) && n < NUMBERS && w == map[S := Pile(n + 1, k), T := map[], U := Extra(n, k)] && Transfer(w, Sending(U, T), m, hash, k.sum)
    ensures T in m && forall d :: d in m[T] ==> d == Name(n, k)
  {
    AgentsDiffer();
    ExtraIsSent(w, T, n, hash, k);
  }

  lemma ThreeSteps(worlds: seq<World>, orders: seq<Order>, hash: Hash, k: Stock)
    requires Lawful(k) && Runs(worlds, orders, hash, k.sum) && |orders| == 3
    ensures |worlds| == 4 && Transfer(worlds[0], orders[0], worlds[1], hash, k.sum)
    ensures Transfer(worlds[1], orders[1], worlds[2], hash, k.sum) && Transfer(worlds[2], orders[2], worlds[3], hash, k.sum)
  {
  }

  lemma Swapped(x: Order, y: Order, z: Order)
    ensures multiset([x, y, z]) == multiset([y, x, z])
  {
    assert [x, y, z] == [x] + [y] + [z] && [y, x, z] == [y] + [x] + [z];
  }

  /** The same orders in another order leave `t` without almost everything it should hold. */
  lemma OrderDecides(n: nat, worlds: seq<World>, hash: Hash, k: Stock)
    requires Lawful(k) && n == MOST && Runs(worlds, OTHER, hash, k.sum) && worlds[0] == Start(n, k)
    ensures T in worlds[3]
    ensures forall d :: d in worlds[3][T] ==> d == Name(n, k)
    ensures !Settled(Start(n, k), worlds[3], {S, T, U}, {S, T}, 2, hash, k.sum)
  {
    ThreeSteps(worlds, OTHER, hash, k);
    FirstGrows(n, worlds[1], hash, k);
    SecondFails(n, worlds[1], worlds[2], hash, k);
    ThirdBrings(n, worlds[2], worlds[3], hash, k);
    Unsettled(n, worlds[3], hash, k);
  }

  lemma Unsettled(n: nat, now: World, hash: Hash, k: Stock)
    requires Lawful(k) && 0 < n < NUMBERS && T in now && forall d :: d in now[T] ==> d == Name(n, k)
    ensures !Settled(Start(n, k), now, {S, T, U}, {S, T}, 2, hash, k.sum)
  {
    AgentsDiffer();
    PileHolds(n, 0, k);
    PileIsSane(n, k);
    NextIsNew(n, k);
    BothWantAll(Name(0, k), hash, T);
    assert Owed(Start(n, k), S, Name(0, k), T, {S, T}, 2, hash, k.sum);
  }

  /** So coverage alone does not settle a pool: this plan covers it, and is not roomy. */
  lemma CoverageIsNotEnough(n: nat, hash: Hash, k: Stock)
    requires Lawful(k) && n == MOST
    ensures Wellnamed(Start(n, k)) && Digest(k.sum) && Proper(Start(n, k), PLAN, {S, T, U}, {S, T}, 2)
    ensures Covered(Start(n, k), PLAN, {S, T, U}, {S, T}, 2, hash, k.sum)
    ensures !SettlesAlways(Start(n, k), PLAN, {S, T, U}, {S, T}, 2, hash, k.sum) && !Roomy(Start(n, k), PLAN, {S, T, U}, {S, T}, hash, k.sum)
  {
    StartIsWellnamed(n, k);
    HexIsDigest();
    PlanIsProper(n, k);
    PlanCoversAll(n, hash, k);
    var worlds := Trace(Start(n, k), OTHER, hash, k.sum);
    TraceRuns(Start(n, k), OTHER, hash, k.sum);
    OrderDecides(n, worlds, hash, k);
    Swapped(Sending(U, S), Sending(S, T), Sending(U, T));
    CoverageIsExact(Start(n, k), PLAN, {S, T, U}, {S, T}, 2, hash, k.sum);
  }
}
