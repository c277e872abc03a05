/** What the reconcilers learn from the job table: however many jobs they ask for, at most a hundred, the
    newest, are listed (internal/controlplane/sqlstore.go, ListJobs; cas_reconcile.go; replication.go). */
module JobListing {
  import opened Prelude
  import opened JobStore

  /** A row of the job table, as far as reconcilers look at it. */
  datatype Filed = Filed(kind: string, target: string, status: JobStatus, updated: int)

  datatype Past = Past(status: JobStatus, updated: int)

  /** The page of a table that lists its newest jobs first. */
  function Page(table: seq<Filed>, limit: int): seq<Filed> {
    table[..Min(|table|, if limit <= 0 || limit > 1000 then 100 else limit)]
  }

  /** Reading on, an older job under the same target replaces a newer one. */
  function Known(page: seq<Filed>, kind: string): map<string, Past> {
    if page == [] then map[]
    else
      var earlier, last := Known(page[..|page| - 1], kind), page[|page| - 1];
      if last.kind == kind then earlier[last.target := Past(last.status, last.updated)] else earlier
  }

  predicate Busy(e: Filed) {
    e.status == Queued || e.status == Running
  }

  /** The targets with a queued or running job of one of the kinds. */
  ghost function BusyTargets(page: seq<Filed>, kinds: set<string>): set<string> {
    set e | e in page && e.kind in kinds && Busy(e) :: e.target
  }

  method ReadKnown(page: seq<Filed>, kind: string) returns (known: map<string, Past>)
    ensures known == Known(page, kind)
  {
    known := map[];
    for i := 0 to |page|
      invariant known == Known(page[..i], kind)
    {
      assert page[..i + 1][..i] == page[..i];
      if page[i].kind == kind {
        known := known[page[i].target := Past(page[i].status, page[i].updated)];
      }
    }
    assert page[..|page|] == page;
  }

  method ReadBusy(page: seq<Filed>, kinds: set<string>) returns (busy: set<string>)
    ensures busy == BusyTargets(page, kinds)
  {
    busy := {};
    for i := 0 to |page|
      invariant busy == BusyTargets(page[..i], kinds)
    {
      assert page[..i + 1] == page[..i] + [page[i]];
      if page[i].kind in kinds && (page[i].status == Queued || page[i].status == Running) {
        busy := busy + {page[i].target};
      }
    }
    assert page[..|page|] == page;
  }

  method ActiveJobExists(page: seq<Filed>, kind: string, target: string) returns (yes: bool)
    ensures yes <==> target in BusyTargets(page, {kind})
  {
    for i := 0 to |page|
      invariant forall j :: 0 <= j < i ==> !(page[j].kind == kind && page[j].target == target && Busy(page[j]))
    {
      if page[i].kind == kind && page[i].target == target && (page[i].status == Queued || page[i].status == Running) {
        assert page[i] in page;
        return true;
      }
    }
    yes := false;
  }

  /** The job that decides is the oldest one on the page. */
  ghost predicate Decides(page: seq<Filed>, kind: string, target: string, i: nat) {
    && i < |page| && page[i].kind == kind && page[i].target == target
    && forall j :: i < j < |page| ==> !(page[j].kind == kind && page[j].target == target)
  }

  lemma {:induction false} KnownIff(page: seq<Filed>, kind: string, target: string, p: Past)
    ensures (target in Known(page, kind) && Known(page, kind)[target] == p)
            <==> exists i: nat :: Decides(page, kind, target, i) && Past(page[i].status, page[i].updated) == p
  {
    if page != [] {
      var n := |page| - 1;
      var earlier := page[..n];
      KnownIff(earlier, kind, target, p);
      if page[n].kind == kind && page[n].target == target {
        assert Decides(page, kind, target, n);
        assert forall i: nat :: Decides(page, kind, target, i) ==> i == n;
      } else {
        forall i: nat ensures Decides(page, kind, target, i) <==> Decides(earlier, kind, target, i) {
        }
      }
    }
  }

  /** Whatever became of a target, a hundred newer jobs of any kind make every reconciler forget it. */
  lemma Forgotten(newer: seq<Filed>, older: seq<Filed>, kinds: set<string>, kind: string, target: string)
    requires 100 <= |newer| && forall e :: e in newer ==> e.target != target
    ensures forall limit :: limit <= 0 || 1000 < limit ==>
              && target !in Known(Page(newer + older, limit), kind)
              && target !in BusyTargets(Page(newer + older, limit), kinds)
  {
    forall limit | limit <= 0 || 1000 < limit
      ensures target !in Known(Page(newer + older, limit), kind) && target !in BusyTargets(Page(newer + older, limit), kinds)
    {
      var page := Page(newer + older, limit);
      assert page == newer[..100];
      assert forall e :: e in page ==> e in newer;
      forall i: nat ensures !Decides(page, kind, target, i) {
        if i < |page| {
          assert page[i] in newer;
        }
      }
      KnownIff(page, kind, target, if target in Known(page, kind) then Known(page, kind)[target] else Past(Queued, 0));
    }
  }

  /** A transfer that is running, behind a hundred newer jobs: no reconciler sees it. */
  lemma RunningJobHidden() returns (table: seq<Filed>)
    ensures |table| == 101 && table[100] == Filed(REPLICATE_CAS, "t", Running, 0)
    ensures "t" !in BusyTargets(Page(table, 50000), {REPLICATE_CAS}) && "t" !in Known(Page(table, 20000), REPLICATE_CAS)
  {
    var newer, older := seq(100, i => Filed(BACKUP, "r", Queued, 0)), [Filed(REPLICATE_CAS, "t", Running, 0)];
    assert "r"[0] != "t"[0];
    forall e | e in newer ensures e.target != "t" {
      assert e.target == "r";
    }
    Forgotten(newer, older, {REPLICATE_CAS}, REPLICATE_CAS, "t");
    table := newer + older;
  }
}
