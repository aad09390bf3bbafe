/** What holds in every state the mining system can reach from an empty database. */
module Reachable {
  import opened Tables
  import opened Protocol
  import opened LeaseInvariants
  import opened CursorCoverage
  import opened RefillPriority

  /** No page of a job lies between two pages of one claim unless it belongs to that claim and its worker. */
  ghost predicate BlocksPerClaim(pages: seq<Page>) {
    forall i, j, k | 0 <= i < j < k < |pages| && pages[i].job == pages[j].job == pages[k].job ::
      pages[i].claim == pages[k].claim ==> pages[j].claim == pages[i].claim && pages[j].owner == pages[i].owner
  }

  /** Over every interleaving of workers, API calls, lease recoveries and crashes. */
  lemma EveryReachableState(trace: seq<Moment>)
    requires Possible(INITIAL, trace)
    ensures var db := After(INITIAL, trace).db;
            && LeasesOk(db) && BlocksPerClaim(db.pages)
            && AllCovered(db) && CursorsAreLatest(db)
            && PendingUnique(db.refills)
  {
    LeasesHoldOnEveryRun(INITIAL, trace);
    CursorsHoldOnEveryRun(INITIAL, trace);
    OnePendingRefillOnEveryRun(INITIAL, trace);
    InOrderMeansBlocks(After(INITIAL, trace).db.pages);
  }

  lemma InOrderMeansBlocks(pages: seq<Page>)
    requires PagesInOrder(pages)
    ensures BlocksPerClaim(pages)
  {
    forall i, j, k | 0 <= i < j < k < |pages| && pages[i].job == pages[j].job == pages[k].job
                     && pages[i].claim == pages[k].claim
      ensures pages[j].claim == pages[i].claim && pages[j].owner == pages[i].owner
    {
      assert pages[i].claim <= pages[j].claim <= pages[k].claim;
    }
  }

  /**
   * A worker's lease that was recovered, resumed, released, retried or blocked away
   * at any point of a run is gone for good: no later page carries its claim.
   */
  lemma LostClaimsStayLost(before: seq<Moment>, after: seq<Moment>, id: JobId, claim: nat)
    requires Possible(INITIAL, before) && Possible(After(INITIAL, before), after)
    requires Over(After(INITIAL, before).db, id, claim)
    ensures var n, pages := |After(INITIAL, before).db.pages|, After(After(INITIAL, before), after).db.pages;
            forall i | n <= i < |pages| && pages[i].job == id :: pages[i].claim > claim
  {
    LeasesHoldOnEveryRun(INITIAL, before);
    DroppedLeaseNeverCommits(After(INITIAL, before), after, id, claim);
  }
}
