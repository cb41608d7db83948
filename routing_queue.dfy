/** The decision logic of the routing-queue resource: membership
    reconciliation (set differences, batches of at most 100, ring-number
    patches), the paged member listing, the delete poll, and the payload
    rules for after-call-work settings, communication-type keys, media
    settings and default scripts. */
module RoutingQueue {
  import opened Api
  import opened Retry
  import opened Paging

  /** A queue member: a user id and the ring number the user is in. The
      configured `members` blocks (`user_id`, `ring_num`) and the SDK's queue
      members (`Id`, `RingNumber`) both have this shape. */
  datatype Member = Member(userId: string, ringNum: int)

  /** The calls membership reconciliation issues against the routing API:
      a batch add or remove (`PostRoutingQueueMembers`) and a ring-number
      patch (`PatchRoutingQueueMember`). */
  datatype MemberCall = PostMembers(ids: seq<string>, remove: bool) | PatchRingNum(userId: string, ringNum: int)

  /** The API accepts at most this many member adds or removes per call. */
  const MaxBatchSize: nat := 100

  // ---------------------------------------------------------------- listing

  /** The members a paged listing yields: the pages before the first empty
      page, concatenated in order; or an error when a page request fails
      before that. */
  function MemberListing(queueId: string, pages: seq<Response<Page<Member>>>): Result<seq<Member>> {
    var n := EndPage(pages, 1);
    match Fetch(pages, n)
    case Failed(e) => Err("Failed to query users for queue " + queueId + ": " + e.message)
    case Found(_) => Ok(Entities(pages[..n - 1]))
  }

  /** `getRoutingQueueMembers`: requests pages 1, 2, ... of 100 members and
      stops at the first empty or missing page. `requested` is the number of
      page requests made. */
  method GetRoutingQueueMembers(queueId: string, pages: seq<Response<Page<Member>>>)
    returns (r: Result<seq<Member>>, requested: nat)
    ensures requested == EndPage(pages, 1)
    ensures r == MemberListing(queueId, pages)
  {
    var members: seq<Member> := [];
    var pageNum := 1;
    while true
      invariant 1 <= pageNum <= EndPage(pages, 1)
      invariant EndPage(pages, pageNum) == EndPage(pages, 1)
      invariant members == Entities(pages[..pageNum - 1])
      decreases |pages| + 1 - pageNum
    {
      var users := Fetch(pages, pageNum);
      if users.Failed? {
        return Err("Failed to query users for queue " + queueId + ": " + users.error.message), pageNum;
      }
      if Items(users.entity) == [] {
        return Ok(members), pageNum;
      }
      var entities := Items(users.entity);
      for i := 0 to |entities|
        invariant members == Entities(pages[..pageNum - 1]) + entities[..i]
      {
        members := members + [entities[i]];
      }
      assert entities[..|entities|] == entities;
      EntitiesStep(pages, pageNum - 1);
      pageNum := pageNum + 1;
    }
  }

  /** The three full pages and the empty fourth page of a 300-member queue
      give all 300 members, after exactly four requests. */
  method ListingOfThreeFullPages(p1: seq<Member>, p2: seq<Member>, p3: seq<Member>)
    returns (r: Result<seq<Member>>, requested: nat)
    requires |p1| == |p2| == |p3| == 100
    ensures requested == 4
    ensures r == Ok(p1 + p2 + p3) && |r.value| == 300
  {
    var pages := [Found(Page(Some(p1), 4)), Found(Page(Some(p2), 4)), Found(Page(Some(p3), 4)),
                  Found(Page(Some([]), 4))];
    assert EndPage(pages, 4) == 4;
    assert EndPage(pages, 3) == 4;
    assert EndPage(pages, 2) == 4;
    assert EndPage(pages, 1) == 4;
    assert pages[..0] == [];
    EntitiesStep(pages, 0);
    EntitiesStep(pages, 1);
    EntitiesStep(pages, 2);
    assert Entities(pages[..1]) == p1;
    assert Entities(pages[..3]) == p1 + p2 + p3;
    assert MemberListing("queue", pages) == Ok(p1 + p2 + p3);
    r, requested := GetRoutingQueueMembers("queue", pages);
  }

  // ---------------------------------------------------------------- ids, ring numbers, differences

  /** The user ids of a member list, in order. */
  function UserIds(ms: seq<Member>): (ids: seq<string>)
    ensures |ids| == |ms|
    ensures forall i :: 0 <= i < |ms| ==> ids[i] == ms[i].userId
  {
    if ms == [] then [] else UserIds(ms[..|ms| - 1]) + [ms[|ms| - 1].userId]
  }

  /** user id -> ring number, filled in list order, so that a later entry for
      the same user overrides an earlier one (as filling a Go map does). */
  function RingNums(ms: seq<Member>): map<string, int> {
    if ms == [] then map[]
    else RingNums(ms[..|ms| - 1])[ms[|ms| - 1].userId := ms[|ms| - 1].ringNum]
  }

  /** The ring-number map has an entry for exactly the listed users. */
  lemma {:induction false} RingNumsKeys(ms: seq<Member>)
    ensures forall u :: u in RingNums(ms) <==> u in UserIds(ms)
    decreases |ms|
  {
    if ms != [] {
      var init := ms[..|ms| - 1];
      RingNumsKeys(init);
      assert UserIds(ms) == UserIds(init) + [ms[|ms| - 1].userId];
    }
  }

  /** `sliceDifference(a, b)` (its source is not part of this model): the
      elements of `a` that are not in `b`, in the order of `a`. */
  function SliceDifference(a: seq<string>, b: seq<string>): seq<string> {
    if a == [] then [] else (if a[0] in b then [] else [a[0]]) + SliceDifference(a[1..], b)
  }

  lemma {:induction false} SliceDifferenceMembers(a: seq<string>, b: seq<string>)
    ensures forall x :: x in SliceDifference(a, b) <==> x in a && x !in b
    decreases |a|
  {
    if a != [] {
      SliceDifferenceMembers(a[1..], b);
      assert a == [a[0]] + a[1..];
    }
  }

  // ---------------------------------------------------------------- batches

  /** The consecutive slices of at most `MaxBatchSize` ids that
      `updateMembersInChunks` sends, one call each. */
  function Chunks(ids: seq<string>): seq<seq<string>>
    decreases |ids|
  {
    if |ids| == 0 then []
    else if |ids| <= MaxBatchSize then [ids]
    else [ids[..MaxBatchSize]] + Chunks(ids[MaxBatchSize..])
  }

  function Flatten(cs: seq<seq<string>>): seq<string> {
    if cs == [] then [] else cs[0] + Flatten(cs[1..])
  }

  /** One batch call per chunk, in order. */
  function Posts(cs: seq<seq<string>>, remove: bool): seq<MemberCall> {
    if cs == [] then [] else [PostMembers(cs[0], remove)] + Posts(cs[1..], remove)
  }

  /** Chunking loses nothing and reorders nothing; every chunk holds 1 to 100
      ids, all but the last exactly 100; there are ceil(n / 100) of them (so
      an empty list gives no call). */
  lemma {:induction false} ChunksSpec(ids: seq<string>)
    ensures Flatten(Chunks(ids)) == ids
    ensures forall i :: 0 <= i < |Chunks(ids)| ==> 1 <= |Chunks(ids)[i]| <= MaxBatchSize
    ensures forall i :: 0 <= i < |Chunks(ids)| - 1 ==> |Chunks(ids)[i]| == MaxBatchSize
    ensures |Chunks(ids)| == (|ids| + MaxBatchSize - 1) / MaxBatchSize
    decreases |ids|
  {
    if |ids| > MaxBatchSize {
      var rest := ids[MaxBatchSize..];
      ChunksSpec(rest);
      var cs := Chunks(ids);
      assert cs == [ids[..MaxBatchSize]] + Chunks(rest);
      assert cs[1..] == Chunks(rest);
      assert ids[..MaxBatchSize] + rest == ids;
      forall i | 0 <= i < |cs|
        ensures 1 <= |cs[i]| <= MaxBatchSize
        ensures i < |cs| - 1 ==> |cs[i]| == MaxBatchSize
      {
        if i > 0 {
          assert cs[i] == Chunks(rest)[i - 1];
        }
      }
    }
  }

  /** 250 ids go out as 100, 100 and 50, in their original order. */
  lemma ChunksOf250(ids: seq<string>)
    requires |ids| == 250
    ensures Chunks(ids) == [ids[..100], ids[100..200], ids[200..]]
  {
    var r1 := ids[100..];
    var r2 := r1[100..];
    assert r1[..100] == ids[100..200];
    assert r2 == ids[200..];
    assert Chunks(r2) == [r2];
    assert Chunks(r1) == [r1[..100]] + Chunks(r2);
    assert Chunks(ids) == [ids[..100]] + Chunks(r1);
  }

  /** The ids one batch actually carries as `updateMembersInChunks` builds
      it under Go's loop-variable rule before Go 1.22: every entry holds the
      address of the single range variable, which ends the loop holding the
      slice's last id. */
  function AliasedBatch(slice: seq<string>): (batch: seq<string>)
    ensures |batch| == |slice|
    ensures forall i :: 0 <= i < |batch| ==> batch[i] == slice[|slice| - 1]
  {
    seq(|slice|, i requires 0 <= i < |slice| => slice[|slice| - 1])
  }

  /** Under that rule a batch of two distinct users adds or removes only the
      second; `UpdateMembersInChunks` sends each id once, in order. */
  lemma AliasedBatchLosesUsers(a: string, b: string)
    requires a != b
    ensures AliasedBatch([a, b]) == [b, b]
    ensures a !in AliasedBatch([a, b])
  {
    assert AliasedBatch([a, b])[0] == b;
  }

  /** The slice starting at `i` is the first chunk of what is left, and is
      posted first. */
  lemma ChunkAt(ids: seq<string>, i: nat, end: nat, remove: bool)
    requires i < |ids| && end == if i + MaxBatchSize > |ids| then |ids| else i + MaxBatchSize
    ensures Posts(Chunks(ids[i..]), remove) == [PostMembers(ids[i..end], remove)] + Posts(Chunks(ids[end..]), remove)
  {
    var rest := ids[i..];
    if |rest| > MaxBatchSize {
      assert rest[..MaxBatchSize] == ids[i..end];
      assert rest[MaxBatchSize..] == ids[end..];
    } else {
      assert rest == ids[i..end];
      assert ids[end..] == [];
    }
    assert Chunks(rest) == [ids[i..end]] + Chunks(ids[end..]);
    assert Chunks(rest)[1..] == Chunks(ids[end..]);
  }

  /** `updateMembersInChunks`: walks the list 100 ids at a time and issues one
      add or remove call per non-empty slice. (The source ignores the calls'
      errors, so they have no result here.) */
  method UpdateMembersInChunks(membersToUpdate: seq<string>, remove: bool) returns (calls: seq<MemberCall>)
    ensures calls == Posts(Chunks(membersToUpdate), remove)
  {
    calls := [];
    var n := |membersToUpdate|;
    var i := 0;
    while i < n
      invariant 0 <= i
      invariant Posts(Chunks(membersToUpdate), remove) ==
                calls + Posts(Chunks(membersToUpdate[if i <= n then i else n..]), remove)
      decreases n - i
    {
      var end := i + MaxBatchSize;
      if end > n {
        end := n;
      }
      var updateChunk: seq<string> := [];
      for j := i to end
        invariant updateChunk == membersToUpdate[i..j]
      {
        updateChunk := updateChunk + [membersToUpdate[j]];
      }
      ChunkAt(membersToUpdate, i, end, remove);
      if |updateChunk| > 0 {
        calls := calls + [PostMembers(updateChunk, remove)];
      }
      i := i + MaxBatchSize;
    }
    assert membersToUpdate[n..] == [];
  }

  // ---------------------------------------------------------------- ring numbers

  /** A configured ring number is patched when the user is already a member
      with a different ring number, or is new and not on the default ring 1. */
  predicate ShouldPatch(u: string, newNum: int, oldRings: map<string, int>) {
    if u in oldRings then newNum != oldRings[u] else newNum != 1
  }

  /** The ring-number patches, in the order the configured ring-number map
      is iterated (`order`, which Go leaves unspecified). */
  function PatchPlan(order: seq<string>, newRings: map<string, int>, oldRings: map<string, int>): seq<Member>
    requires forall k :: 0 <= k < |order| ==> order[k] in newRings
  {
    if order == [] then []
    else
      var u := order[|order| - 1];
      PatchPlan(order[..|order| - 1], newRings, oldRings) +
      (if ShouldPatch(u, newRings[u], oldRings) then [Member(u, newRings[u])] else [])
  }

  /** The patches issued for a plan, in order. */
  function PatchCalls(plan: seq<Member>): seq<MemberCall> {
    if plan == [] then []
    else PatchCalls(plan[..|plan| - 1]) + [PatchRingNum(plan[|plan| - 1].userId, plan[|plan| - 1].ringNum)]
  }

  /** Planning one more user of the order appends that user's patch, if
      any, to the plan. */
  lemma PatchPlanStep(order: seq<string>, k: nat, newRings: map<string, int>, oldRings: map<string, int>)
    requires k < |order|
    requires forall i :: 0 <= i < |order| ==> order[i] in newRings
    ensures PatchPlan(order[..k + 1], newRings, oldRings) ==
            PatchPlan(order[..k], newRings, oldRings) +
            (if ShouldPatch(order[k], newRings[order[k]], oldRings) then [Member(order[k], newRings[order[k]])] else [])
  {
    assert order[..k + 1][..k] == order[..k];
  }

  /** Issuing one more planned patch appends its call. */
  lemma PatchCallsStep(plan: seq<Member>, m: Member)
    ensures PatchCalls(plan + [m]) == PatchCalls(plan) + [PatchRingNum(m.userId, m.ringNum)]
  {
    assert (plan + [m])[..|plan|] == plan;
  }

  /** A sequence that lists every key of a Go map exactly once: a possible
      iteration order of that map. */
  ghost predicate Enumerates(order: seq<string>, keys: set<string>) {
    && (forall i, j :: 0 <= i < j < |order| ==> order[i] != order[j])
    && (forall u :: u in order <==> u in keys)
  }

  /** A patch is planned exactly for a user of the iteration order whose
      configured ring number should be patched, and it carries that number. */
  lemma {:induction false} PatchPlanMembers(order: seq<string>, newRings: map<string, int>, oldRings: map<string, int>)
    requires forall k :: 0 <= k < |order| ==> order[k] in newRings
    ensures forall p :: p in PatchPlan(order, newRings, oldRings) <==>
              p.userId in order && p.userId in newRings && p.ringNum == newRings[p.userId] &&
              ShouldPatch(p.userId, p.ringNum, oldRings)
    decreases |order|
  {
    if order != [] {
      var init := order[..|order| - 1];
      PatchPlanMembers(init, newRings, oldRings);
      assert order == init + [order[|order| - 1]];
    }
  }

  /** Whatever the iteration order, the set of patches follows the three
      rules: an existing member is patched iff its ring number changed, a new
      member iff its ring number is not 1, and every patch carries the
      configured number; so an unchanged member is never patched. */
  lemma RingPatchRules(order: seq<string>, newRings: map<string, int>, oldRings: map<string, int>)
    requires Enumerates(order, newRings.Keys)
    ensures forall u :: u in newRings && u in oldRings ==>
              (Member(u, newRings[u]) in PatchPlan(order, newRings, oldRings) <==> newRings[u] != oldRings[u])
    ensures forall u :: u in newRings && u !in oldRings ==>
              (Member(u, newRings[u]) in PatchPlan(order, newRings, oldRings) <==> newRings[u] != 1)
    ensures forall p :: p in PatchPlan(order, newRings, oldRings) ==>
              p.userId in newRings && p.ringNum == newRings[p.userId]
    ensures forall p :: p in PatchPlan(order, newRings, oldRings) ==>
              !(p.userId in oldRings && oldRings[p.userId] == newRings[p.userId])
  {
    PatchPlanMembers(order, newRings, oldRings);
  }

  /** The patches issued do not depend on the order in which the Go map of
      configured ring numbers happens to be iterated: any two orders plan
      the same set of patches. */
  lemma PatchSetIndependentOfOrder(order1: seq<string>, order2: seq<string>,
                                   newRings: map<string, int>, oldRings: map<string, int>)
    requires Enumerates(order1, newRings.Keys) && Enumerates(order2, newRings.Keys)
    ensures forall p :: p in PatchPlan(order1, newRings, oldRings) <==> p in PatchPlan(order2, newRings, oldRings)
  {
    PatchPlanMembers(order1, newRings, oldRings);
    PatchPlanMembers(order2, newRings, oldRings);
  }

  /** Planning a prefix of the iteration order gives a prefix of the plan. */
  lemma {:induction false} PatchPlanPrefix(order: seq<string>, k: nat, newRings: map<string, int>, oldRings: map<string, int>)
    requires k <= |order|
    requires forall i :: 0 <= i < |order| ==> order[i] in newRings
    ensures |PatchPlan(order[..k], newRings, oldRings)| <= |PatchPlan(order, newRings, oldRings)|
    ensures PatchPlan(order, newRings, oldRings)[..|PatchPlan(order[..k], newRings, oldRings)|] ==
            PatchPlan(order[..k], newRings, oldRings)
    decreases |order| - k
  {
    if k == |order| {
      assert order[..k] == order;
    } else {
      var init := order[..|order| - 1];
      PatchPlanPrefix(init, k, newRings, oldRings);
      assert init[..k] == order[..k];
    }
  }

  /** The position of the first planned patch whose call fails, or the plan's
      length when none fails; the patches after a failure are not issued. */
  function FailIndex(plan: seq<Member>, patchErrors: map<string, ApiError>): (n: nat)
    ensures n <= |plan|
    ensures forall i :: 0 <= i < n ==> plan[i].userId !in patchErrors
    ensures n < |plan| ==> plan[n].userId in patchErrors
    ensures (forall i :: 0 <= i < |plan| ==> plan[i].userId !in patchErrors) ==> n == |plan|
  {
    if plan == [] || plan[0].userId in patchErrors then 0 else 1 + FailIndex(plan[1..], patchErrors)
  }

  function RingNumError(queueId: string, userId: string, e: ApiError): string {
    "Failed to update ring number for queue " + queueId + " user " + userId + ": " + e.message
  }

  /** The patches actually issued for a plan: all of them, or those up to and
      including the first that fails. */
  function IssuedPatches(plan: seq<Member>, patchErrors: map<string, ApiError>): seq<MemberCall> {
    var n := FailIndex(plan, patchErrors);
    PatchCalls(plan[..if n < |plan| then n + 1 else n])
  }

  /** The diagnostics of the ring-number phase: the first failing patch's
      error, or none. */
  function PatchDiagnostics(queueId: string, plan: seq<Member>, patchErrors: map<string, ApiError>): Diagnostics {
    var n := FailIndex(plan, patchErrors);
    if n < |plan| then Error(RingNumError(queueId, plan[n].userId, patchErrors[plan[n].userId])) else NoError
  }

  // ---------------------------------------------------------------- reconciliation

  /** The id list and the ring-number map `updateQueueMembers` builds from a
      member list. */
  method CollectMembers(ms: seq<Member>) returns (ids: seq<string>, rings: map<string, int>)
    ensures ids == UserIds(ms)
    ensures rings == RingNums(ms)
  {
    ids := [];
    rings := map[];
    for i := 0 to |ms|
      invariant ids == UserIds(ms[..i])
      invariant rings == RingNums(ms[..i])
    {
      assert ms[..i + 1][..i] == ms[..i];
      ids := ids + [ms[i].userId];
      rings := rings[ms[i].userId := ms[i].ringNum];
    }
    assert ms[..|ms|] == ms;
  }

  /** When the patches planned for `order[..k]` all succeed and the next
      one fails, that one is the last issued and its error is reported. */
  lemma FirstFailingPatch(queueId: string, order: seq<string>, k: nat, newRings: map<string, int>, oldRings: map<string, int>,
                          patchErrors: map<string, ApiError>, m: Member)
    requires k < |order|
    requires forall i :: 0 <= i < |order| ==> order[i] in newRings
    requires forall i :: 0 <= i < |PatchPlan(order[..k], newRings, oldRings)| ==>
               PatchPlan(order[..k], newRings, oldRings)[i].userId !in patchErrors
    requires PatchPlan(order[..k + 1], newRings, oldRings) == PatchPlan(order[..k], newRings, oldRings) + [m]
    requires m.userId in patchErrors
    ensures IssuedPatches(PatchPlan(order, newRings, oldRings), patchErrors) ==
            PatchCalls(PatchPlan(order[..k + 1], newRings, oldRings))
    ensures PatchDiagnostics(queueId, PatchPlan(order, newRings, oldRings), patchErrors) ==
            Error(RingNumError(queueId, m.userId, patchErrors[m.userId]))
  {
    PatchPlanPrefix(order, k + 1, newRings, oldRings);
    FailsAt(queueId, PatchPlan(order, newRings, oldRings), PatchPlan(order[..k], newRings, oldRings), patchErrors, m);
  }

  /** A plan that starts with patches that all succeed followed by one that
      fails is cut after that one, and reports its error. */
  lemma FailsAt(queueId: string, plan: seq<Member>, before: seq<Member>, patchErrors: map<string, ApiError>, m: Member)
    requires |before| < |plan| && plan[..|before| + 1] == before + [m]
    requires forall i :: 0 <= i < |before| ==> before[i].userId !in patchErrors
    requires m.userId in patchErrors
    ensures IssuedPatches(plan, patchErrors) == PatchCalls(before + [m])
    ensures PatchDiagnostics(queueId, plan, patchErrors) == Error(RingNumError(queueId, m.userId, patchErrors[m.userId]))
  {
    assert plan[|before|] == (before + [m])[|before|];
    assert forall i :: 0 <= i < |before| ==> plan[i] == (before + [m])[i];
    assert FailIndex(plan, patchErrors) == |before|;
  }

  /** When no planned patch fails, all are issued and nothing is reported. */
  lemma NoFailingPatch(queueId: string, plan: seq<Member>, patchErrors: map<string, ApiError>)
    requires forall i :: 0 <= i < |plan| ==> plan[i].userId !in patchErrors
    ensures IssuedPatches(plan, patchErrors) == PatchCalls(plan)
    ensures PatchDiagnostics(queueId, plan, patchErrors) == NoError
  {
    assert plan[..|plan|] == plan;
  }

  /** No patch of the plan fails. */
  predicate NoneFails(plan: seq<Member>, patchErrors: map<string, ApiError>) {
    forall i :: 0 <= i < |plan| ==> plan[i].userId !in patchErrors
  }

  /** One step of the ring-number loop: visiting `order[k]` appends its
      patch, if any, to the plan and to the calls, and the plan's patches
      still all succeed unless that patch fails. */
  lemma RingStep(order: seq<string>, k: nat, newRings: map<string, int>, oldRings: map<string, int>,
                 patchErrors: map<string, ApiError>)
    requires k < |order|
    requires forall i :: 0 <= i < |order| ==> order[i] in newRings
    requires NoneFails(PatchPlan(order[..k], newRings, oldRings), patchErrors)
    ensures var u := order[k];
            var patched := ShouldPatch(u, newRings[u], oldRings);
            && PatchPlan(order[..k + 1], newRings, oldRings) ==
               PatchPlan(order[..k], newRings, oldRings) + (if patched then [Member(u, newRings[u])] else [])
            && PatchCalls(PatchPlan(order[..k + 1], newRings, oldRings)) ==
               PatchCalls(PatchPlan(order[..k], newRings, oldRings)) + (if patched then [PatchRingNum(u, newRings[u])] else [])
    ensures !ShouldPatch(order[k], newRings[order[k]], oldRings) || order[k] !in patchErrors ==>
              NoneFails(PatchPlan(order[..k + 1], newRings, oldRings), patchErrors)
  {
    var u := order[k];
    var before := PatchPlan(order[..k], newRings, oldRings);
    PatchPlanStep(order, k, newRings, oldRings);
    if ShouldPatch(u, newRings[u], oldRings) {
      PatchCallsStep(before, Member(u, newRings[u]));
      assert forall i :: 0 <= i < |before| ==> (before + [Member(u, newRings[u])])[i] == before[i];
    } else {
      assert before + [] == before;
    }
  }

  /** The ring-number loop of `updateQueueMembers`: visits the configured
      users in `order` and patches each one `ShouldPatch` selects, stopping
      at the first patch that fails. */
  method PatchRingNumbers(queueId: string, order: seq<string>, newRings: map<string, int>,
                          oldRings: map<string, int>, patchErrors: map<string, ApiError>)
    returns (diags: Diagnostics, calls: seq<MemberCall>)
    requires forall k :: 0 <= k < |order| ==> order[k] in newRings
    ensures calls == IssuedPatches(PatchPlan(order, newRings, oldRings), patchErrors)
    ensures diags == PatchDiagnostics(queueId, PatchPlan(order, newRings, oldRings), patchErrors)
  {
    calls := [];
    var k := 0;
    while k < |order|
      invariant 0 <= k <= |order|
      invariant calls == PatchCalls(PatchPlan(order[..k], newRings, oldRings))
      invariant forall i :: 0 <= i < |PatchPlan(order[..k], newRings, oldRings)| ==>
                  PatchPlan(order[..k], newRings, oldRings)[i].userId !in patchErrors
    {
      var userID := order[k];
      var newNum := newRings[userID];
      RingStep(order, k, newRings, oldRings, patchErrors);
      if ShouldPatch(userID, newNum, oldRings) {
        calls := calls + [PatchRingNum(userID, newNum)];
        if userID in patchErrors {
          FirstFailingPatch(queueId, order, k, newRings, oldRings, patchErrors, Member(userID, newNum));
          return Error(RingNumError(queueId, userID, patchErrors[userID])), calls;
        }
      }
      k := k + 1;
    }
    assert order[..k] == order;
    NoFailingPatch(queueId, PatchPlan(order, newRings, oldRings), patchErrors);
    return NoError, calls;
  }

  /** `updateQueueMembers`. `members` is the configured member set's list
      (Terraform's `GetOk` reports an empty set as not set); `memberPages` is
      the current member listing; `ringOrder` is the iteration order of the
      configured ring-number map; `patchErrors` gives, for each user whose
      ring-number patch fails, the error. Removals of old-minus-new ids come
      first, then additions of new-minus-old ids, both in batches, then the
      ring-number patches up to and including the first that fails. */
  method UpdateQueueMembers(queueId: string, members: seq<Member>, memberPages: seq<Response<Page<Member>>>,
                            ringOrder: seq<string>, patchErrors: map<string, ApiError>)
    returns (diags: Diagnostics, calls: seq<MemberCall>)
    requires Enumerates(ringOrder, RingNums(members).Keys)
    ensures |members| == 0 ==> diags == NoError && calls == []
    ensures |members| > 0 && MemberListing(queueId, memberPages).Err? ==>
              diags == Error(MemberListing(queueId, memberPages).message) && calls == []
    ensures |members| > 0 && MemberListing(queueId, memberPages).Ok? ==>
              var current := MemberListing(queueId, memberPages).value;
              var plan := PatchPlan(ringOrder, RingNums(members), RingNums(current));
              && calls == Posts(Chunks(SliceDifference(UserIds(current), UserIds(members))), true) +
                          Posts(Chunks(SliceDifference(UserIds(members), UserIds(current))), false) +
                          IssuedPatches(plan, patchErrors)
              && diags == PatchDiagnostics(queueId, plan, patchErrors)
  {
    if |members| == 0 {
      // Members not set in the config: do not update.
      return NoError, [];
    }
    var newUserIds, newUserRingNums := CollectMembers(members);
    var listing, _ := GetRoutingQueueMembers(queueId, memberPages);
    if listing.Err? {
      return Error(listing.message), [];
    }
    var oldUserIds, oldUserRingNums := CollectMembers(listing.value);

    var removals: seq<MemberCall> := [];
    if |oldUserIds| > 0 {
      var usersToRemove := SliceDifference(oldUserIds, newUserIds);
      removals := UpdateMembersInChunks(usersToRemove, true);
    }
    var additions: seq<MemberCall> := [];
    if |newUserIds| > 0 {
      var usersToAdd := SliceDifference(newUserIds, oldUserIds);
      additions := UpdateMembersInChunks(usersToAdd, false);
    }

    assert forall k :: 0 <= k < |ringOrder| ==> ringOrder[k] in newUserRingNums by {
      forall k | 0 <= k < |ringOrder| ensures ringOrder[k] in newUserRingNums {
        assert ringOrder[k] in ringOrder;
      }
    }
    var patches;
    diags, patches := PatchRingNumbers(queueId, ringOrder, newUserRingNums, oldUserRingNums, patchErrors);
    calls := removals + additions + patches;
  }

  /** Users in both the old and the new member list are in neither a removal
      nor an addition batch; the removal batches hold exactly the old users
      that are not configured and the addition batches exactly the configured
      users that are not yet members. */
  lemma ReconcileBatches(oldIds: seq<string>, newIds: seq<string>)
    ensures Flatten(Chunks(SliceDifference(oldIds, newIds))) == SliceDifference(oldIds, newIds)
    ensures Flatten(Chunks(SliceDifference(newIds, oldIds))) == SliceDifference(newIds, oldIds)
    ensures forall u :: u in Flatten(Chunks(SliceDifference(oldIds, newIds))) <==> u in oldIds && u !in newIds
    ensures forall u :: u in Flatten(Chunks(SliceDifference(newIds, oldIds))) <==> u in newIds && u !in oldIds
    ensures forall u :: u in oldIds && u in newIds ==>
              u !in Flatten(Chunks(SliceDifference(oldIds, newIds))) && u !in Flatten(Chunks(SliceDifference(newIds, oldIds)))
  {
    ChunksSpec(SliceDifference(oldIds, newIds));
    ChunksSpec(SliceDifference(newIds, oldIds));
    SliceDifferenceMembers(oldIds, newIds);
    SliceDifferenceMembers(newIds, oldIds);
  }

  /** Old members {A, B, C} and new members {B, C, D}: one removal batch [A]
      and one addition batch [D]; B and C are not touched. */
  lemma ReconcileExample()
    ensures Chunks(SliceDifference(["A", "B", "C"], ["B", "C", "D"])) == [["A"]]
    ensures Chunks(SliceDifference(["B", "C", "D"], ["A", "B", "C"])) == [["D"]]
  {
    var abc: seq<string> := ["A", "B", "C"];
    var bcd: seq<string> := ["B", "C", "D"];
    assert "A" !in bcd && "D" !in abc;
    assert "B" in abc && "C" in abc && "B" in bcd && "C" in bcd;
    assert abc[1..][1..][1..] == [] && bcd[1..][1..][1..] == [];
    assert SliceDifference(abc[1..][1..], bcd) == [];
    assert SliceDifference(abc[1..], bcd) == [];
    assert SliceDifference(abc, bcd) == ["A"];
    assert SliceDifference(bcd[1..][1..], abc) == ["D"];
    assert SliceDifference(bcd[1..], abc) == ["D"];
    assert SliceDifference(bcd, abc) == ["D"];
  }

  // ---------------------------------------------------------------- delete

  /** A queue as the delete poll sees it; only its presence matters. */
  datatype Queue = Queue(id: string)

  /** One `GetRoutingQueue` poll after the delete was issued. */
  function QueueDeletePoll(queueId: string, resp: Response<Queue>): (o: Outcome)
    ensures o == Done <==> resp.Failed? && IsStatus404(resp.error)
    ensures o.Retryable? <==> resp.Found?
    ensures resp.Failed? && !IsStatus404(resp.error) ==>
              o == Terminal("Error deleting queue " + queueId + ": " + resp.error.message)
  {
    match resp
    case Failed(e) =>
      if IsStatus404(e) then Done else Terminal("Error deleting queue " + queueId + ": " + e.message)
    case Found(_) => Retryable("Queue " + queueId + " still exists")
  }

  /** `deleteQueue`: issues the delete and, if that succeeds, polls until the
      queue is no longer found. `polls` are the replies the polls would get
      within the resource's delete timeout. */
  function DeleteQueue(queueId: string, name: string, deleteError: Option<ApiError>, polls: seq<Response<Queue>>): (r: Run)
    requires |polls| > 0
    ensures deleteError.Some? ==> r == Run(Error("Failed to delete queue " + name + ": " + deleteError.value.message), 0)
  {
    match deleteError
    case Some(e) => Run(Error("Failed to delete queue " + name + ": " + e.message), 0)
    case None => WithRetries(seq(|polls|, k requires 0 <= k < |polls| => QueueDeletePoll(queueId, polls[k])))
  }

  /** The delete succeeds exactly when it was issued and some poll got a 404
      after polls that all still found the queue. */
  lemma DeleteQueueSucceedsIff(queueId: string, name: string, deleteError: Option<ApiError>, polls: seq<Response<Queue>>)
    requires |polls| > 0
    ensures DeleteQueue(queueId, name, deleteError, polls).diags == NoError <==>
            deleteError.None? &&
            exists k :: 0 <= k < |polls| && polls[k].Failed? && IsStatus404(polls[k].error) &&
                        forall j :: 0 <= j < k ==> polls[j].Found?
  {
    var attempts := seq(|polls|, k requires 0 <= k < |polls| => QueueDeletePoll(queueId, polls[k]));
    SucceedsIff(attempts);
    if deleteError.None? {
      if exists k :: 0 <= k < |polls| && polls[k].Failed? && IsStatus404(polls[k].error) &&
                     forall j :: 0 <= j < k ==> polls[j].Found? {
        var k :| 0 <= k < |polls| && polls[k].Failed? && IsStatus404(polls[k].error) &&
                 forall j :: 0 <= j < k ==> polls[j].Found?;
        assert attempts[k] == Done;
        assert forall j :: 0 <= j < k ==> attempts[j].Retryable?;
      }
      if WithRetries(attempts).diags == NoError {
        var k :| 0 <= k < |attempts| && attempts[k] == Done &&
                 forall j :: 0 <= j < k ==> attempts[j].Retryable?;
        assert polls[k].Failed? && IsStatus404(polls[k].error);
        forall j | 0 <= j < k
          ensures polls[j].Found?
        {
          assert attempts[j].Retryable?;
        }
      }
    }
  }

  /** A poll error other than 404 ends the delete at once with that error. */
  lemma DeleteQueueOtherErrorIsTerminal(queueId: string, name: string, polls: seq<Response<Queue>>, k: nat)
    requires k < |polls| && polls[k].Failed? && !IsStatus404(polls[k].error)
    requires forall j :: 0 <= j < k ==> polls[j].Found?
    ensures DeleteQueue(queueId, name, None, polls) ==
            Run(Error("Error deleting queue " + queueId + ": " + polls[k].error.message), k + 1)
  {
    var attempts := seq(|polls|, i requires 0 <= i < |polls| => QueueDeletePoll(queueId, polls[i]));
    TerminalStops(attempts, k);
  }

  // ---------------------------------------------------------------- payload rules

  /** The after-call-work settings sent with a queue. */
  datatype AcwSettings = AcwSettings(wrapupPrompt: string, timeoutMs: Option<int>)

  /** The wrap-up prompt types for which a timeout is sent. */
  const TimeoutPrompts: set<string> := {"MANDATORY_TIMEOUT", "MANDATORY_FORCED_TIMEOUT", "AGENT_REQUESTED"}

  /** `buildSdkAcwSettings`: `timeoutMs` is `acw_timeout_ms` as read from the
      configuration (0 when unset, which `GetOk` reports as not set). */
  function BuildSdkAcwSettings(wrapupPrompt: string, timeoutMs: int): (r: AcwSettings)
    ensures r.wrapupPrompt == wrapupPrompt
    ensures r.timeoutMs.Some? <==> wrapupPrompt in TimeoutPrompts && timeoutMs != 0
    ensures r.timeoutMs.Some? ==> r.timeoutMs.value == timeoutMs
  {
    if (wrapupPrompt == "MANDATORY_TIMEOUT" || wrapupPrompt == "MANDATORY_FORCED_TIMEOUT" ||
        wrapupPrompt == "AGENT_REQUESTED") && timeoutMs != 0
    then AcwSettings(wrapupPrompt, Some(timeoutMs))
    else AcwSettings(wrapupPrompt, None)
  }

  /** The communication types that may key `default_script_ids`. */
  const CommTypes: seq<string> :=
    ["CALL", "CALLBACK", "CHAT", "COBROWSE", "EMAIL", "MESSAGE", "SOCIAL_EXPRESSION", "VIDEO", "SCREENSHARE"]

  /** `validateMapCommTypes`: nil is accepted; otherwise the keys are visited
      in map order and the first key that is not a communication type is
      reported. */
  method ValidateMapCommTypes(val: Option<map<string, string>>) returns (d: Diagnostics)
    ensures d == NoError <==> (val.None? || forall k :: k in val.value ==> k in CommTypes)
    ensures d.Error? ==>
              val.Some? &&
              exists k :: k in val.value && k !in CommTypes && d.summary == k + " is an invalid communication type key."
  {
    if val.None? {
      return NoError;
    }
    var m := val.value;
    var unvisited := m.Keys;
    while unvisited != {}
      invariant unvisited <= m.Keys
      invariant forall k :: k in m && k !in unvisited ==> k in CommTypes
      decreases unvisited
    {
      var k :| k in unvisited;
      if k !in CommTypes {
        return Error(k + " is an invalid communication type key.");
      }
      unvisited := unvisited - {k};
    }
    return NoError;
  }

  /** One `media_settings_*` block (the float `service_level_percentage` is
      not modelled). */
  datatype MediaSettingBlock = MediaSettingBlock(alertingTimeoutSec: int, serviceLevelDurationMs: int)

  /** The SDK's media setting for one media type. */
  datatype MediaSetting = MediaSetting(alertingTimeoutSeconds: int, serviceLevelDurationMs: int)

  function BuildSdkMediaSetting(b: MediaSettingBlock): MediaSetting {
    MediaSetting(b.alertingTimeoutSec, b.serviceLevelDurationMs)
  }

  function FlattenMediaSetting(s: MediaSetting): MediaSettingBlock {
    MediaSettingBlock(s.alertingTimeoutSeconds, s.serviceLevelDurationMs)
  }

  /** Reading back a built media setting gives the block it was built from. */
  lemma MediaSettingRoundTrip(b: MediaSettingBlock)
    ensures FlattenMediaSetting(BuildSdkMediaSetting(b)) == b
  {
  }

  /** The media types that have a `media_settings_*` block. */
  datatype MediaType = Call | Callback | Chat | Email | Message | Social | Video

  /** The key of the SDK's media-settings map a media type fills. */
  function SdkKey(t: MediaType): string {
    match t
    case Call => "call"
    case Callback => "callback"
    case Chat => "chat"
    case Email => "email"
    case Message => "message"
    case Social => "socialExpression"
    case Video => "videoComm"
  }

  /** Different media types fill different keys of the SDK map. */
  lemma SdkKeyInjective(s: MediaType, t: MediaType)
    requires SdkKey(s) == SdkKey(t)
    ensures s == t
  {
    match s
    case Call => assert SdkKey(s)[1] == 'a' && |SdkKey(s)| == 4;
    case Callback => assert |SdkKey(s)| == 8;
    case Chat => assert SdkKey(s)[1] == 'h';
    case Email => assert SdkKey(s)[0] == 'e';
    case Message => assert SdkKey(s)[0] == 'm';
    case Social => assert SdkKey(s)[0] == 's';
    case Video => assert SdkKey(s)[0] == 'v';
  }

  /** The blocks configured for a media type (an unset list reads as empty). */
  function Blocks(config: map<MediaType, seq<MediaSettingBlock>>, t: MediaType): seq<MediaSettingBlock> {
    if t in config then config[t] else []
  }

  /** `buildSdkMediaSettings`: a media type gets an entry exactly when its
      block list is not empty, built from the first block. */
  method BuildSdkMediaSettings(config: map<MediaType, seq<MediaSettingBlock>>)
    returns (settings: map<MediaType, MediaSetting>)
    ensures forall t :: t in settings <==> |Blocks(config, t)| > 0
    ensures forall t :: t in settings ==> settings[t] == BuildSdkMediaSetting(Blocks(config, t)[0])
  {
    settings := map[];
    var call := Blocks(config, Call);
    if |call| > 0 {
      settings := settings[Call := BuildSdkMediaSetting(call[0])];
    }
    var callback := Blocks(config, Callback);
    if |callback| > 0 {
      settings := settings[Callback := BuildSdkMediaSetting(callback[0])];
    }
    var chat := Blocks(config, Chat);
    if |chat| > 0 {
      settings := settings[Chat := BuildSdkMediaSetting(chat[0])];
    }
    var email := Blocks(config, Email);
    if |email| > 0 {
      settings := settings[Email := BuildSdkMediaSetting(email[0])];
    }
    var message := Blocks(config, Message);
    if |message| > 0 {
      settings := settings[Message := BuildSdkMediaSetting(message[0])];
    }
    var social := Blocks(config, Social);
    if |social| > 0 {
      settings := settings[Social := BuildSdkMediaSetting(social[0])];
    }
    var video := Blocks(config, Video);
    if |video| > 0 {
      settings := settings[Video := BuildSdkMediaSetting(video[0])];
    }
    forall t
      ensures t in settings <==> |Blocks(config, t)| > 0
    {
      match t
      case Call =>
      case Callback =>
      case Chat =>
      case Email =>
      case Message =>
      case Social =>
      case Video =>
    }
  }

  /** A default script as the SDK returns it; only its id is used. */
  datatype Script = Script(id: string)

  /** `flattenDefaultScripts`: nil for no scripts, otherwise each
      communication type mapped to its script id. */
  function FlattenDefaultScripts(scripts: map<string, Script>): (r: Option<map<string, string>>)
    ensures r.None? <==> |scripts| == 0
    ensures r.Some? ==> r.value.Keys == scripts.Keys && forall k :: k in scripts ==> r.value[k] == scripts[k].id
  {
    if |scripts| == 0 then None else Some(map k | k in scripts :: scripts[k].id)
  }

  /** `buildSdkDefaultScriptsMap`: nil when `default_script_ids` is unset or
      empty (`GetOk`), otherwise each key mapped to a script with that id. */
  function BuildSdkDefaultScriptsMap(scriptIds: map<string, string>): (r: Option<map<string, Script>>)
    ensures r.None? <==> |scriptIds| == 0
    ensures r.Some? ==> r.value.Keys == scriptIds.Keys && forall k :: k in scriptIds ==> r.value[k].id == scriptIds[k]
  {
    if |scriptIds| == 0 then None else Some(map k | k in scriptIds :: Script(scriptIds[k]))
  }

  /** Reading the default scripts into state and building them again gives
      back the same scripts (or nil when there were none). */
  lemma DefaultScriptsRoundTrip(scripts: map<string, Script>)
    ensures BuildSdkDefaultScriptsMap(map[]) == None
    ensures FlattenDefaultScripts(scripts).Some? ==>
              BuildSdkDefaultScriptsMap(FlattenDefaultScripts(scripts).value) == Some(scripts)
  {
    if |scripts| != 0 {
      var flat := FlattenDefaultScripts(scripts).value;
      assert |flat| != 0 by {
        var k :| k in scripts;
        assert k in flat;
      }
      assert (map k | k in flat :: Script(flat[k])) == scripts;
    }
  }
}
