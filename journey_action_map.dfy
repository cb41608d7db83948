/** The decision logic of the journey action-map resource: the exporter's
    listing (bounded by the page count the server reports and by an empty
    page), the read, update and delete retry closures, create, and the
    nil-or-absent rules of the nested references. */
module JourneyActionMap {
  import opened Api
  import opened Retry
  import opened Paging

  /** An action map as these operations see it. */
  datatype ActionMap = ActionMap(id: string, displayName: string, version: int)

  // ---------------------------------------------------------------- listing

  /** The page count in force when the loop considers page `pageNum`: 1
      before the first reply, then the count the previous page reported. */
  function Bound(pages: seq<Response<Page<Named>>>, pageNum: nat): int {
    if pageNum <= 1 then 1
    else match Fetch(pages, pageNum - 1)
      case Found(p) => p.pageCount
      case Failed(_) => 0
  }

  /** The page at which a listing started at `from` stops: the first that is
      beyond the page count in force, or that fails or comes back empty. */
  function CountedEnd(pages: seq<Response<Page<Named>>>, from: nat): (n: nat)
    requires 1 <= from <= |pages| + 1
    ensures from <= n <= |pages| + 1
    ensures n > Bound(pages, n) || Ends(Fetch(pages, n))
    ensures forall m :: from <= m < n ==> m <= Bound(pages, m) && !Ends(Fetch(pages, m))
    decreases |pages| + 1 - from
  {
    if from > Bound(pages, from) || Ends(Fetch(pages, from)) then from else CountedEnd(pages, from + 1)
  }

  /** The number of page requests the listing makes: a page beyond the count
      in force is not requested. */
  function Requests(pages: seq<Response<Page<Named>>>): nat {
    var n := CountedEnd(pages, 1);
    if n > Bound(pages, n) then n - 1 else n
  }

  /** The listing's result: an error if the last page requested failed,
      otherwise the id -> display name map of every earlier page. */
  function ActionMapListing(pages: seq<Response<Page<Named>>>): Result<map<string, string>> {
    var n := CountedEnd(pages, 1);
    if n <= Bound(pages, n) && Fetch(pages, n).Failed? then
      Err("Failed to get page of journey action maps: " + Fetch(pages, n).error.message)
    else
      Ok(IdNames(Entities(pages[..n - 1])))
  }

  /** `getAllJourneyActionMaps`: starts with a page count of 1 and, after
      each non-empty page, takes the page count that page reports. */
  method GetAllJourneyActionMaps(pages: seq<Response<Page<Named>>>)
    returns (r: Result<map<string, string>>, requested: nat)
    ensures requested == Requests(pages)
    ensures r == ActionMapListing(pages)
  {
    var resources: map<string, string> := map[];
    var pageCount := 1;
    var pageNum := 1;
    requested := 0;
    while pageNum <= pageCount
      invariant 1 <= pageNum <= CountedEnd(pages, 1)
      invariant CountedEnd(pages, pageNum) == CountedEnd(pages, 1)
      invariant pageCount == Bound(pages, pageNum)
      invariant requested == pageNum - 1
      invariant resources == IdNames(Entities(pages[..pageNum - 1]))
      decreases |pages| + 1 - pageNum
    {
      var actionMaps := Fetch(pages, pageNum);
      requested := requested + 1;
      if actionMaps.Failed? {
        ListingStopsAt(pages, pageNum);
        return Err("Failed to get page of journey action maps: " + actionMaps.error.message), requested;
      }
      var entities := Items(actionMaps.entity);
      if entities == [] {
        ListingStopsAt(pages, pageNum);
        return Ok(resources), requested;
      }
      resources := AddIdNames(resources, Entities(pages[..pageNum - 1]), entities);
      CountedStep(pages, pageNum);
      pageCount := actionMaps.entity.pageCount;
      pageNum := pageNum + 1;
    }
    ListingStopsAt(pages, pageNum);
    return Ok(resources), requested;
  }

  /** At the page where the listing stops, its result and its request count
      are settled. */
  lemma ListingStopsAt(pages: seq<Response<Page<Named>>>, pageNum: nat)
    requires 1 <= pageNum <= |pages| + 1
    requires CountedEnd(pages, pageNum) == CountedEnd(pages, 1)
    requires pageNum > Bound(pages, pageNum) || Ends(Fetch(pages, pageNum))
    ensures Requests(pages) == if pageNum > Bound(pages, pageNum) then pageNum - 1 else pageNum
    ensures ActionMapListing(pages) ==
            if pageNum <= Bound(pages, pageNum) && Fetch(pages, pageNum).Failed?
            then Err("Failed to get page of journey action maps: " + Fetch(pages, pageNum).error.message)
            else Ok(IdNames(Entities(pages[..pageNum - 1])))
  {
    assert CountedEnd(pages, pageNum) == pageNum;
  }

  /** Past a page that is requested and neither fails nor is empty, the
      listing goes on to the next page, under the count this page reports. */
  lemma CountedStep(pages: seq<Response<Page<Named>>>, pageNum: nat)
    requires 1 <= pageNum <= |pages| + 1
    requires pageNum <= Bound(pages, pageNum) && !Ends(Fetch(pages, pageNum))
    ensures pageNum <= |pages|
    ensures CountedEnd(pages, pageNum) == CountedEnd(pages, pageNum + 1)
    ensures Bound(pages, pageNum + 1) == pages[pageNum - 1].entity.pageCount
    ensures Entities(pages[..pageNum]) == Entities(pages[..pageNum - 1]) + Items(pages[pageNum - 1].entity)
  {
    EntitiesStep(pages, pageNum - 1);
  }

  /** The listing never requests a page beyond the page count in force, and
      at most one page past the replies it was given. */
  lemma ListingRespectsPageCount(pages: seq<Response<Page<Named>>>)
    ensures Requests(pages) <= |pages| + 1
    ensures forall m :: 1 <= m <= Requests(pages) ==> m <= Bound(pages, m)
  {
  }

  /** The listing fails exactly when one of the pages it requested failed. */
  lemma ListingFailsIff(pages: seq<Response<Page<Named>>>)
    ensures ActionMapListing(pages).Err? <==> exists m :: 1 <= m <= Requests(pages) && Fetch(pages, m).Failed?
  {
    var n := CountedEnd(pages, 1);
    if exists m :: 1 <= m <= Requests(pages) && Fetch(pages, m).Failed? {
      var m :| 1 <= m <= Requests(pages) && Fetch(pages, m).Failed?;
      assert !(m < n);
    }
  }

  /** A successful listing is the id -> name map of the pages before the
      stop. */
  lemma ListingValue(pages: seq<Response<Page<Named>>>)
    requires ActionMapListing(pages).Ok?
    ensures ActionMapListing(pages).value == IdNames(Entities(pages[..CountedEnd(pages, 1) - 1]))
  {
  }

  /** A successful listing maps exactly the ids listed on the pages before
      the stop, each to its last listed display name. */
  lemma ListingKeys(pages: seq<Response<Page<Named>>>)
    requires ActionMapListing(pages).Ok?
    ensures var es := Entities(pages[..CountedEnd(pages, 1) - 1]);
            forall id :: id in ActionMapListing(pages).value <==> exists i :: 0 <= i < |es| && es[i].id == id
    ensures var es := Entities(pages[..CountedEnd(pages, 1) - 1]);
            forall i :: 0 <= i < |es| && (forall l :: i < l < |es| ==> es[l].id != es[i].id) ==>
              ActionMapListing(pages).value[es[i].id] == es[i].displayName
  {
    var es := Entities(pages[..CountedEnd(pages, 1) - 1]);
    ListingValue(pages);
    IdNamesSpec(es);
  }

  /** A first page that reports a page count of 1 ends the listing after one
      request, even when the server has further non-empty pages. */
  lemma ReportedCountOfOneStops(pages: seq<Response<Page<Named>>>, es: seq<Named>)
    requires |pages| >= 2 && pages[0] == Found(Page(Some(es), 1)) && es != []
    ensures Requests(pages) == 1
    ensures ActionMapListing(pages) == Ok(IdNames(es))
  {
    assert CountedEnd(pages, 2) == 2;
    assert CountedEnd(pages, 1) == 2;
    assert Bound(pages, 2) == 1;
    assert pages[..0] == [];
    EntitiesStep(pages, 0);
    assert Entities(pages[..1]) == es;
  }

  // ---------------------------------------------------------------- read

  /** One attempt of the read closure: a 404 asks for a retry, another error
      is terminal, and a found map gives the consistency check's verdict. */
  function ReadOutcome(id: string, resp: Response<ActionMap>, verdict: Outcome): (o: Outcome)
    ensures resp.Failed? && IsStatus404(resp.error) ==> o.Retryable?
    ensures resp.Failed? && !IsStatus404(resp.error) ==> o.Terminal?
    ensures resp.Failed? ==> o.reason == "failed to read journey action map " + id + ": " + resp.error.message
    ensures resp.Found? ==> o == verdict
  {
    match resp
    case Failed(e) =>
      var msg := "failed to read journey action map " + id + ": " + e.message;
      if IsStatus404(e) then Retryable(msg) else Terminal(msg)
    case Found(_) => verdict
  }

  function ReadOutcomes(id: string, replies: seq<Response<ActionMap>>, verdicts: seq<Outcome>): seq<Outcome>
    requires |replies| == |verdicts|
  {
    seq(|replies|, k requires 0 <= k < |replies| => ReadOutcome(id, replies[k], verdicts[k]))
  }

  /** `readJourneyActionMap`: the read closure under the retry loop;
      `verdicts[k]` is what the consistency check says after read k. */
  function ReadJourneyActionMap(id: string, replies: seq<Response<ActionMap>>, verdicts: seq<Outcome>): (r: Run)
    requires |replies| == |verdicts| > 0
    ensures 1 <= r.attempts <= |replies|
    ensures forall j :: 0 <= j < r.attempts - 1 ==>
              (replies[j].Failed? && IsStatus404(replies[j].error)) || (replies[j].Found? && verdicts[j].Retryable?)
    ensures r.diags == Settle(ReadOutcome(id, replies[r.attempts - 1], verdicts[r.attempts - 1]))
  {
    var os := ReadOutcomes(id, replies, verdicts);
    assert forall j :: 0 <= j < |os| ==> os[j] == ReadOutcome(id, replies[j], verdicts[j]);
    WithRetries(os)
  }

  /** The read succeeds exactly when some read finds the map and the check
      accepts it, after attempts that were all 404s or retryable verdicts. */
  lemma ReadSucceedsIff(id: string, replies: seq<Response<ActionMap>>, verdicts: seq<Outcome>)
    requires |replies| == |verdicts| > 0
    ensures ReadJourneyActionMap(id, replies, verdicts).diags == NoError <==>
            exists k :: 0 <= k < |replies| && replies[k].Found? && verdicts[k] == Done &&
                        forall j :: 0 <= j < k ==>
                          (replies[j].Failed? && IsStatus404(replies[j].error)) || (replies[j].Found? && verdicts[j].Retryable?)
  {
    if exists k :: 0 <= k < |replies| && replies[k].Found? && verdicts[k] == Done &&
                   forall j :: 0 <= j < k ==>
                     (replies[j].Failed? && IsStatus404(replies[j].error)) || (replies[j].Found? && verdicts[j].Retryable?) {
      var k :| 0 <= k < |replies| && replies[k].Found? && verdicts[k] == Done &&
               forall j :: 0 <= j < k ==>
                 (replies[j].Failed? && IsStatus404(replies[j].error)) || (replies[j].Found? && verdicts[j].Retryable?);
      var os := ReadOutcomes(id, replies, verdicts);
      assert os[k] == ReadOutcome(id, replies[k], verdicts[k]);
      assert forall j :: 0 <= j < k ==> os[j] == ReadOutcome(id, replies[j], verdicts[j]);
      StopsAt(os, k);
    }
    var r := ReadJourneyActionMap(id, replies, verdicts);
    if r.diags == NoError {
      assert replies[r.attempts - 1].Found? && verdicts[r.attempts - 1] == Done;
    }
  }

  /** A map that keeps answering 404 is read until the deadline and the read
      fails with the last 404's message. */
  lemma ReadNotFoundUntilDeadline(id: string, replies: seq<Response<ActionMap>>, verdicts: seq<Outcome>)
    requires |replies| == |verdicts| > 0
    requires forall k :: 0 <= k < |replies| ==> replies[k].Failed? && IsStatus404(replies[k].error)
    ensures ReadJourneyActionMap(id, replies, verdicts) ==
            Run(Error("failed to read journey action map " + id + ": " + replies[|replies| - 1].error.message), |replies|)
  {
    AllRetryableTimesOut(ReadOutcomes(id, replies, verdicts));
  }

  // ---------------------------------------------------------------- create

  /** `createJourneyActionMap`: on a failed create the id is left alone and
      the error is returned; otherwise the id is set to the created map's id
      before the read runs. */
  method CreateJourneyActionMap(d: ResourceData, displayName: string, created: Response<ActionMap>,
                                replies: seq<Response<ActionMap>>, verdicts: seq<Outcome>)
    returns (diags: Diagnostics)
    requires |replies| == |verdicts| > 0
    modifies d
    ensures created.Failed? ==>
              d.id == old(d.id) &&
              diags == Error("failed to create journey action map " + displayName + ": " + created.error.message)
    ensures created.Found? ==>
              d.id == created.entity.id && diags == ReadJourneyActionMap(created.entity.id, replies, verdicts).diags
  {
    if created.Failed? {
      return Error("failed to create journey action map " + displayName + ": " + created.error.message);
    }
    d.SetId(created.entity.id);
    diags := ReadJourneyActionMap(d.id, replies, verdicts).diags;
  }

  // ---------------------------------------------------------------- update

  /** The patch payload; `fields` stands for every patched attribute other
      than the version. */
  datatype PatchActionMap = PatchActionMap(displayName: string, fields: map<string, string>, version: int)

  /** What one update attempt meets: the reply to the read of the current
      version, and the patch call's error, if any. */
  datatype UpdateAttempt = UpdateAttempt(read: Response<ActionMap>, patchError: Option<ApiError>)

  /** One update attempt, classified for `retryWhen(isVersionMismatch, ...)`:
      a failure is retried only when it is a version mismatch. */
  function UpdateOutcome(id: string, displayName: string, a: UpdateAttempt): (o: Outcome)
    ensures o.Retryable? <==>
              (a.read.Failed? && IsVersionMismatch(a.read.error)) ||
              (a.read.Found? && a.patchError.Some? && IsVersionMismatch(a.patchError.value))
    ensures o == Done <==> a.read.Found? && a.patchError.None?
  {
    match a.read
    case Failed(e) =>
      var msg := "Failed to read current journey action map " + id + ": " + e.message;
      if IsVersionMismatch(e) then Retryable(msg) else Terminal(msg)
    case Found(_) =>
      match a.patchError
      case None => Done
      case Some(e) =>
        var msg := "Error updating journey action map " + displayName + ": " + e.message;
        if IsVersionMismatch(e) then Retryable(msg) else Terminal(msg)
  }

  function UpdateOutcomes(id: string, displayName: string, attempts: seq<UpdateAttempt>): seq<Outcome> {
    seq(|attempts|, k requires 0 <= k < |attempts| => UpdateOutcome(id, displayName, attempts[k]))
  }

  /** The patches sent during `attempts`: one per attempt whose read
      succeeded, stamped with the version that read returned. */
  function SentPatches(patch: PatchActionMap, attempts: seq<UpdateAttempt>): seq<PatchActionMap> {
    if attempts == [] then []
    else
      var last := attempts[|attempts| - 1];
      SentPatches(patch, attempts[..|attempts| - 1]) +
      (if last.read.Found? then [patch.(version := last.read.entity.version)] else [])
  }

  /** The update closure under `retryWhen`: each attempt reads the current
      version, stamps it on the patch and sends the patch. */
  method PatchWithRetries(id: string, patchActionMap: PatchActionMap, attempts: seq<UpdateAttempt>)
    returns (diags: Diagnostics, sent: seq<PatchActionMap>)
    requires |attempts| > 0
    ensures diags == WithRetries(UpdateOutcomes(id, patchActionMap.displayName, attempts)).diags
    ensures sent == SentPatches(patchActionMap, attempts[..WithRetries(UpdateOutcomes(id, patchActionMap.displayName, attempts)).attempts])
  {
    ghost var os := UpdateOutcomes(id, patchActionMap.displayName, attempts);
    var patch := patchActionMap;
    sent := [];
    var i := 0;
    while true
      invariant 0 <= i < |attempts|
      invariant forall j :: 0 <= j < i ==> os[j].Retryable?
      invariant sent == SentPatches(patchActionMap, attempts[..i])
      invariant patch.displayName == patchActionMap.displayName && patch.fields == patchActionMap.fields
      decreases |attempts| - i
    {
      var a := attempts[i];
      assert attempts[..i + 1][..i] == attempts[..i];
      var o: Outcome;
      if a.read.Failed? {
        var msg := "Failed to read current journey action map " + id + ": " + a.read.error.message;
        o := if IsVersionMismatch(a.read.error) then Retryable(msg) else Terminal(msg);
      } else {
        patch := patch.(version := a.read.entity.version);
        sent := sent + [patch];
        if a.patchError.Some? {
          var msg := "Error updating journey action map " + patch.displayName + ": " + a.patchError.value.message;
          o := if IsVersionMismatch(a.patchError.value) then Retryable(msg) else Terminal(msg);
        } else {
          o := Done;
        }
      }
      assert o == os[i];
      if !o.Retryable? || i == |attempts| - 1 {
        StopsAt(os, i);
        return Settle(o), sent;
      }
      i := i + 1;
    }
  }

  /** `updateJourneyActionMap`: the patch under `retryWhen`, then, when it
      succeeded, the read of the updated map. */
  method UpdateJourneyActionMap(id: string, patchActionMap: PatchActionMap, attempts: seq<UpdateAttempt>,
                                replies: seq<Response<ActionMap>>, verdicts: seq<Outcome>)
    returns (diags: Diagnostics, sent: seq<PatchActionMap>)
    requires |attempts| > 0 && |replies| == |verdicts| > 0
    ensures var u := WithRetries(UpdateOutcomes(id, patchActionMap.displayName, attempts));
            && diags == (if u.diags.Error? then u.diags else ReadJourneyActionMap(id, replies, verdicts).diags)
            && sent == SentPatches(patchActionMap, attempts[..u.attempts])
  {
    diags, sent := PatchWithRetries(id, patchActionMap, attempts);
    if diags.Error? {
      return;
    }
    diags := ReadJourneyActionMap(id, replies, verdicts).diags;
  }

  /** Every patch sent differs from the configured one only in its version,
      and carries a version that one of the attempts read. */
  lemma {:induction false} SentPatchesCarryReadVersion(patch: PatchActionMap, attempts: seq<UpdateAttempt>)
    ensures forall q :: q in SentPatches(patch, attempts) ==>
              q.(version := patch.version) == patch &&
              exists j :: 0 <= j < |attempts| && attempts[j].read.Found? && q.version == attempts[j].read.entity.version
    decreases |attempts|
  {
    if attempts != [] {
      var init := attempts[..|attempts| - 1];
      var last := attempts[|attempts| - 1];
      SentPatchesCarryReadVersion(patch, init);
      var tail := if last.read.Found? then [patch.(version := last.read.entity.version)] else [];
      assert SentPatches(patch, attempts) == SentPatches(patch, init) + tail;
      forall q | q in SentPatches(patch, attempts)
        ensures q.(version := patch.version) == patch
        ensures exists j :: 0 <= j < |attempts| && attempts[j].read.Found? && q.version == attempts[j].read.entity.version
      {
        if q in SentPatches(patch, init) {
          var j :| 0 <= j < |init| && init[j].read.Found? && q.version == init[j].read.entity.version;
          assert attempts[j] == init[j];
        } else {
          assert q in tail;
          assert attempts[|attempts| - 1] == last;
        }
      }
    }
  }

  /** When every read succeeds, one patch is sent per attempt, the j-th
      carrying the version the j-th attempt read. */
  lemma {:induction false} SentPatchesOnePerRead(patch: PatchActionMap, attempts: seq<UpdateAttempt>)
    requires forall j :: 0 <= j < |attempts| ==> attempts[j].read.Found?
    ensures |SentPatches(patch, attempts)| == |attempts|
    ensures forall j :: 0 <= j < |attempts| ==> SentPatches(patch, attempts)[j].version == attempts[j].read.entity.version
    decreases |attempts|
  {
    if attempts != [] {
      var init := attempts[..|attempts| - 1];
      assert forall j :: 0 <= j < |init| ==> init[j] == attempts[j];
      SentPatchesOnePerRead(patch, init);
      var last := attempts[|attempts| - 1];
      assert SentPatches(patch, attempts) == SentPatches(patch, init) + [patch.(version := last.read.entity.version)];
    }
  }

  /** The update is retried only after version mismatches: every attempt
      before the one it stops at failed with a version mismatch, and a
      failure of any other kind ends it. */
  lemma UpdateRetriesOnlyOnMismatch(id: string, patch: PatchActionMap, attempts: seq<UpdateAttempt>)
    requires |attempts| > 0
    ensures var r := WithRetries(UpdateOutcomes(id, patch.displayName, attempts));
            forall j :: 0 <= j < r.attempts - 1 ==>
              (attempts[j].read.Failed? && IsVersionMismatch(attempts[j].read.error)) ||
              (attempts[j].read.Found? && attempts[j].patchError.Some? && IsVersionMismatch(attempts[j].patchError.value))
    ensures WithRetries(UpdateOutcomes(id, patch.displayName, attempts)).diags == NoError ==>
              var r := WithRetries(UpdateOutcomes(id, patch.displayName, attempts));
              attempts[r.attempts - 1].read.Found? && attempts[r.attempts - 1].patchError.None?
  {
    var os := UpdateOutcomes(id, patch.displayName, attempts);
    var r := WithRetries(os);
    forall j | 0 <= j < r.attempts - 1
      ensures (attempts[j].read.Failed? && IsVersionMismatch(attempts[j].read.error)) ||
              (attempts[j].read.Found? && attempts[j].patchError.Some? && IsVersionMismatch(attempts[j].patchError.value))
    {
      assert os[j] == UpdateOutcome(id, patch.displayName, attempts[j]);
    }
    assert os[r.attempts - 1] == UpdateOutcome(id, patch.displayName, attempts[r.attempts - 1]);
  }

  // ---------------------------------------------------------------- delete

  /** One poll after the delete: gone (404) is done, another error is
      terminal, a map still found asks for a retry. */
  function DeletePoll(id: string, resp: Response<ActionMap>): (o: Outcome)
    ensures o == Done <==> resp.Failed? && IsStatus404(resp.error)
    ensures o.Retryable? <==> resp.Found?
    ensures resp.Failed? && !IsStatus404(resp.error) ==>
              o == Terminal("error deleting journey action map " + id + ": " + resp.error.message)
  {
    match resp
    case Failed(e) =>
      if IsStatus404(e) then Done else Terminal("error deleting journey action map " + id + ": " + e.message)
    case Found(_) => Retryable("journey action map " + id + " still exists")
  }

  function DeletePolls(id: string, polls: seq<Response<ActionMap>>): seq<Outcome> {
    seq(|polls|, k requires 0 <= k < |polls| => DeletePoll(id, polls[k]))
  }

  /** `deleteJourneyActionMap`: a failed delete call returns its error at
      once; otherwise the poll runs within its 30-second bound, modelled as
      the polls that fit in it. */
  function DeleteJourneyActionMap(id: string, displayName: string, deleteError: Option<ApiError>,
                                  polls: seq<Response<ActionMap>>): (r: Run)
    requires |polls| > 0
    ensures deleteError.Some? ==>
              r.attempts == 0 &&
              r.diags == Error("Failed to delete journey action map with display name " + displayName + ": " +
                               deleteError.value.message)
  {
    match deleteError
    case Some(e) => Run(Error("Failed to delete journey action map with display name " + displayName + ": " + e.message), 0)
    case None => WithRetries(DeletePolls(id, polls))
  }

  /** The delete succeeds exactly when the delete call succeeded and a poll
      got a 404 after polls that all still found the map. */
  lemma DeleteSucceedsIff(id: string, displayName: string, deleteError: Option<ApiError>, polls: seq<Response<ActionMap>>)
    requires |polls| > 0
    ensures DeleteJourneyActionMap(id, displayName, deleteError, polls).diags == NoError <==>
            deleteError.None? &&
            exists k :: 0 <= k < |polls| && polls[k].Failed? && IsStatus404(polls[k].error) &&
                        forall j :: 0 <= j < k ==> polls[j].Found?
  {
    var os := DeletePolls(id, polls);
    SucceedsIff(os);
    if deleteError.None? {
      if exists k :: 0 <= k < |polls| && polls[k].Failed? && IsStatus404(polls[k].error) &&
                     forall j :: 0 <= j < k ==> polls[j].Found? {
        var k :| 0 <= k < |polls| && polls[k].Failed? && IsStatus404(polls[k].error) &&
                 forall j :: 0 <= j < k ==> polls[j].Found?;
        assert os[k] == Done;
        assert forall j :: 0 <= j < k ==> os[j].Retryable?;
      }
      if WithRetries(os).diags == NoError {
        var k :| 0 <= k < |os| && os[k] == Done && forall j :: 0 <= j < k ==> os[j].Retryable?;
        assert polls[k].Failed? && IsStatus404(polls[k].error);
        forall j | 0 <= j < k
          ensures polls[j].Found?
        {
          assert os[j].Retryable?;
        }
      }
    }
  }

  /** A poll error other than 404 ends the delete with that error. */
  lemma DeleteOtherErrorIsTerminal(id: string, displayName: string, polls: seq<Response<ActionMap>>, k: nat)
    requires k < |polls| && polls[k].Failed? && !IsStatus404(polls[k].error)
    requires forall j :: 0 <= j < k ==> polls[j].Found?
    ensures DeleteJourneyActionMap(id, displayName, None, polls) ==
            Run(Error("error deleting journey action map " + id + ": " + polls[k].error.message), k + 1)
  {
    TerminalStops(DeletePolls(id, polls), k);
  }

  // ---------------------------------------------------------------- nested references

  /** A reference to another entity by id (the SDK's action-template,
      addressable-entity and schedule-group references). */
  datatype EntityRef = EntityRef(id: Option<string>)

  /** A reference built from an optional id entry: nil when the entry is
      absent or empty, otherwise a reference carrying exactly that id. */
  function RefAt(m: map<string, string>, key: string): (r: Option<EntityRef>)
    ensures r.None? <==> key !in m || m[key] == ""
    ensures r.Some? ==> r.value == EntityRef(Some(m[key]))
  {
    match GetNonDefault(m, key)
    case None => None
    case Some(id) => Some(EntityRef(Some(id)))
  }

  /** `getActionMapActionTemplate`. */
  function GetActionMapActionTemplate(actionMapAction: map<string, string>): (r: Option<EntityRef>)
    ensures r.None? <==> "action_template_id" !in actionMapAction || actionMapAction["action_template_id"] == ""
    ensures r.Some? ==> r.value == EntityRef(Some(actionMapAction["action_template_id"]))
  {
    RefAt(actionMapAction, "action_template_id")
  }

  /** `getArchitectFlow`. */
  function GetArchitectFlow(block: map<string, string>): (r: Option<EntityRef>)
    ensures r.None? <==> "architect_flow_id" !in block || block["architect_flow_id"] == ""
    ensures r.Some? ==> r.value == EntityRef(Some(block["architect_flow_id"]))
  {
    RefAt(block, "architect_flow_id")
  }

  /** `stringmap.SetValueIfNotNil` for a string value. */
  function SetIfSome(m: map<string, string>, key: string, v: Option<string>): map<string, string> {
    if v.Some? then m[key := v.value] else m
  }

  /** The state entry written for an optional reference's id (the
      action-template part of `flattenActionMapAction`). */
  function FlattenRef(m: map<string, string>, key: string, ref: Option<EntityRef>): map<string, string> {
    if ref.Some? then SetIfSome(m, key, ref.value.id) else m
  }

  /** A reference in normal form: nil, or carrying a non-empty id. These are
      the references the builders produce. */
  predicate NormalRef(ref: Option<EntityRef>) {
    ref.None? || (ref.value.id.Some? && ref.value.id.value != "")
  }

  /** Reading the action template back into state and building it again
      gives the same reference; building from state and flattening keeps
      exactly the non-empty id entry. */
  lemma ActionTemplateRoundTrip(ref: Option<EntityRef>, actionMapAction: map<string, string>)
    ensures NormalRef(ref) ==> GetActionMapActionTemplate(FlattenRef(map[], "action_template_id", ref)) == ref
    ensures FlattenRef(map[], "action_template_id", GetActionMapActionTemplate(actionMapAction)) ==
            if GetNonDefault(actionMapAction, "action_template_id").Some?
            then map["action_template_id" := actionMapAction["action_template_id"]] else map[]
  {
  }

  /** The web-messaging offer of an action. */
  datatype WebMessagingOfferFields = WebMessagingOfferFields(offerText: Option<string>, architectFlow: Option<EntityRef>)

  /** `buildSdkWebMessagingOfferFields`. */
  function BuildSdkWebMessagingOfferFields(block: map<string, string>): (r: WebMessagingOfferFields)
    ensures r.offerText.None? <==> "offer_text" !in block || block["offer_text"] == ""
    ensures r.offerText.Some? ==> r.offerText.value == block["offer_text"]
    ensures r.architectFlow.None? <==> "architect_flow_id" !in block || block["architect_flow_id"] == ""
    ensures r.architectFlow.Some? ==> r.architectFlow.value.id == Some(block["architect_flow_id"])
  {
    WebMessagingOfferFields(GetNonDefault(block, "offer_text"), GetArchitectFlow(block))
  }

  /** `flattenWebMessagingOfferFields`: nil when there is neither an offer
      text nor an architect-flow id; otherwise exactly the keys whose source
      value is present. */
  function FlattenWebMessagingOfferFields(f: WebMessagingOfferFields): (r: Option<map<string, string>>)
    ensures r.None? <==> f.offerText.None? && (f.architectFlow.None? || f.architectFlow.value.id.None?)
    ensures r.Some? ==>
              && r.value.Keys <= {"offer_text", "architect_flow_id"}
              && ("offer_text" in r.value <==> f.offerText.Some?)
              && (f.offerText.Some? ==> r.value["offer_text"] == f.offerText.value)
              && ("architect_flow_id" in r.value <==> f.architectFlow.Some? && f.architectFlow.value.id.Some?)
              && ("architect_flow_id" in r.value ==> r.value["architect_flow_id"] == f.architectFlow.value.id.value)
  {
    if f.offerText.None? && (f.architectFlow.None? || f.architectFlow.value.id.None?) then None
    else
      var withText := SetIfSome(map[], "offer_text", f.offerText);
      Some(if f.architectFlow.Some? then SetIfSome(withText, "architect_flow_id", f.architectFlow.value.id) else withText)
  }

  /** Building the offer from a state block and flattening it again keeps
      exactly the block's non-empty entries, and gives nil when there are
      none; flattening an offer in normal form and building it again gives
      the same offer. */
  lemma WebMessagingOfferRoundTrip(block: map<string, string>, f: WebMessagingOfferFields)
    ensures var r := FlattenWebMessagingOfferFields(BuildSdkWebMessagingOfferFields(block));
            && (r.None? <==> GetNonDefault(block, "offer_text").None? && GetNonDefault(block, "architect_flow_id").None?)
            && (r.Some? ==> ("offer_text" in r.value <==> GetNonDefault(block, "offer_text").Some?) &&
                            ("architect_flow_id" in r.value <==> GetNonDefault(block, "architect_flow_id").Some?) &&
                            forall k :: k in r.value ==> k in block && r.value[k] == block[k])
    ensures (f.offerText.None? || f.offerText.value != "") && NormalRef(f.architectFlow) &&
            FlattenWebMessagingOfferFields(f).Some? ==>
              BuildSdkWebMessagingOfferFields(FlattenWebMessagingOfferFields(f).value) == f
  {
  }

  /** The schedule groups of an action map: the primary group and the
      optional emergency group. */
  datatype ScheduleGroups = ScheduleGroups(primary: EntityRef, emergency: Option<EntityRef>)

  /** `getActionMapScheduleGroupPair`. The primary id is required by the
      schema and read with an unchecked type assertion, so it must be
      present. */
  function GetActionMapScheduleGroupPair(block: map<string, string>): (r: ScheduleGroups)
    requires "action_map_schedule_group_id" in block
    ensures r.primary == EntityRef(Some(block["action_map_schedule_group_id"]))
    ensures r.emergency.None? <==>
              "emergency_action_map_schedule_group_id" !in block || block["emergency_action_map_schedule_group_id"] == ""
    ensures r.emergency.Some? ==> r.emergency.value == EntityRef(Some(block["emergency_action_map_schedule_group_id"]))
  {
    ScheduleGroups(EntityRef(Some(block["action_map_schedule_group_id"])),
                   RefAt(block, "emergency_action_map_schedule_group_id"))
  }

  /** `buildSdkPatchActionMapScheduleGroups`: nil in, nil out. */
  function BuildSdkPatchActionMapScheduleGroups(block: Option<map<string, string>>): (r: Option<ScheduleGroups>)
    requires block.Some? ==> "action_map_schedule_group_id" in block.value
    ensures r.None? <==> block.None?
    ensures r.Some? ==> r.value == GetActionMapScheduleGroupPair(block.value)
  {
    match block
    case None => None
    case Some(m) => Some(GetActionMapScheduleGroupPair(m))
  }

  /** `flattenActionMapScheduleGroups`: the primary id is dereferenced, so
      it must be present. */
  function FlattenActionMapScheduleGroups(g: ScheduleGroups): (r: map<string, string>)
    requires g.primary.id.Some?
    ensures r.Keys <= {"action_map_schedule_group_id", "emergency_action_map_schedule_group_id"}
    ensures "action_map_schedule_group_id" in r && r["action_map_schedule_group_id"] == g.primary.id.value
    ensures "emergency_action_map_schedule_group_id" in r <==> g.emergency.Some? && g.emergency.value.id.Some?
    ensures "emergency_action_map_schedule_group_id" in r ==>
              r["emergency_action_map_schedule_group_id"] == g.emergency.value.id.value
  {
    FlattenRef(map["action_map_schedule_group_id" := g.primary.id.value],
               "emergency_action_map_schedule_group_id", g.emergency)
  }

  /** Schedule groups survive a flatten-and-build round trip (with the
      emergency group in normal form), and a build-and-flatten round trip
      keeps the primary id and the non-empty emergency id. */
  lemma ScheduleGroupsRoundTrip(g: ScheduleGroups, block: map<string, string>)
    requires g.primary.id.Some? && NormalRef(g.emergency)
    requires "action_map_schedule_group_id" in block
    ensures GetActionMapScheduleGroupPair(FlattenActionMapScheduleGroups(g)) == g
    ensures var flat := FlattenActionMapScheduleGroups(GetActionMapScheduleGroupPair(block));
            && flat["action_map_schedule_group_id"] == block["action_map_schedule_group_id"]
            && ("emergency_action_map_schedule_group_id" in flat <==>
                GetNonDefault(block, "emergency_action_map_schedule_group_id").Some?)
            && forall k :: k in flat ==> k in block && flat[k] == block[k]
  {
  }
}
