/** The decision logic of the journey segment resource: the exporter's
    listing (bounded only by an empty page), the read closure (an inactive
    segment counts as gone and clears the id), create, the delete poll
    (an inactive segment counts as deleted), and the criteria and
    external-segment payload rules. */
module JourneySegment {
  import opened Api
  import opened Retry
  import opened Paging

  /** A segment as these operations see it; `isActive` is nil when the
      server leaves it out. */
  datatype Segment = Segment(id: string, displayName: string, isActive: Option<bool>)

  /** A reply that finds a segment that is explicitly inactive. */
  predicate Inactive(resp: Response<Segment>) {
    resp.Found? && resp.entity.isActive == Some(false)
  }

  // ---------------------------------------------------------------- listing

  /** The listing's result: an error if the page it stopped at failed,
      otherwise the id -> display name map of every earlier page. */
  function SegmentListing(pages: seq<Response<Page<Named>>>): Result<map<string, string>> {
    var n := EndPage(pages, 1);
    match Fetch(pages, n)
    case Failed(e) => Err("Failed to get page of journey segments: " + e.message)
    case Found(_) => Ok(IdNames(Entities(pages[..n - 1])))
  }

  /** `getAllJourneySegments`: requests pages 1, 2, ... until a page fails or
      comes back empty; the page count the server reports is not used. */
  method GetAllJourneySegments(pages: seq<Response<Page<Named>>>)
    returns (r: Result<map<string, string>>, requested: nat)
    ensures requested == EndPage(pages, 1)
    ensures r == SegmentListing(pages)
  {
    var resources: map<string, string> := map[];
    var pageNum := 1;
    while true
      invariant 1 <= pageNum <= EndPage(pages, 1)
      invariant EndPage(pages, pageNum) == EndPage(pages, 1)
      invariant resources == IdNames(Entities(pages[..pageNum - 1]))
      decreases |pages| + 1 - pageNum
    {
      var journeySegments := Fetch(pages, pageNum);
      if journeySegments.Failed? {
        return Err("Failed to get page of journey segments: " + journeySegments.error.message), pageNum;
      }
      var entities := Items(journeySegments.entity);
      if entities == [] {
        return Ok(resources), pageNum;
      }
      resources := AddIdNames(resources, Entities(pages[..pageNum - 1]), entities);
      EntitiesStep(pages, pageNum - 1);
      pageNum := pageNum + 1;
    }
  }

  /** The listing fails exactly when a page before the first empty one
      fails. */
  lemma SegmentListingFailsIff(pages: seq<Response<Page<Named>>>)
    ensures SegmentListing(pages).Err? <==> exists m :: 1 <= m <= EndPage(pages, 1) && Fetch(pages, m).Failed?
  {
    var n := EndPage(pages, 1);
    if exists m :: 1 <= m <= n && Fetch(pages, m).Failed? {
      var m :| 1 <= m <= n && Fetch(pages, m).Failed?;
      assert !(m < n);
    }
  }

  /** A successful listing is the id -> name map of the pages before the
      first empty one. */
  lemma SegmentListingValue(pages: seq<Response<Page<Named>>>)
    requires SegmentListing(pages).Ok?
    ensures SegmentListing(pages).value == IdNames(Entities(pages[..EndPage(pages, 1) - 1]))
  {
  }

  /** A successful listing maps exactly the ids listed on the pages before
      the first empty one, each to its last listed display name. */
  lemma SegmentListingKeys(pages: seq<Response<Page<Named>>>)
    requires SegmentListing(pages).Ok?
    ensures var es := Entities(pages[..EndPage(pages, 1) - 1]);
            forall id :: id in SegmentListing(pages).value <==> exists i :: 0 <= i < |es| && es[i].id == id
    ensures var es := Entities(pages[..EndPage(pages, 1) - 1]);
            forall i :: 0 <= i < |es| && (forall l :: i < l < |es| ==> es[l].id != es[i].id) ==>
              SegmentListing(pages).value[es[i].id] == es[i].displayName
  {
    var es := Entities(pages[..EndPage(pages, 1) - 1]);
    SegmentListingValue(pages);
    IdNamesSpec(es);
  }

  /** Unlike the action-map listing, a reported page count of 1 does not stop
      the segment listing: two non-empty pages are both read. */
  lemma ReportedCountIgnored(a: Named, b: Named)
    ensures var pages := [Found(Page(Some([a]), 1)), Found(Page(Some([b]), 1))];
            EndPage(pages, 1) == 3 &&
            SegmentListing(pages) == Ok(map[a.id := a.displayName, b.id := b.displayName])
  {
    var pages := [Found(Page(Some([a]), 1)), Found(Page(Some([b]), 1))];
    assert EndPage(pages, 3) == 3;
    assert EndPage(pages, 2) == 3;
    assert EndPage(pages, 1) == 3;
    assert pages[..2] == pages;
    assert pages[..0] == [];
    EntitiesStep(pages, 0);
    EntitiesStep(pages, 1);
    assert Entities(pages[..2]) == [a, b];
    IdNamesStep([], a);
    IdNamesStep([a], b);
    assert [] + [a] == [a] && [a] + [b] == [a, b];
  }

  // ---------------------------------------------------------------- read

  /** One attempt of the read closure: a 404 asks for a retry, another error
      is terminal, an inactive segment is done (the check does not run), and
      an active segment gives the consistency check's verdict. */
  function ReadOutcome(id: string, resp: Response<Segment>, verdict: Outcome): (o: Outcome)
    ensures resp.Failed? ==>
              o == if IsStatus404(resp.error) then Retryable("failed to read journey segment " + id + ": " + resp.error.message)
                   else Terminal("failed to read journey segment " + id + ": " + resp.error.message)
    ensures Inactive(resp) ==> o == Done
    ensures resp.Found? && !Inactive(resp) ==> o == verdict
  {
    match resp
    case Failed(e) =>
      var msg := "failed to read journey segment " + id + ": " + e.message;
      if IsStatus404(e) then Retryable(msg) else Terminal(msg)
    case Found(s) =>
      if s.isActive.Some? && !s.isActive.value then Done else verdict
  }

  function ReadOutcomes(id: string, replies: seq<Response<Segment>>, verdicts: seq<Outcome>): seq<Outcome>
    requires |replies| == |verdicts|
  {
    seq(|replies|, k requires 0 <= k < |replies| => ReadOutcome(id, replies[k], verdicts[k]))
  }

  /** `readJourneySegment`: the read closure under the retry loop;
      `verdicts[k]` is what the consistency check would say after read k.
      The id is cleared when the attempt the loop stops at finds the segment
      inactive, and is otherwise left alone. */
  method ReadJourneySegment(d: ResourceData, replies: seq<Response<Segment>>, verdicts: seq<Outcome>)
    returns (diags: Diagnostics)
    requires |replies| == |verdicts| > 0
    modifies d
    ensures var r := WithRetries(ReadOutcomes(old(d.id), replies, verdicts));
            diags == r.diags &&
            d.id == if Inactive(replies[r.attempts - 1]) then "" else old(d.id)
  {
    ghost var os := ReadOutcomes(d.id, replies, verdicts);
    var i := 0;
    while true
      invariant 0 <= i < |replies|
      invariant d.id == old(d.id)
      invariant forall j :: 0 <= j < i ==> os[j].Retryable?
      decreases |replies| - i
    {
      var journeySegment := replies[i];
      var o: Outcome;
      if journeySegment.Failed? {
        var msg := "failed to read journey segment " + d.id + ": " + journeySegment.error.message;
        o := if IsStatus404(journeySegment.error) then Retryable(msg) else Terminal(msg);
      } else if journeySegment.entity.isActive.Some? && !journeySegment.entity.isActive.value {
        d.SetId("");
        o := Done;
      } else {
        o := verdicts[i];
      }
      assert o == os[i];
      if !o.Retryable? || i == |replies| - 1 {
        StopsAt(os, i);
        return Settle(o);
      }
      i := i + 1;
    }
  }

  /** An inactive segment ends the read successfully whatever the check
      would have said, after any number of 404s. */
  lemma InactiveReadSucceeds(id: string, replies: seq<Response<Segment>>, verdicts: seq<Outcome>, k: nat)
    requires |replies| == |verdicts| && k < |replies|
    requires forall j :: 0 <= j < k ==> replies[j].Failed? && IsStatus404(replies[j].error)
    requires Inactive(replies[k])
    ensures WithRetries(ReadOutcomes(id, replies, verdicts)) == Run(NoError, k + 1)
  {
    StopsAt(ReadOutcomes(id, replies, verdicts), k);
  }

  /** A read error other than 404 ends the read at once with that error. */
  lemma ReadOtherErrorIsTerminal(id: string, replies: seq<Response<Segment>>, verdicts: seq<Outcome>, k: nat)
    requires |replies| == |verdicts| && k < |replies|
    requires forall j :: 0 <= j < k ==> replies[j].Failed? && IsStatus404(replies[j].error)
    requires replies[k].Failed? && !IsStatus404(replies[k].error)
    ensures WithRetries(ReadOutcomes(id, replies, verdicts)) ==
            Run(Error("failed to read journey segment " + id + ": " + replies[k].error.message), k + 1)
  {
    TerminalStops(ReadOutcomes(id, replies, verdicts), k);
  }

  // ---------------------------------------------------------------- create

  /** `createJourneySegment`: on a failed create the id is left alone and the
      error is returned; otherwise the id is set to the created segment's id
      and the read runs with it. */
  method CreateJourneySegment(d: ResourceData, displayName: string, created: Response<Segment>,
                              replies: seq<Response<Segment>>, verdicts: seq<Outcome>)
    returns (diags: Diagnostics)
    requires |replies| == |verdicts| > 0
    modifies d
    ensures created.Failed? ==>
              d.id == old(d.id) &&
              diags == Error("Failed to create journey segment " + displayName + ": " + created.error.message)
    ensures created.Found? ==>
              var r := WithRetries(ReadOutcomes(created.entity.id, replies, verdicts));
              diags == r.diags &&
              d.id == if Inactive(replies[r.attempts - 1]) then "" else created.entity.id
  {
    if created.Failed? {
      return Error("Failed to create journey segment " + displayName + ": " + created.error.message);
    }
    d.SetId(created.entity.id);
    diags := ReadJourneySegment(d, replies, verdicts);
  }

  // ---------------------------------------------------------------- delete

  /** One poll after the delete: gone (404) or inactive is done, another
      error is terminal, an active segment still found asks for a retry. */
  function DeletePoll(id: string, resp: Response<Segment>): (o: Outcome)
    ensures o == Done <==> (resp.Failed? && IsStatus404(resp.error)) || Inactive(resp)
    ensures o.Retryable? <==> resp.Found? && !Inactive(resp)
    ensures resp.Failed? && !IsStatus404(resp.error) ==>
              o == Terminal("error deleting journey segment " + id + ": " + resp.error.message)
  {
    match resp
    case Failed(e) =>
      if IsStatus404(e) then Done else Terminal("error deleting journey segment " + id + ": " + e.message)
    case Found(s) =>
      if s.isActive.Some? && !s.isActive.value then Done else Retryable("journey segment " + id + " still exists")
  }

  function DeletePolls(id: string, polls: seq<Response<Segment>>): seq<Outcome> {
    seq(|polls|, k requires 0 <= k < |polls| => DeletePoll(id, polls[k]))
  }

  /** `deleteJourneySegment`: a failed delete call returns its error at once;
      otherwise the poll runs within its 30-second bound. */
  function DeleteJourneySegment(id: string, displayName: string, deleteError: Option<ApiError>,
                                polls: seq<Response<Segment>>): (r: Run)
    requires |polls| > 0
    ensures deleteError.Some? ==>
              r.attempts == 0 &&
              r.diags == Error("Failed to delete journey segment with display name " + displayName + ": " +
                               deleteError.value.message)
  {
    match deleteError
    case Some(e) => Run(Error("Failed to delete journey segment with display name " + displayName + ": " + e.message), 0)
    case None => WithRetries(DeletePolls(id, polls))
  }

  /** A poll that counts as "deleted": a 404, or an inactive segment. */
  predicate Gone(resp: Response<Segment>) {
    (resp.Failed? && IsStatus404(resp.error)) || Inactive(resp)
  }

  /** The delete succeeds exactly when the delete call succeeded and a poll
      found the segment gone after polls that all found it still active. */
  lemma DeleteSucceedsIff(id: string, displayName: string, deleteError: Option<ApiError>, polls: seq<Response<Segment>>)
    requires |polls| > 0
    ensures DeleteJourneySegment(id, displayName, deleteError, polls).diags == NoError <==>
            deleteError.None? &&
            exists k :: 0 <= k < |polls| && Gone(polls[k]) &&
                        forall j :: 0 <= j < k ==> polls[j].Found? && !Inactive(polls[j])
  {
    if deleteError.None? {
      if exists k :: 0 <= k < |polls| && Gone(polls[k]) &&
                     forall j :: 0 <= j < k ==> polls[j].Found? && !Inactive(polls[j]) {
        var k :| 0 <= k < |polls| && Gone(polls[k]) &&
                 forall j :: 0 <= j < k ==> polls[j].Found? && !Inactive(polls[j]);
        GoneAfterPollsSucceeds(id, polls, k);
      }
      if WithRetries(DeletePolls(id, polls)).diags == NoError {
        SuccessMeansGone(id, polls);
      }
    }
  }

  /** Polls that find the segment active and then one that finds it gone
      make the poll loop succeed. */
  lemma GoneAfterPollsSucceeds(id: string, polls: seq<Response<Segment>>, k: nat)
    requires k < |polls| && Gone(polls[k])
    requires forall j :: 0 <= j < k ==> polls[j].Found? && !Inactive(polls[j])
    ensures WithRetries(DeletePolls(id, polls)).diags == NoError
  {
    var os := DeletePolls(id, polls);
    assert os[k] == DeletePoll(id, polls[k]);
    assert forall j :: 0 <= j < k ==> os[j] == DeletePoll(id, polls[j]);
    StopsAt(os, k);
  }

  /** A poll loop that succeeds stopped at a poll that found the segment
      gone, after polls that all found it active. */
  lemma SuccessMeansGone(id: string, polls: seq<Response<Segment>>)
    requires |polls| > 0 && WithRetries(DeletePolls(id, polls)).diags == NoError
    ensures exists k :: 0 <= k < |polls| && Gone(polls[k]) &&
                        forall j :: 0 <= j < k ==> polls[j].Found? && !Inactive(polls[j])
  {
    var os := DeletePolls(id, polls);
    var k := WithRetries(os).attempts - 1;
    assert os[k] == DeletePoll(id, polls[k]);
    assert forall j :: 0 <= j < k ==> os[j] == DeletePoll(id, polls[j]);
    assert Gone(polls[k]);
  }

  /** A poll error other than 404 ends the delete at once with that error. */
  lemma DeleteOtherErrorIsTerminal(id: string, displayName: string, polls: seq<Response<Segment>>, k: nat)
    requires k < |polls| && polls[k].Failed? && !IsStatus404(polls[k].error)
    requires forall j :: 0 <= j < k ==> polls[j].Found? && !Inactive(polls[j])
    ensures DeleteJourneySegment(id, displayName, None, polls) ==
            Run(Error("error deleting journey segment " + id + ": " + polls[k].error.message), k + 1)
  {
    TerminalStops(DeletePolls(id, polls), k);
  }

  // ---------------------------------------------------------------- payload rules

  /** A value in a flattened state block. */
  datatype Value = Str(s: string) | Bool(b: bool) | StrSet(strs: set<string>)

  /** A journey-pattern criterion as the SDK returns it. */
  datatype Criteria = Criteria(key: Option<string>, values: Option<seq<string>>,
                               shouldIgnoreCase: Option<bool>, operator: Option<string>)

  /** A context-pattern criterion as the SDK returns it. */
  datatype EntityTypeCriteria = EntityTypeCriteria(key: Option<string>, values: Option<seq<string>>,
                                                   shouldIgnoreCase: Option<bool>, operator: Option<string>,
                                                   entityType: Option<string>)

  function SetStr(m: map<string, Value>, key: string, v: Option<string>): map<string, Value> {
    if v.Some? then m[key := Str(v.value)] else m
  }

  function SetBool(m: map<string, Value>, key: string, v: Option<bool>): map<string, Value> {
    if v.Some? then m[key := Bool(v.value)] else m
  }

  /** `stringListToSet` applied to an optional list. */
  function SetStrs(m: map<string, Value>, key: string, v: Option<seq<string>>): map<string, Value> {
    if v.Some? then m[key := StrSet(set s | s in v.value)] else m
  }

  /** `flattenCriteria`: each key is emitted exactly when its field is
      present, with that field's value (the list as a set). */
  function FlattenCriteria(c: Criteria): (r: map<string, Value>)
    ensures r.Keys <= {"key", "values", "should_ignore_case", "operator"}
    ensures "key" in r <==> c.key.Some?
    ensures c.key.Some? ==> r["key"] == Str(c.key.value)
    ensures "values" in r <==> c.values.Some?
    ensures c.values.Some? ==> r["values"] == StrSet(set s | s in c.values.value)
    ensures "should_ignore_case" in r <==> c.shouldIgnoreCase.Some?
    ensures c.shouldIgnoreCase.Some? ==> r["should_ignore_case"] == Bool(c.shouldIgnoreCase.value)
    ensures "operator" in r <==> c.operator.Some?
    ensures c.operator.Some? ==> r["operator"] == Str(c.operator.value)
  {
    var m := SetStr(map[], "key", c.key);
    var m := SetStrs(m, "values", c.values);
    var m := SetBool(m, "should_ignore_case", c.shouldIgnoreCase);
    SetStr(m, "operator", c.operator)
  }

  /** `flattenEntityTypeCriteria`: as `flattenCriteria`, plus the entity
      type. */
  function FlattenEntityTypeCriteria(c: EntityTypeCriteria): (r: map<string, Value>)
    ensures r.Keys <= {"key", "values", "should_ignore_case", "operator", "entity_type"}
    ensures "key" in r <==> c.key.Some?
    ensures c.key.Some? ==> r["key"] == Str(c.key.value)
    ensures "values" in r <==> c.values.Some?
    ensures c.values.Some? ==> r["values"] == StrSet(set s | s in c.values.value)
    ensures "should_ignore_case" in r <==> c.shouldIgnoreCase.Some?
    ensures c.shouldIgnoreCase.Some? ==> r["should_ignore_case"] == Bool(c.shouldIgnoreCase.value)
    ensures "operator" in r <==> c.operator.Some?
    ensures c.operator.Some? ==> r["operator"] == Str(c.operator.value)
    ensures "entity_type" in r <==> c.entityType.Some?
    ensures c.entityType.Some? ==> r["entity_type"] == Str(c.entityType.value)
  {
    var m := SetStr(map[], "key", c.key);
    var m := SetStrs(m, "values", c.values);
    var m := SetBool(m, "should_ignore_case", c.shouldIgnoreCase);
    var m := SetStr(m, "operator", c.operator);
    SetStr(m, "entity_type", c.entityType)
  }

  /** A criterion block of the configuration (`values` is the set's
      elements in some order). */
  datatype CriteriaBlock = CriteriaBlock(key: string, values: seq<string>, shouldIgnoreCase: bool,
                                         operator: string, entityType: string)

  /** `buildSdkCriteria`: every field is sent. */
  function BuildSdkCriteria(b: CriteriaBlock): (r: Criteria)
    ensures r.key.Some? && r.values.Some? && r.shouldIgnoreCase.Some? && r.operator.Some?
  {
    Criteria(Some(b.key), Some(b.values), Some(b.shouldIgnoreCase), Some(b.operator))
  }

  /** `buildSdkEntityTypeCriteria`: every field is sent. */
  function BuildSdkEntityTypeCriteria(b: CriteriaBlock): (r: EntityTypeCriteria)
    ensures r.key.Some? && r.values.Some? && r.shouldIgnoreCase.Some? && r.operator.Some? && r.entityType.Some?
  {
    EntityTypeCriteria(Some(b.key), Some(b.values), Some(b.shouldIgnoreCase), Some(b.operator), Some(b.entityType))
  }

  /** A built criterion reads back into state as exactly the block it came
      from; a context criterion also keeps its entity type. */
  lemma CriteriaRoundTrip(b: CriteriaBlock)
    ensures FlattenCriteria(BuildSdkCriteria(b)) ==
            map["key" := Str(b.key), "values" := StrSet(set s | s in b.values),
                "should_ignore_case" := Bool(b.shouldIgnoreCase), "operator" := Str(b.operator)]
    ensures FlattenEntityTypeCriteria(BuildSdkEntityTypeCriteria(b)) ==
            FlattenCriteria(BuildSdkCriteria(b))["entity_type" := Str(b.entityType)]
  {
  }

  /** An external segment as the SDK returns it. */
  datatype ExternalSegment = ExternalSegment(id: Option<string>, name: Option<string>, source: Option<string>)

  /** The patch payload's external segment: it has a name and nothing else. */
  datatype PatchExternalSegment = PatchExternalSegment(name: Option<string>)

  /** An `external_segment` block of the configuration. */
  datatype ExternalSegmentBlock = ExternalSegmentBlock(name: string, source: string)

  /** `buildSdkExternalSegment`: name and source, never an id. */
  function BuildSdkExternalSegment(b: ExternalSegmentBlock): (r: ExternalSegment)
    ensures r.id.None?
    ensures r.name == Some(b.name) && r.source == Some(b.source)
  {
    ExternalSegment(None, Some(b.name), Some(b.source))
  }

  /** `buildSdkPatchExternalSegment`: the name only. */
  function BuildSdkPatchExternalSegment(b: ExternalSegmentBlock): (r: PatchExternalSegment)
    ensures r.name == Some(b.name)
  {
    PatchExternalSegment(Some(b.name))
  }

  /** `flattenExternalSegment`: each key present exactly when its field is. */
  function FlattenExternalSegment(e: ExternalSegment): (r: map<string, string>)
    ensures r.Keys <= {"id", "name", "source"}
    ensures ("id" in r <==> e.id.Some?) && (e.id.Some? ==> r["id"] == e.id.value)
    ensures ("name" in r <==> e.name.Some?) && (e.name.Some? ==> r["name"] == e.name.value)
    ensures ("source" in r <==> e.source.Some?) && (e.source.Some? ==> r["source"] == e.source.value)
  {
    var m := if e.id.Some? then map["id" := e.id.value] else map[];
    var m := if e.name.Some? then m["name" := e.name.value] else m;
    if e.source.Some? then m["source" := e.source.value] else m
  }

  /** A built external segment reads back as its block, with no id; a
      flattened segment with an id keeps it. */
  lemma ExternalSegmentRoundTrip(b: ExternalSegmentBlock, e: ExternalSegment)
    ensures FlattenExternalSegment(BuildSdkExternalSegment(b)) == map["name" := b.name, "source" := b.source]
    ensures "id" in FlattenExternalSegment(e) <==> e.id.Some?
    ensures "name" in FlattenExternalSegment(e) <==> e.name.Some?
    ensures "source" in FlattenExternalSegment(e) <==> e.source.Some?
  {
  }
}
