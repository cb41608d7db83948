# Genesys Cloud Terraform provider: decision logic of four resources

This project models, in Dafny, the logic that sits between Terraform state and
the Genesys Cloud SDK in four parts of the Terraform provider for Genesys Cloud:

- **The routing-queue resource.** It covers:
  - membership reconciliation: set differences, batches of at most 100 ids, and ring-number patches;
  - the paged member listing;
  - the delete poll;
  - the payload rules for after-call work (ACW), communication-type keys, media settings and default scripts.
- **The journey action-map resource.** It covers:
  - the exporter's listing, which is bounded by the page count the server reports and by an empty page;
  - create;
  - the read, update and delete retry closures;
  - the nil-or-absent rules of the nested references.
- **The journey segment resource.** It covers:
  - the exporter's listing, which is bounded only by an empty page;
  - create;
  - the read closure, where an inactive segment clears the id;
  - the delete poll, where an inactive segment counts as deleted;
  - the criteria and external-segment payload rules.
- **The trunk-base-settings data source.** A retried, paged search by name.

## How the model represents the environment

Remote calls are inputs:
- **Paged listings.** A listing is a sequence of replies, each `Found(page)` or `Failed(error)`. The reply to page n is `pages[n - 1]`. A page past the end is assumed to come back empty: the code relies on the API doing so, but this model cannot check it. An `ApiError` carries the HTTP status, if there was a response.
- **Retry wrappers.** `withRetries`, `resource.RetryContext`, `withRetriesForRead` and `retryWhen` are modelled by `Retry.WithRetries`. It runs over the outcomes (`Done`, `Retryable`, `Terminal`) of the attempts that fit in the deadline, and stops at the first attempt that is not `Retryable`, or at the last attempt allowed.
- **`schema.ResourceData`.** Only the resource id is modelled. It is the `ResourceData` class, whose `SetId` the lifecycle methods call.

Behaviour of helpers whose source is not part of this model:
- `sliceDifference(a, b)` returns the elements of `a` not in `b`, in the order of `a`.
- `isStatus404` means a response with status 404.
- `isVersionMismatch` means status 409.
- `stringmap.GetNonDefaultValue` returns nil when the key is absent or holds "".
- `GetOk` reports the zero value (an empty set or map, a timeout of 0) as not set.
- The consistency checker's verdict after each read is an input.

Modules and files:

| module | file |
|---|---|
| `Api` | `api.dfy` |
| `Retry` | `retry.dfy` |
| `Paging` | `paging.dfy` |
| `RoutingQueue` | `routing_queue.dfy` |
| `JourneyActionMap` | `journey_action_map.dfy` |
| `JourneySegment` | `journey_segment.dfy` |
| `TrunkBaseSettings` | `trunk_base_settings.dfy` |

## Model

| member | source | states |
|---|---|---|
| Retry.WithRetries | genesyscloud/resource_genesyscloud_journey_action_map.go:470-482 | the retry loop makes between one attempt and all of them; every attempt before the last one it makes asked for a retry; it stops at the first attempt that is not retryable or at the deadline, and reports that attempt's outcome |
| Retry.SucceedsIff | genesyscloud/resource_genesyscloud_journey_action_map.go:470-482 | the loop succeeds iff some attempt succeeds after attempts that all asked for a retry |
| Retry.AllRetryableTimesOut | genesyscloud/data_source_genesyscloud_telephony_providers_edges_trunkbasesettings.go:32-53 | when every attempt asks for a retry, all of them are made and the loop fails with the last reason |
| Retry.TerminalStops | genesyscloud/resource_genesyscloud_routing_queue.go:544-554 | a terminal attempt after retryable ones ends the loop with its own reason, and no later attempt is made |
| Retry.StopsAt | genesyscloud/resource_genesyscloud_journey_segment.go:366-384 | the loop stops at attempt k exactly when the earlier attempts asked for a retry and k is not retryable or is the last one allowed |
| Paging.EndPage | genesyscloud/resource_genesyscloud_journey_segment.go:254-265 | a listing stops at the first page, counted from the start, that fails or is empty; every page before it was found and not empty |
| Paging.IdNamesSpec | genesyscloud/resource_genesyscloud_journey_action_map.go:358-360 | the exporter's id -> name map has exactly the listed ids as keys, and each id maps to the display name of its last occurrence |
| Paging.AddIdNames | genesyscloud/resource_genesyscloud_journey_segment.go:266-268 | the inner loop over one page's entities extends the id -> name map as if those entities had been listed after the earlier ones |
| RoutingQueue.GetRoutingQueueMembers | genesyscloud/resource_genesyscloud_routing_queue.go:918-934 | requests pages 1, 2, ... up to the first empty, nil or missing page; returns every earlier page's members, concatenated in order; the first failing page gives "Failed to query users for queue ..." and no members |
| RoutingQueue.ListingOfThreeFullPages | genesyscloud/resource_genesyscloud_routing_queue.go:918-934 | three full pages of 100 and an empty fourth page give all 300 members after exactly four requests |
| RoutingQueue.UserIds | genesyscloud/resource_genesyscloud_routing_queue.go:838-842 | the id list has one entry per member, in member order |
| RoutingQueue.RingNumsKeys | genesyscloud/resource_genesyscloud_routing_queue.go:821-825 | the ring-number map has an entry for exactly the listed users |
| RoutingQueue.SliceDifferenceMembers | genesyscloud/resource_genesyscloud_routing_queue.go:844-858 | the difference holds exactly the elements of the first list that are not in the second |
| RoutingQueue.ChunksSpec | genesyscloud/resource_genesyscloud_routing_queue.go:882-905 | concatenating the batches gives back the input in order; every batch holds 1 to 100 ids and all but the last exactly 100; there are ceil(n/100) batches, so an empty list gives no call |
| RoutingQueue.ChunksOf250 | genesyscloud/resource_genesyscloud_routing_queue.go:882-905 | 250 ids go out as batches of 100, 100 and 50, in original order |
| RoutingQueue.AliasedBatch | genesyscloud/resource_genesyscloud_routing_queue.go:890-893 | with every batch entry pointing at the single range variable, the batch keeps its length but every entry is the slice's last id |
| RoutingQueue.AliasedBatchLosesUsers | genesyscloud/resource_genesyscloud_routing_queue.go:890-893 | under that aliasing, a batch of two distinct users carries only the second one, twice |
| RoutingQueue.UpdateMembersInChunks | genesyscloud/resource_genesyscloud_routing_queue.go:882-905 | the calls issued are exactly one add or remove call per batch of `Chunks`, in order, each carrying its batch's ids |
| RoutingQueue.PatchPlanStep | genesyscloud/resource_genesyscloud_routing_queue.go:861-877 | visiting one more configured user appends that user's ring-number patch, if the rule selects it |
| RoutingQueue.PatchCallsStep | genesyscloud/resource_genesyscloud_routing_queue.go:870-875 | issuing one more planned patch appends its `PatchRoutingQueueMember` call |
| RoutingQueue.PatchPlanMembers | genesyscloud/resource_genesyscloud_routing_queue.go:861-877 | a patch is planned exactly for a visited user whose configured ring number the rule selects, and it carries that number |
| RoutingQueue.RingPatchRules | genesyscloud/resource_genesyscloud_routing_queue.go:861-877 | an existing member is patched iff its ring number changed; a new member is patched iff its ring number is not 1; every patch carries the configured number, so an unchanged member is never patched |
| RoutingQueue.PatchSetIndependentOfOrder | genesyscloud/resource_genesyscloud_routing_queue.go:861 | any two iteration orders of the ring-number map plan the same set of patches |
| RoutingQueue.PatchPlanPrefix | genesyscloud/resource_genesyscloud_routing_queue.go:861-877 | the patches planned for a prefix of the iteration order are a prefix of the whole plan |
| RoutingQueue.FailIndex | genesyscloud/resource_genesyscloud_routing_queue.go:865-876 | the first failing patch: every earlier planned patch succeeds; when no patch fails it is the plan's length |
| RoutingQueue.CollectMembers | genesyscloud/resource_genesyscloud_routing_queue.go:819-842 | the id and ring-number loops build the member list's ids in order, and its user -> ring number map with later entries overriding earlier ones |
| RoutingQueue.FirstFailingPatch | genesyscloud/resource_genesyscloud_routing_queue.go:865-876 | when the earlier planned patches succeed and the next one fails, that one is the last call issued and its "Failed to update ring number for queue ... user ..." error is returned |
| RoutingQueue.NoFailingPatch | genesyscloud/resource_genesyscloud_routing_queue.go:861-879 | when no planned patch fails, all of them are issued and the result is success |
| RoutingQueue.PatchRingNumbers | genesyscloud/resource_genesyscloud_routing_queue.go:861-877 | the ring-number loop issues the planned patches in iteration order, up to and including the first that fails, and returns that failure's error or success |
| RoutingQueue.UpdateQueueMembers | genesyscloud/resource_genesyscloud_routing_queue.go:815-880 | with `members` unset, no call and success; a listing error is returned with no call issued; otherwise the calls are the removal batches (old minus new), then the addition batches (new minus old), then the ring-number patches up to the first failure, and the result is that failure's error or success |
| RoutingQueue.ReconcileBatches | genesyscloud/resource_genesyscloud_routing_queue.go:844-858 | the removal batches hold exactly the old users not configured, and the addition batches exactly the configured users not yet members; users in both lists are in neither |
| RoutingQueue.ReconcileExample | genesyscloud/resource_genesyscloud_routing_queue.go:844-858 | old members {A, B, C} and new members {B, C, D} give one removal batch [A] and one addition batch [D] |
| RoutingQueue.QueueDeletePoll | genesyscloud/resource_genesyscloud_routing_queue.go:544-554 | a poll succeeds iff it got a 404, asks for a retry iff the queue was still found, and otherwise fails terminally with "Error deleting queue ..." |
| RoutingQueue.DeleteQueue | genesyscloud/resource_genesyscloud_routing_queue.go:532-555 | a failed delete call returns "Failed to delete queue ..." with the call's message at once, after no poll |
| RoutingQueue.DeleteQueueSucceedsIff | genesyscloud/resource_genesyscloud_routing_queue.go:538-554 | the delete succeeds iff the delete call succeeded and some poll got a 404 after polls that all still found the queue |
| RoutingQueue.DeleteQueueOtherErrorIsTerminal | genesyscloud/resource_genesyscloud_routing_queue.go:546-551 | a poll error other than 404 ends the delete at once with "Error deleting queue ..." |
| RoutingQueue.BuildSdkAcwSettings | genesyscloud/resource_genesyscloud_routing_queue.go:722-738 | the wrap-up prompt is always carried; the timeout is carried iff the prompt is MANDATORY_TIMEOUT, MANDATORY_FORCED_TIMEOUT or AGENT_REQUESTED and a timeout is set, and then it is that timeout |
| RoutingQueue.ValidateMapCommTypes | genesyscloud/resource_genesyscloud_routing_queue.go:766-779 | no diagnostics iff the value is nil or every key is one of the nine communication types; an error names a key that is not one of them |
| RoutingQueue.BuildSdkMediaSetting | genesyscloud/resource_genesyscloud_routing_queue.go:598-612 | no contract of its own (a field copy); `RoutingQueue.MediaSettingRoundTrip` states its relation to `FlattenMediaSetting` |
| RoutingQueue.FlattenMediaSetting | genesyscloud/resource_genesyscloud_routing_queue.go:614-620 | no contract of its own (a field copy); `RoutingQueue.MediaSettingRoundTrip` states its relation to `BuildSdkMediaSetting` |
| RoutingQueue.MediaSettingRoundTrip | genesyscloud/resource_genesyscloud_routing_queue.go:598-620 | flattening a built media setting gives back its block |
| RoutingQueue.SdkKeyInjective | genesyscloud/resource_genesyscloud_routing_queue.go:557-596 | different media types fill different keys of the SDK's media-settings map |
| RoutingQueue.BuildSdkMediaSettings | genesyscloud/resource_genesyscloud_routing_queue.go:557-596 | a media type gets an entry iff its block list is non-empty, and the entry is built from the first block |
| RoutingQueue.FlattenDefaultScripts | genesyscloud/resource_genesyscloud_routing_queue.go:754-764 | nil iff there are no scripts; otherwise the same keys, each mapped to its script's id |
| RoutingQueue.BuildSdkDefaultScriptsMap | genesyscloud/resource_genesyscloud_routing_queue.go:740-752 | nil iff no script ids are configured; otherwise the same keys, each mapped to a script carrying that key's id |
| RoutingQueue.DefaultScriptsRoundTrip | genesyscloud/resource_genesyscloud_routing_queue.go:740-764 | an empty configuration builds nil; flattening the scripts and building them again gives back the same scripts |
| JourneyActionMap.CountedEnd | genesyscloud/resource_genesyscloud_journey_action_map.go:346-363 | the listing stops at the first page that is beyond the page count in force, or that fails or is empty; every earlier page was within the count, found and not empty |
| JourneyActionMap.GetAllJourneyActionMaps | genesyscloud/resource_genesyscloud_journey_action_map.go:342-366 | starting at page 1 with a page count of 1 and taking each page's reported count, the loop makes `Requests` requests and returns the id -> name map of the pages before the stop, or "Failed to get page of journey action maps: ..." |
| JourneyActionMap.CountedStep | genesyscloud/resource_genesyscloud_journey_action_map.go:354-362 | past a requested page that neither fails nor is empty, the listing goes on to the next page under the count this page reports |
| JourneyActionMap.ListingRespectsPageCount | genesyscloud/resource_genesyscloud_journey_action_map.go:346-347 | no page beyond the page count in force is ever requested |
| JourneyActionMap.ListingFailsIff | genesyscloud/resource_genesyscloud_journey_action_map.go:349-352 | the listing fails iff one of the pages it requested failed |
| JourneyActionMap.ListingValue | genesyscloud/resource_genesyscloud_journey_action_map.go:342-366 | a successful listing is the id -> name map of the entities on the pages before the stop |
| JourneyActionMap.ListingKeys | genesyscloud/resource_genesyscloud_journey_action_map.go:358-360 | a successful listing maps exactly the ids listed before the stop, each to the display name of its last listing |
| JourneyActionMap.ReportedCountOfOneStops | genesyscloud/resource_genesyscloud_journey_action_map.go:346-363 | a first page that reports a count of 1 ends the listing after one request, even when later pages are non-empty |
| JourneyActionMap.ReadOutcome | genesyscloud/resource_genesyscloud_journey_action_map.go:413-427 | a read 404 asks for a retry, any other read error is terminal, both with "failed to read journey action map ..."; a found map gives the consistency check's verdict |
| JourneyActionMap.ReadJourneyActionMap | genesyscloud/resource_genesyscloud_journey_action_map.go:409-427 | the read makes between one attempt and all that fit in the deadline; every attempt before the last one it makes got a 404 or found the map with a retryable verdict; the result is the last attempt's outcome |
| JourneyActionMap.ReadSucceedsIff | genesyscloud/resource_genesyscloud_journey_action_map.go:413-427 | the read succeeds iff some read finds the map and the check accepts it, after attempts that were all 404s or retryable verdicts |
| JourneyActionMap.ReadNotFoundUntilDeadline | genesyscloud/resource_genesyscloud_journey_action_map.go:415-418 | a map that keeps answering 404 is read until the deadline, and the read fails with the last 404's message |
| JourneyActionMap.CreateJourneyActionMap | genesyscloud/resource_genesyscloud_journey_action_map.go:390-406 | a failed create returns "failed to create journey action map ..." and leaves the id alone; otherwise the id is the created map's id, and the result is that of the read |
| JourneyActionMap.UpdateOutcome | genesyscloud/resource_genesyscloud_journey_action_map.go:436-450 | an attempt asks for a retry iff its version read or its patch failed with a version mismatch; it succeeds iff the read succeeded and the patch did not fail |
| JourneyActionMap.PatchWithRetries | genesyscloud/resource_genesyscloud_journey_action_map.go:436-450 | each attempt reads the current version, stamps it on the patch and sends the patch; the result and the patches sent are those of the attempts the retry loop makes |
| JourneyActionMap.UpdateJourneyActionMap | genesyscloud/resource_genesyscloud_journey_action_map.go:430-457 | a failed patch loop returns its error; otherwise the result is that of reading the updated map |
| JourneyActionMap.SentPatchesCarryReadVersion | genesyscloud/resource_genesyscloud_journey_action_map.go:440-443 | every patch sent differs from the configured one only in its version, and that version was read in one of the attempts |
| JourneyActionMap.SentPatchesOnePerRead | genesyscloud/resource_genesyscloud_journey_action_map.go:438-443 | when every read succeeds, one patch is sent per attempt, the j-th carrying the version the j-th read returned |
| JourneyActionMap.UpdateRetriesOnlyOnMismatch | genesyscloud/resource_genesyscloud_journey_action_map.go:436-450 | every attempt before the one the update stops at failed with a version mismatch; a successful update ended with a successful read and patch |
| JourneyActionMap.DeletePoll | genesyscloud/resource_genesyscloud_journey_action_map.go:470-482 | a poll succeeds iff it got a 404, asks for a retry iff the map was still found, and otherwise fails terminally with "error deleting journey action map ..." |
| JourneyActionMap.DeleteJourneyActionMap | genesyscloud/resource_genesyscloud_journey_action_map.go:459-483 | a failed delete call returns "Failed to delete journey action map with display name ..." at once, without polling |
| JourneyActionMap.DeleteSucceedsIff | genesyscloud/resource_genesyscloud_journey_action_map.go:466-482 | the delete succeeds iff the delete call succeeded and a poll got a 404 after polls that all still found the map |
| JourneyActionMap.DeleteOtherErrorIsTerminal | genesyscloud/resource_genesyscloud_journey_action_map.go:472-478 | a poll error other than 404 ends the delete with "error deleting journey action map ..." |
| JourneyActionMap.RefAt | genesyscloud/resource_genesyscloud_journey_action_map.go:693-702 | a reference is nil iff its id entry is absent or empty, and otherwise carries exactly that id |
| JourneyActionMap.GetActionMapActionTemplate | genesyscloud/resource_genesyscloud_journey_action_map.go:693-702 | the action-template reference is nil iff `action_template_id` is absent or empty, and otherwise carries exactly that id |
| JourneyActionMap.GetArchitectFlow | genesyscloud/resource_genesyscloud_journey_action_map.go:766-775 | the architect-flow reference is nil iff `architect_flow_id` is absent or empty, and otherwise carries exactly that id |
| JourneyActionMap.ActionTemplateRoundTrip | genesyscloud/resource_genesyscloud_journey_action_map.go:649-654 | the template reference survives flatten-then-build; build-then-flatten keeps exactly the non-empty id entry |
| JourneyActionMap.FlattenWebMessagingOfferFields | genesyscloud/resource_genesyscloud_journey_action_map.go:744-754 | nil iff there is neither an offer text nor an architect-flow id; otherwise exactly the keys whose source is present, with their values |
| JourneyActionMap.BuildSdkWebMessagingOfferFields | genesyscloud/resource_genesyscloud_journey_action_map.go:756-764 | the offer text is nil iff `offer_text` is absent or empty, and otherwise is that text; the architect flow is nil iff `architect_flow_id` is absent or empty, and otherwise carries that id |
| JourneyActionMap.WebMessagingOfferRoundTrip | genesyscloud/resource_genesyscloud_journey_action_map.go:744-764 | build-then-flatten keeps exactly the non-empty entries of the block, and gives nil when there are none; flatten-then-build gives back an offer in normal form |
| JourneyActionMap.GetActionMapScheduleGroupPair | genesyscloud/resource_genesyscloud_journey_action_map.go:857-870 | the primary group always carries the configured id; the emergency group is nil iff its id is absent or empty, and otherwise carries that id |
| JourneyActionMap.BuildSdkPatchActionMapScheduleGroups | genesyscloud/resource_genesyscloud_journey_action_map.go:844-855 | nil iff the block is nil; otherwise the schedule-group pair of the block |
| JourneyActionMap.FlattenActionMapScheduleGroups | genesyscloud/resource_genesyscloud_journey_action_map.go:826-833 | the state block always holds the primary id; it holds the emergency id iff there is an emergency group with an id, and no other key |
| JourneyActionMap.ScheduleGroupsRoundTrip | genesyscloud/resource_genesyscloud_journey_action_map.go:826-870 | schedule groups survive flatten-then-build; build-then-flatten keeps the primary id and the non-empty emergency id, and nothing else |
| JourneySegment.GetAllJourneySegments | genesyscloud/resource_genesyscloud_journey_segment.go:250-271 | requests pages 1, 2, ... until a page fails or is empty, ignoring the page count; returns the id -> name map of every earlier page, or "Failed to get page of journey segments: ..." |
| JourneySegment.SegmentListingFailsIff | genesyscloud/resource_genesyscloud_journey_segment.go:256-259 | the listing fails iff a page up to the first empty one failed |
| JourneySegment.SegmentListingValue | genesyscloud/resource_genesyscloud_journey_segment.go:250-271 | a successful listing is the id -> name map of the entities on the pages before the first empty one |
| JourneySegment.SegmentListingKeys | genesyscloud/resource_genesyscloud_journey_segment.go:266-268 | a successful listing maps exactly the ids listed before the first empty page, each to the display name of its last listing |
| JourneySegment.ReportedCountIgnored | genesyscloud/resource_genesyscloud_journey_segment.go:254-270 | two non-empty pages that each report a page count of 1 are both read, and both their entities are returned |
| JourneySegment.ReadOutcome | genesyscloud/resource_genesyscloud_journey_segment.go:320-335 | a read 404 asks for a retry, any other read error is terminal; an inactive segment is success without the check; an active segment gives the check's verdict |
| JourneySegment.ReadJourneySegment | genesyscloud/resource_genesyscloud_journey_segment.go:314-339 | the result is that of the retry loop over the reads; the id is cleared iff the read the loop stops at finds the segment inactive, and is otherwise unchanged |
| JourneySegment.InactiveReadSucceeds | genesyscloud/resource_genesyscloud_journey_segment.go:328-331 | an inactive segment ends the read successfully, whatever the check would say |
| JourneySegment.ReadOtherErrorIsTerminal | genesyscloud/resource_genesyscloud_journey_segment.go:320-326 | a read error other than 404 ends the read at once with that error |
| JourneySegment.CreateJourneySegment | genesyscloud/resource_genesyscloud_journey_segment.go:296-312 | a failed create returns "Failed to create journey segment ..." and leaves the id unset; otherwise the id is the created segment's id when the read runs, and the result is that of the read |
| JourneySegment.DeleteJourneySegment | genesyscloud/resource_genesyscloud_journey_segment.go:355-385 | a failed delete call returns "Failed to delete journey segment with display name ..." at once, without polling |
| JourneySegment.DeletePoll | genesyscloud/resource_genesyscloud_journey_segment.go:366-384 | a poll succeeds iff it got a 404 or found the segment inactive; it asks for a retry iff it found the segment active; any other error is terminal with "error deleting journey segment ..." |
| JourneySegment.DeleteSucceedsIff | genesyscloud/resource_genesyscloud_journey_segment.go:366-384 | the delete succeeds iff the delete call succeeded and a poll got a 404 or an inactive segment, after polls that all found it still active |
| JourneySegment.DeleteOtherErrorIsTerminal | genesyscloud/resource_genesyscloud_journey_segment.go:367-375 | a poll error other than 404, after polls that found the segment active, ends the delete at once with "error deleting journey segment ..." |
| JourneySegment.FlattenCriteria | genesyscloud/resource_genesyscloud_journey_segment.go:569-584 | each key is emitted iff its source field is non-nil, with that field's value (the list as a set) |
| JourneySegment.FlattenEntityTypeCriteria | genesyscloud/resource_genesyscloud_journey_segment.go:487-505 | as for `flattenCriteria`, and also the entity type |
| JourneySegment.BuildSdkEntityTypeCriteria | genesyscloud/resource_genesyscloud_journey_segment.go:507-521 | every field of the context criterion is sent; `JourneySegment.CriteriaRoundTrip` states the values |
| JourneySegment.BuildSdkCriteria | genesyscloud/resource_genesyscloud_journey_segment.go:586-598 | every field of the criterion is sent; `JourneySegment.CriteriaRoundTrip` states the values |
| JourneySegment.CriteriaRoundTrip | genesyscloud/resource_genesyscloud_journey_segment.go:507-598 | a built criterion flattens back into exactly its block, with the entity type for context criteria |
| JourneySegment.BuildSdkExternalSegment | genesyscloud/resource_genesyscloud_journey_segment.go:614-622 | the create payload carries the name and the source, and never an id |
| JourneySegment.BuildSdkPatchExternalSegment | genesyscloud/resource_genesyscloud_journey_segment.go:624-629 | the patch payload carries the name |
| JourneySegment.FlattenExternalSegment | genesyscloud/resource_genesyscloud_journey_segment.go:600-612 | the state block holds `id`, `name` and `source` each iff that field is present, with its value, and no other key |
| JourneySegment.ExternalSegmentRoundTrip | genesyscloud/resource_genesyscloud_journey_segment.go:600-629 | a built external segment flattens back into its block, without an id; flattening emits each key iff its field is present |
| TrunkBaseSettings.FirstMatch | genesyscloud/data_source_genesyscloud_telephony_providers_edges_trunkbasesettings.go:45-51 | the position found is that of a matching entity, with no match before it; when nothing is found, no entity matches |
| TrunkBaseSettings.FirstMatchAppend | genesyscloud/data_source_genesyscloud_telephony_providers_edges_trunkbasesettings.go:33-52 | the first match in two lists scanned one after the other is the first match in the first list, or else the first match in the second, shifted |
| TrunkBaseSettings.ScanEnd | genesyscloud/data_source_genesyscloud_telephony_providers_edges_trunkbasesettings.go:33-52 | the scan stops at the first page that fails, is empty or has a match |
| TrunkBaseSettings.TrunkSearch | genesyscloud/data_source_genesyscloud_telephony_providers_edges_trunkbasesettings.go:33-52 | the page the scan stops at decides the attempt: a failed reply is terminal with "Error requesting trunk base settings ..."; a page with a match succeeds with the first match's id; anything else asks for a retry |
| TrunkBaseSettings.SearchAttempt | genesyscloud/data_source_genesyscloud_telephony_providers_edges_trunkbasesettings.go:33-52 | one attempt returns the search's outcome; the id is set iff a match was found, and then to that entity's id |
| TrunkBaseSettings.DataSourceTrunkBaseSettingsRead | genesyscloud/data_source_genesyscloud_telephony_providers_edges_trunkbasesettings.go:27-54 | the result is that of the retry loop over the search attempts; the id is that of the match found by the attempt the loop stops at, or is unchanged |
| TrunkBaseSettings.SearchSetsIdIffDone | genesyscloud/data_source_genesyscloud_telephony_providers_edges_trunkbasesettings.go:37-49 | the search sets the id iff it succeeds; its only retryable outcome is "No trunkBaseSettings found with name ..." |
| TrunkBaseSettings.NoMatchBefore | genesyscloud/data_source_genesyscloud_telephony_providers_edges_trunkbasesettings.go:45-51 | pages found without a match contribute no match to the pages scanned so far |
| TrunkBaseSettings.PresentMatchIsFound | genesyscloud/data_source_genesyscloud_telephony_providers_edges_trunkbasesettings.go:33-52 | a matching entity on page m is found, and the id set, when every page before m was read and non-empty |
| TrunkBaseSettings.FirstMatchAcrossPages | genesyscloud/data_source_genesyscloud_telephony_providers_edges_trunkbasesettings.go:33-52 | the id set is that of the first matching entity across all pages read, in page order and then list order |
| TrunkBaseSettings.NilNeverMatches | genesyscloud/data_source_genesyscloud_telephony_providers_edges_trunkbasesettings.go:46-47 | entities with a nil name or a nil state never match |
| TrunkBaseSettings.FullPageWithoutMatchAdvances | genesyscloud/data_source_genesyscloud_telephony_providers_edges_trunkbasesettings.go:45-52 | a non-empty page without a match does not end the scan: the next page is read |

## Left out

- Schema tables and field-by-field copying: the resources' schema declarations, and the flatten and build helpers of the other nested blocks (routing rules, bullseye, conditions, activation, open actions, request mappings, contexts, journeys). They only restate configuration.
- HTTP, URL and header assembly and JSON handling: `sdkGetRoutingQueueMembers` (genesyscloud/resource_genesyscloud_routing_queue.go:936-976), `interfaceToJson`, `getBody`. Their replies are inputs.
- Floating-point fields: the service-level percentage of media settings, seconds fields and probabilities. `MediaSettingBlock` omits the percentage.
- Concurrency and the pooled-client wrappers (`createWithPooledClient` and the like).
- Wall-clock deadlines and sleeps. A deadline is the number of attempts that fit in it.
- Retry.WithRetries: does not model the timeout wording `resource.RetryContext` wraps around the last retryable error. The error is reported as that error's reason.
- Retry.WithRetries: does not model `retryWhen` or `withRetriesForRead` separately, because their source is not part of this model. The update's version-mismatch test is the retryable outcome in the same loop.
- JourneyActionMap.ReadNotFoundUntilDeadline: rests on `withRetriesForRead` retrying like `withRetries`. If it treats a read that is still 404 at the deadline differently, for example by dropping the resource from state, the lemma does not describe that.
- The consistency checker (`consistency_checker.NewConsistencyCheck`, `CheckState`) and `flattenActionMap` / `flattenJourneySegment`. The check's verdict after each read is an input.
- JourneyActionMap.CreateJourneyActionMap: the error text keeps the SDK error's message but not the input and response dumps that genesyscloud/resource_genesyscloud_journey_action_map.go:399 appends.
- JourneyActionMap.UpdateOutcome: the patch error text keeps the SDK error's message but not the input and response dumps that genesyscloud/resource_genesyscloud_journey_action_map.go:447 appends. The same holds for `JourneyActionMap.PatchWithRetries`.
- JourneyActionMap.CreateJourneyActionMap: the create payload (`buildSdkActionMap`) is not modelled. Only the created map's id and the error path are.
- JourneySegment.GetAllJourneySegments: ignores the reported page count (`JourneySegment.ReportedCountIgnored`), so it stops only at a failed or empty page. That it ends rests on the assumption that the API returns an empty page past the last one.
- RoutingQueue.UpdateMembersInChunks: `PostRoutingQueueMembers` errors are ignored, as in the source, so the batch calls carry no result.
- RoutingQueue.UpdateMembersInChunks: models each batch as carrying every id once, which is what the source intends. The as-written aliasing is under "Findings".
- RoutingQueue.UpdateQueueMembers: Go leaves the iteration order of the configured ring-number map unspecified. It is an input (`ringOrder`, any enumeration of the keys). `RoutingQueue.PatchSetIndependentOfOrder` shows the patch set does not depend on it. Which patches come after the first failure does depend on it.
- RoutingQueue.UpdateQueueMembers: `members` is the configured set's element list. An empty list stands for "not set", as `GetOk` reports it.
- JourneySegment.CriteriaRoundTrip: `buildSdkStringList` is not part of this model. The built criterion is taken to always carry the configured values.
- `updateJourneySegment`, `buildSdkJourneySegment`, `buildSdkPatchSegment`, `createQueue`, `readQueue` and `updateQueue` are not part of this model.
- genesyscloud/data_source_genesyscloud_quality_forms_survey_test.go drives a live provider against the real API and has no local logic.

## Findings

| source | as written | input that shows it | evidently intended | confidence | as-written member | corrected member |
|---|---|---|---|---|---|---|
| genesyscloud/resource_genesyscloud_routing_queue.go:890-893 | each batch entry stores `&id`, the address of the range variable; before Go 1.22 that is one variable shared by the whole loop | a batch of user ids [A, B] is sent as [B, B], so A is never added or removed | one entry per member id, each with its own id | not executed; holds only when the module builds with a Go version before 1.22 | RoutingQueue.AliasedBatchLosesUsers | RoutingQueue.UpdateMembersInChunks |
