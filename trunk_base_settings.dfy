/** The trunk-base-settings data source: a search by name that pages through
    the listing inside a retry loop and takes the first entity whose name
    matches and whose state is not "deleted". */
module TrunkBaseSettings {
  import opened Api
  import opened Retry
  import opened Paging

  /** A trunk base setting as the listing returns it; name and state may be
      nil. */
  datatype TrunkBaseSetting = TrunkBaseSetting(id: string, name: Option<string>, state: Option<string>)

  /** The match test: a name equal to the requested one and a state that is
      present and not "deleted". */
  predicate Matches(t: TrunkBaseSetting, name: string) {
    t.name.Some? && t.name.value == name && t.state.Some? && t.state.value != "deleted"
  }

  /** The position of the first matching entity of a list, if any. */
  function FirstMatch(es: seq<TrunkBaseSetting>, name: string): (r: Option<nat>)
    ensures r.Some? ==> r.value < |es| && Matches(es[r.value], name)
    ensures r.Some? ==> forall j :: 0 <= j < r.value ==> !Matches(es[j], name)
    ensures r.None? ==> forall j :: 0 <= j < |es| ==> !Matches(es[j], name)
  {
    if es == [] then None
    else if Matches(es[0], name) then Some(0)
    else match FirstMatch(es[1..], name)
      case None => None
      case Some(k) => Some(k + 1)
  }

  /** The first match of a concatenation is the first match of its first
      part, or else the first match of its second part, shifted. */
  lemma {:induction false} FirstMatchAppend(a: seq<TrunkBaseSetting>, b: seq<TrunkBaseSetting>, name: string)
    ensures FirstMatch(a + b, name) ==
            if FirstMatch(a, name).Some? then FirstMatch(a, name)
            else if FirstMatch(b, name).Some? then Some(|a| + FirstMatch(b, name).value)
            else None
    decreases |a|
  {
    if a == [] {
      assert a + b == b;
    } else {
      FirstMatchAppend(a[1..], b, name);
      assert (a + b)[0] == a[0];
      assert (a + b)[1..] == a[1..] + b;
    }
  }

  /** A reply at which the search stops: an error, an empty page, or a page
      with a match. */
  predicate StopsScan(r: Response<Page<TrunkBaseSetting>>, name: string) {
    r.Failed? || Items(r.entity) == [] || FirstMatch(Items(r.entity), name).Some?
  }

  /** The page at which a search started at `from` stops. */
  function ScanEnd(pages: seq<Response<Page<TrunkBaseSetting>>>, name: string, from: nat): (n: nat)
    requires 1 <= from <= |pages| + 1
    ensures from <= n <= |pages| + 1
    ensures StopsScan(Fetch(pages, n), name)
    ensures forall m :: from <= m < n ==> !StopsScan(Fetch(pages, m), name)
    decreases |pages| + 1 - from
  {
    if StopsScan(Fetch(pages, from), name) then from else ScanEnd(pages, name, from + 1)
  }

  /** What one search attempt decides, and the id it sets on a match. */
  datatype Search = Search(outcome: Outcome, id: Option<string>)

  /** One search attempt over the listing `pages`: a request error is
      terminal, an empty page without a match so far asks for a retry, and
      the first match ends the search with its id. */
  function TrunkSearch(name: string, pages: seq<Response<Page<TrunkBaseSetting>>>): (r: Search)
    ensures var p := Fetch(pages, ScanEnd(pages, name, 1));
            && (r.outcome.Terminal? <==> p.Failed?)
            && (r.outcome == Done <==> p.Found? && FirstMatch(Items(p.entity), name).Some?)
            && (r.outcome == Done ==> r.id == Some(Items(p.entity)[FirstMatch(Items(p.entity), name).value].id))
    ensures r.outcome.Terminal? ==>
              r.outcome.reason == "Error requesting trunk base settings " + name + ": " +
                                  Fetch(pages, ScanEnd(pages, name, 1)).error.message
  {
    var n := ScanEnd(pages, name, 1);
    match Fetch(pages, n)
    case Failed(e) => Search(Terminal("Error requesting trunk base settings " + name + ": " + e.message), None)
    case Found(p) =>
      match FirstMatch(Items(p), name)
      case Some(k) => Search(Done, Some(Items(p)[k].id))
      case None => Search(Retryable("No trunkBaseSettings found with name " + name), None)
  }

  /** The retry closure of `dataSourceTrunkBaseSettingsRead`: pages 1, 2, ...
      scanned in order, each page's entities in order, setting the id on the
      first match. */
  method SearchAttempt(d: ResourceData, name: string, pages: seq<Response<Page<TrunkBaseSetting>>>)
    returns (o: Outcome)
    modifies d
    ensures o == TrunkSearch(name, pages).outcome
    ensures d.id == if TrunkSearch(name, pages).id.Some? then TrunkSearch(name, pages).id.value else old(d.id)
  {
    var pageNum := 1;
    while true
      invariant 1 <= pageNum <= ScanEnd(pages, name, 1)
      invariant ScanEnd(pages, name, pageNum) == ScanEnd(pages, name, 1)
      invariant d.id == old(d.id)
      decreases |pages| + 1 - pageNum
    {
      var trunkBaseSettings := Fetch(pages, pageNum);
      if trunkBaseSettings.Failed? {
        return Terminal("Error requesting trunk base settings " + name + ": " + trunkBaseSettings.error.message);
      }
      var entities := Items(trunkBaseSettings.entity);
      if entities == [] {
        return Retryable("No trunkBaseSettings found with name " + name);
      }
      for i := 0 to |entities|
        invariant forall j :: 0 <= j < i ==> !Matches(entities[j], name)
        invariant d.id == old(d.id)
      {
        var trunkBaseSetting := entities[i];
        if trunkBaseSetting.name.Some? && trunkBaseSetting.name.value == name &&
           trunkBaseSetting.state.Some? && trunkBaseSetting.state.value != "deleted" {
          assert FirstMatch(entities, name) == Some(i);
          d.SetId(trunkBaseSetting.id);
          return Done;
        }
      }
      pageNum := pageNum + 1;
    }
  }

  function SearchOutcomes(name: string, attempts: seq<seq<Response<Page<TrunkBaseSetting>>>>): seq<Outcome> {
    seq(|attempts|, k requires 0 <= k < |attempts| => TrunkSearch(name, attempts[k]).outcome)
  }

  /** `dataSourceTrunkBaseSettingsRead`: the search retried within its
      15-second bound, modelled as the listings the attempts that fit in it
      would see. The id is set by the attempt that finds a match, and is
      otherwise left alone. */
  method DataSourceTrunkBaseSettingsRead(d: ResourceData, name: string, attempts: seq<seq<Response<Page<TrunkBaseSetting>>>>)
    returns (diags: Diagnostics)
    requires |attempts| > 0
    modifies d
    ensures var r := WithRetries(SearchOutcomes(name, attempts));
            var found := TrunkSearch(name, attempts[r.attempts - 1]).id;
            diags == r.diags && d.id == if found.Some? then found.value else old(d.id)
  {
    ghost var os := SearchOutcomes(name, attempts);
    var i := 0;
    while true
      invariant 0 <= i < |attempts|
      invariant d.id == old(d.id)
      invariant forall j :: 0 <= j < i ==> os[j].Retryable?
      decreases |attempts| - i
    {
      var o := SearchAttempt(d, name, attempts[i]);
      assert o == os[i];
      if !o.Retryable? || i == |attempts| - 1 {
        StopsAt(os, i);
        return Settle(o);
      }
      assert TrunkSearch(name, attempts[i]).id.None?;
      i := i + 1;
    }
  }

  /** The search sets the id exactly when it succeeds. */
  lemma SearchSetsIdIffDone(name: string, pages: seq<Response<Page<TrunkBaseSetting>>>)
    ensures TrunkSearch(name, pages).id.Some? <==> TrunkSearch(name, pages).outcome == Done
    ensures TrunkSearch(name, pages).outcome.Retryable? ==>
              TrunkSearch(name, pages).outcome.reason == "No trunkBaseSettings found with name " + name
  {
  }

  /** A matching entity on page m is found when every page before it was
      read and non-empty: the search does not give up early. */
  lemma PresentMatchIsFound(name: string, pages: seq<Response<Page<TrunkBaseSetting>>>, m: nat, k: nat)
    requires 1 <= m <= |pages| && pages[m - 1].Found?
    requires k < |Items(pages[m - 1].entity)| && Matches(Items(pages[m - 1].entity)[k], name)
    requires forall j :: 0 <= j < m - 1 ==> pages[j].Found? && Items(pages[j].entity) != []
    ensures TrunkSearch(name, pages).outcome == Done && TrunkSearch(name, pages).id.Some?
  {
    var n := ScanEnd(pages, name, 1);
    assert Fetch(pages, m) == pages[m - 1];
    assert StopsScan(Fetch(pages, m), name);
    assert n <= m;
    assert Fetch(pages, n) == pages[n - 1];
  }

  /** When the pages before page k + 1 were all found without a match, their
      entities have no match. */
  lemma {:induction false} NoMatchBefore(pages: seq<Response<Page<TrunkBaseSetting>>>, name: string, k: nat)
    requires k <= |pages|
    requires forall m :: 0 <= m < k ==> pages[m].Found? && FirstMatch(Items(pages[m].entity), name).None?
    ensures FirstMatch(Entities(pages[..k]), name).None?
  {
    if k > 0 {
      NoMatchBefore(pages, name, k - 1);
      var before := Entities(pages[..k - 1]);
      var page := Items(pages[k - 1].entity);
      assert FirstMatch(page, name).None?;
      EntitiesStep(pages, k - 1);
      assert Entities(pages[..k]) == before + page;
      FirstMatchAppend(before, page, name);
    }
  }

  /** The id the search sets is that of the first matching entity across
      all pages read, in page order and then in list order. */
  lemma FirstMatchAcrossPages(name: string, pages: seq<Response<Page<TrunkBaseSetting>>>)
    requires TrunkSearch(name, pages).id.Some?
    ensures var all := Entities(pages[..ScanEnd(pages, name, 1)]);
            FirstMatch(all, name).Some? && TrunkSearch(name, pages).id == Some(all[FirstMatch(all, name).value].id)
  {
    var n := ScanEnd(pages, name, 1);
    forall m | 0 <= m < n - 1
      ensures pages[m].Found? && FirstMatch(Items(pages[m].entity), name).None?
    {
      assert Fetch(pages, m + 1) == pages[m];
      assert !StopsScan(Fetch(pages, m + 1), name);
    }
    NoMatchBefore(pages, name, n - 1);
    EntitiesStep(pages, n - 1);
    var before := Entities(pages[..n - 1]);
    var page := Items(pages[n - 1].entity);
    FirstMatchAppend(before, page, name);
    assert (before + page)[|before| + FirstMatch(page, name).value] == page[FirstMatch(page, name).value];
  }

  /** Entities with a nil name or a nil state never match. */
  lemma NilNeverMatches(es: seq<TrunkBaseSetting>, name: string)
    requires forall j :: 0 <= j < |es| ==> es[j].name.None? || es[j].state.None?
    ensures FirstMatch(es, name).None?
  {
  }

  /** A full page without a match does not end the search: the next page is
      read. */
  lemma FullPageWithoutMatchAdvances(name: string, pages: seq<Response<Page<TrunkBaseSetting>>>, m: nat)
    requires 1 <= m <= |pages|
    requires pages[m - 1].Found? && Items(pages[m - 1].entity) != []
    requires FirstMatch(Items(pages[m - 1].entity), name).None?
    ensures ScanEnd(pages, name, m) == ScanEnd(pages, name, m + 1)
  {
  }
}
