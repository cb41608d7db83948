/** Paged listings. The remote listing is a sequence of replies: the reply to
    page n (numbered from 1, as the API numbers them) is `pages[n - 1]`. A
    page past the end of the sequence is taken to come back empty: this is an
    assumption about the API, which the code relies on but does not check. */
module Paging {
  import opened Api

  /** One page of an entity listing: `entities` is None when the listing's
      entity list is nil; `pageCount` is the server's reported page count. */
  datatype Page<T> = Page(entities: Option<seq<T>>, pageCount: int)

  /** An entity as the exporters see it: its id and display name. */
  datatype Named = Named(id: string, displayName: string)

  function Items<T>(p: Page<T>): seq<T> {
    match p.entities
    case None => []
    case Some(es) => es
  }

  /** The reply to the request for page `pageNum`. */
  function Fetch<T>(pages: seq<Response<Page<T>>>, pageNum: int): Response<Page<T>> {
    if 1 <= pageNum <= |pages| then pages[pageNum - 1] else Found(Page(None, 0))
  }

  /** A reply that ends a listing: an error, or a page with no entities. */
  predicate Ends<T>(r: Response<Page<T>>) {
    r.Failed? || Items(r.entity) == []
  }

  /** The entities of the pages that were found, in page order. */
  function Entities<T>(pages: seq<Response<Page<T>>>): seq<T> {
    if pages == [] then []
    else
      Entities(pages[..|pages| - 1]) +
      match pages[|pages| - 1]
      case Found(p) => Items(p)
      case Failed(_) => []
  }

  /** The number of the page at which a listing that starts at page `from`
      and stops at the first empty or failed page stops. */
  function EndPage<T>(pages: seq<Response<Page<T>>>, from: nat): (n: nat)
    requires 1 <= from <= |pages| + 1
    ensures from <= n <= |pages| + 1
    ensures Ends(Fetch(pages, n))
    ensures forall m :: from <= m < n ==> !Ends(Fetch(pages, m))
    decreases |pages| + 1 - from
  {
    if Ends(Fetch(pages, from)) then from else EndPage(pages, from + 1)
  }

  /** Adding one more reply to a prefix adds that page's entities. */
  lemma EntitiesStep<T>(pages: seq<Response<Page<T>>>, n: nat)
    requires n < |pages| && pages[n].Found?
    ensures Entities(pages[..n + 1]) == Entities(pages[..n]) + Items(pages[n].entity)
  {
    assert pages[..n + 1][..n] == pages[..n];
  }

  /** Map from id to display name, filled in list order so that a later
      entity with the same id overrides an earlier one. */
  function IdNames(es: seq<Named>): map<string, string> {
    if es == [] then map[]
    else IdNames(es[..|es| - 1])[es[|es| - 1].id := es[|es| - 1].displayName]
  }

  /** The id-to-name map has exactly the listed ids as keys, and each id
      maps to the display name of its last occurrence. */
  lemma {:induction false} IdNamesSpec(es: seq<Named>)
    ensures forall id :: id in IdNames(es) <==> exists i :: 0 <= i < |es| && es[i].id == id
    ensures forall i :: 0 <= i < |es| && (forall l :: i < l < |es| ==> es[l].id != es[i].id) ==>
              IdNames(es)[es[i].id] == es[i].displayName
    decreases |es|
  {
    if es != [] {
      var init := es[..|es| - 1];
      IdNamesSpec(init);
      forall id
        ensures id in IdNames(es) <==> exists i :: 0 <= i < |es| && es[i].id == id
      {
        if id in IdNames(init) {
          var i :| 0 <= i < |init| && init[i].id == id;
          assert es[i].id == id;
        }
        if exists i :: 0 <= i < |es| && es[i].id == id {
          var i :| 0 <= i < |es| && es[i].id == id;
          if i < |es| - 1 {
            assert init[i].id == id;
          }
        }
      }
      forall i | 0 <= i < |es| && (forall l :: i < l < |es| ==> es[l].id != es[i].id)
        ensures IdNames(es)[es[i].id] == es[i].displayName
      {
        if i < |es| - 1 {
          assert init[i] == es[i];
          assert forall l :: i < l < |init| ==> init[l].id != init[i].id by {
            forall l | i < l < |init| ensures init[l].id != init[i].id {
              assert init[l] == es[l];
            }
          }
        }
      }
    }
  }

  /** Adding one entity to the end of the list sets its id to its name. */
  lemma IdNamesStep(es: seq<Named>, e: Named)
    ensures IdNames(es + [e]) == IdNames(es)[e.id := e.displayName]
  {
    assert (es + [e])[..|es|] == es;
  }

  /** The inner loop of the exporters: records each entity of a page, in
      order, in the id -> display name map built so far. */
  method AddIdNames(resources: map<string, string>, ghost listed: seq<Named>, entities: seq<Named>)
    returns (r: map<string, string>)
    requires resources == IdNames(listed)
    ensures r == IdNames(listed + entities)
  {
    r := resources;
    assert listed + entities[..0] == listed;
    for i := 0 to |entities|
      invariant r == IdNames(listed + entities[..i])
    {
      IdNamesStep(listed + entities[..i], entities[i]);
      assert listed + entities[..i + 1] == (listed + entities[..i]) + [entities[i]];
      r := r[entities[i].id := entities[i].displayName];
    }
    assert entities[..|entities|] == entities;
  }
}
