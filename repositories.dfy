/**
 * In-memory stand-ins for the two Spring Data repositories the services use.
 * Only the queries the services call are modelled.
 */
module Repositories {
  import opened Wrappers
  import opened Entities

  /** The set of links of a list of items. */
  function LinksOf(items: seq<Item>): (links: set<string>)
    ensures forall k :: 0 <= k < |items| ==> items[k].link in links
    ensures forall l :: l in links ==> exists k :: 0 <= k < |items| && items[k].link == l
  {
    if items == [] then {} else LinksOf(items[..|items| - 1]) + {items[|items| - 1].link}
  }

  lemma LinksOfAppend(items: seq<Item>, more: seq<Item>)
    ensures LinksOf(items + more) == LinksOf(items) + LinksOf(more)
  {
    var all := items + more;
    forall l | l in LinksOf(all) ensures l in LinksOf(items) + LinksOf(more) {
      var k :| 0 <= k < |all| && all[k].link == l;
      if k >= |items| { assert more[k - |items|].link == l; }
    }
    forall l | l in LinksOf(items) + LinksOf(more) ensures l in LinksOf(all) {
      if l in LinksOf(items) {
        var k :| 0 <= k < |items| && items[k].link == l;
        assert all[k].link == l;
      } else {
        var k :| 0 <= k < |more| && more[k].link == l;
        assert all[|items| + k].link == l;
      }
    }
  }

  /** No two items share a link. */
  predicate DistinctLinks(items: seq<Item>) {
    forall i, j :: 0 <= i < j < |items| ==> items[i].link != items[j].link
  }

  /** The `sources` table. */
  class SourceRepository {
    var sources: map<SourceId, Source>
    /** The next identity the database will generate. */
    var nextId: SourceId

    ghost predicate Valid()
      reads this
    {
      forall id :: id in sources ==> sources[id].id == id && id < nextId
    }

    constructor ()
      ensures Valid() && sources == map[] && nextId == 0
    {
      sources := map[];
      nextId := 0;
    }

    /** findById */
    method FindById(id: SourceId) returns (r: Option<Source>)
      ensures r == if id in sources then Some(sources[id]) else None
    {
      r := if id in sources then Some(sources[id]) else None;
    }

    /** existsByUrl (a null URL matches no row) */
    predicate HasUrl(url: Option<string>)
      reads this
    {
      exists id :: id in sources && Some(sources[id].url) == url
    }

    /** existsByUrl, the query as the service calls it; HasUrl is the same test as a
        predicate over the store, for use in specifications. */
    method ExistsByUrl(url: Option<string>) returns (b: bool)
      ensures b == HasUrl(url)
    {
      b := exists id :: id in sources && Some(sources[id].url) == url;
    }

    /** save of a new entity: the database assigns the id; @CreationTimestamp and
        @UpdateTimestamp both read the clock. */
    method Insert(source: Source, now: Instant) returns (saved: Source)
      requires Valid()
      modifies this
      ensures Valid()
      ensures saved == source.(id := old(nextId), createdAt := now, updatedAt := now)
      ensures sources == old(sources)[saved.id := saved] && nextId == old(nextId) + 1
    {
      saved := source.(id := nextId, createdAt := now, updatedAt := now);
      sources := sources[nextId := saved];
      nextId := nextId + 1;
    }

    /** save of an entity that exists: the row is overwritten and @UpdateTimestamp reads the clock. */
    method Update(source: Source, now: Instant)
      requires Valid() && source.id in sources
      modifies this
      ensures Valid()
      ensures sources == old(sources)[source.id := source.(updatedAt := now)] && nextId == old(nextId)
    {
      sources := sources[source.id := source.(updatedAt := now)];
    }

    /** existsById */
    method ExistsById(id: SourceId) returns (b: bool)
      ensures b == (id in sources)
    {
      b := id in sources;
    }

    /** deleteById */
    method DeleteById(id: SourceId)
      requires Valid()
      modifies this
      ensures Valid()
      ensures sources == old(sources) - {id} && nextId == old(nextId)
    {
      sources := sources - {id};
    }

    /** findAll: every row once, in an order the database chooses. */
    method FindAll() returns (all: seq<Source>)
      requires Valid()
      ensures |all| == |sources|
      ensures forall i :: 0 <= i < |all| ==> all[i].id in sources && sources[all[i].id] == all[i]
      ensures forall id :: id in sources ==> exists i :: 0 <= i < |all| && all[i].id == id
      ensures forall i, j :: 0 <= i < j < |all| ==> all[i].id != all[j].id
    {
      all := [];
      var remaining := sources.Keys;
      while remaining != {}
        invariant remaining <= sources.Keys
        invariant |all| + |remaining| == |sources.Keys|
        invariant forall i :: 0 <= i < |all| ==> all[i].id in sources.Keys - remaining && sources[all[i].id] == all[i]
        invariant forall id :: id in sources.Keys - remaining ==> exists i :: 0 <= i < |all| && all[i].id == id
        invariant forall i, j :: 0 <= i < j < |all| ==> all[i].id != all[j].id
        decreases remaining
      {
        var id :| id in remaining;
        ghost var before, wasRemaining := all, remaining;
        all := all + [sources[id]];
        remaining := remaining - {id};
        forall id' | id' in sources.Keys - remaining
          ensures exists i :: 0 <= i < |all| && all[i].id == id'
        {
          if id' == id {
            assert all[|all| - 1].id == id';
          } else {
            assert id' in sources.Keys - wasRemaining;
            var i :| 0 <= i < |before| && before[i].id == id';
            assert all[i].id == id';
          }
        }
      }
      assert sources.Keys - remaining == sources.Keys;
    }
  }

  /** The `items` table. */
  class ItemRepository {
    var items: seq<Item>

    constructor ()
      ensures items == []
    {
      items := [];
    }

    function Links(): set<string>
      reads this
    {
      LinksOf(items)
    }

    /** existsByLink: a lookup by link alone, across all sources. */
    method ExistsByLink(link: string) returns (b: bool)
      ensures b == (link in Links())
    {
      b := link in LinksOf(items);
    }

    /** save of a new item */
    method Save(item: Item)
      modifies this
      ensures items == old(items) + [item]
    {
      items := items + [item];
    }
  }
}
