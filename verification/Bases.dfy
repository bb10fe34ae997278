/**
 The base a reload compares with: for each entry of the config, the definition last
 accepted, kept in the order of the config.
 */
module Bases {
  import opened Specs
  import opened Paths
  import opened Orders

  class Base {
    var sources: seq<Source>
    var specs: map<Source, Spec>

    ghost predicate Valid()
      reads this
    {
      && Distinct(sources)
      && specs.Keys == set s | s in sources
    }

    constructor ()
      ensures Valid() && sources == [] && specs == map[]
    {
      sources, specs := [], map[];
    }

    /**
     Replaces an entry's definition where it stands. A new entry goes beside its closest
     predecessor in `order`; given the config's order, a base that followed it still does.
     */
    method Set(source: Source, spec: Spec, order: seq<Source>)
      requires Valid()
      modifies this
      ensures Valid()
      ensures specs == old(specs)[source := spec]
      ensures source in old(sources) ==> sources == old(sources)
      ensures source !in old(sources) ==> sources == InsertInOrder(old(sources), order, source)
      ensures Distinct(order) && Agrees(old(sources), order) ==> Agrees(sources, order)
    {
      if source in specs {
        specs := specs[source := spec];
        return;
      }
      var at := PlaceOf(source, order);
      InsertIsDistinct(sources, at, source);
      if Distinct(order) && Agrees(sources, order) {
        InsertKeepsOrder(sources, order, source);
      }
      sources := InsertAt(sources, at, source);
      specs := specs[source := spec];
    }

    /** The place a new entry is given: next to the last of its predecessors in `order` that is kept, or the front. */
    method PlaceOf(source: Source, order: seq<Source>) returns (at: nat)
      requires Valid()
      ensures at == PlaceFor(sources, order, source)
    {
      var i := if source in order then IndexOf(order, source) else 0;
      while i > 0 && order[i - 1] !in specs
        invariant 0 <= i <= |order|
        invariant NearestBefore(sources, order, i) == NearestBefore(sources, order, CountBefore(order, source))
      {
        i := i - 1;
      }
      at := if i == 0 then 0 else IndexOf(sources, order[i - 1]) + 1;
    }

    method Remove(source: Source)
      requires Valid()
      modifies this
      ensures Valid()
      ensures specs == old(specs) - {source}
      ensures source !in old(sources) ==> sources == old(sources)
      ensures forall at | 0 <= at < |old(sources)| && old(sources)[at] == source ::
                sources == old(sources)[..at] + old(sources)[at + 1..]
      ensures forall order: seq<Source> :: old(Agrees(sources, order)) ==> Agrees(sources, order)
    {
      if source in specs {
        var at := IndexOf(sources, source);
        forall order: seq<Source> | Agrees(sources, order)
          ensures Agrees(sources[..at] + sources[at + 1..], order)
        {
          RemoveKeepsOrder(sources, order, at);
        }
        sources := sources[..at] + sources[at + 1..];
        specs := specs - {source};
      }
    }
  }
}
