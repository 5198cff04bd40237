/**
  The per-worker counting accumulator. A Mapper holds one mutable field, the count
  mapping, which starts empty and is changed only by Map, one increment per row that
  carries a passenger identifier. The ghost field seen records every row ever handed
  to Map, so that the object invariant can say what the counts are over the
  accumulator's whole lifetime.
 */
module Mapping {
  import opened Wrappers
  import opened Rows
  import opened Counting

  class Mapper<V(==)> {
    /** The counts so far; an identifier that is not a key reads as 0. */
    var localCount: Counts<V>
    /** Every row passed to Map since construction, in order. */
    ghost var seen: Chunk<V>

    /** The counts are exactly those of the rows seen so far. */
    ghost predicate Valid()
      reads this
    {
      localCount == Tally(map[], seen)
    }

    /** A fresh accumulator: no rows seen, no keys, every identifier reads as 0. */
    constructor ()
      ensures Valid()
      ensures seen == [] && localCount == map[]
      ensures forall id :: Lookup(localCount, id) == 0
    {
      localCount := map[];
      seen := [];
    }

    /**
      Counts the rows of chunk in order: a row whose Passenger_ID is missing or null
      is skipped; any other row adds one to its identifier's count.
     */
    method Map(chunk: Chunk<V>)
      requires Valid()
      modifies this
      ensures Valid()
      ensures seen == old(seen) + chunk
      ensures localCount == Tally(old(localCount), chunk)
      ensures forall id :: Lookup(localCount, id) == Lookup(old(localCount), id) + CountOf(chunk, id)
      ensures localCount.Keys == old(localCount).Keys + IdsOf(chunk)
      ensures forall id :: id !in IdsOf(chunk) ==> Lookup(localCount, id) == Lookup(old(localCount), id)
      ensures chunk == [] ==> localCount == old(localCount)
      ensures forall id :: Lookup(localCount, id) == CountOf(seen, id)
      ensures KeysPositive(localCount)
      ensures Total(localCount) == NonNullRows(seen)
    {
      for i := 0 to |chunk|
        invariant localCount == Tally(old(localCount), chunk[..i])
        invariant seen == old(seen)
      {
        assert chunk[..i + 1][..i] == chunk[..i];
        var passengerId := PassengerId(chunk[i]);
        if passengerId.Some? {
          var id := passengerId.value;
          localCount := localCount[id := Lookup(localCount, id) + 1];
        }
      }
      assert chunk[..|chunk|] == chunk;
      TallyAppend(map[], old(seen), chunk);
      seen := seen + chunk;
      TallyKeys(old(localCount), chunk);
      forall id ensures Lookup(localCount, id) == Lookup(old(localCount), id) + CountOf(chunk, id) {
        TallyLookup(old(localCount), chunk, id);
      }
      forall id | id !in IdsOf(chunk) ensures Lookup(localCount, id) == Lookup(old(localCount), id) {
        TallyFrame(old(localCount), chunk, id);
      }
      FromEmpty(seen);
    }

    /** The current counts; reading them changes nothing. */
    method GetLocalCount() returns (counts: Counts<V>)
      requires Valid()
      ensures counts == localCount
      ensures forall id :: Lookup(counts, id) == CountOf(seen, id)
      ensures counts.Keys == IdsOf(seen)
      ensures KeysPositive(counts)
    {
      FromEmpty(seen);
      counts := localCount;
    }
  }
}
