/**
  The pure specification of the Mapper's counting loop. Tally is what the loop
  computes, row by row; Ids, CountOf and NonNullRows are the independent reference
  (the non-null identifiers of a chunk and their occurrence counts); Total is the
  sum of all counts. The lemmas relate the two.
 */
module Counting {
  import opened Wrappers
  import opened Rows

  /** A count mapping: each key is an identifier that has been counted at least once. */
  type Counts<V> = map<V, nat>

  /** A read of a defaultdict(int): the stored count, or 0 for an identifier never counted. */
  function Lookup<V(==)>(m: Counts<V>, id: V): nat {
    if id in m then m[id] else 0
  }

  /**
    One iteration of the loop: a row without an identifier leaves the mapping as it is;
    a row with identifier id adds one to id's count, creating the key at 1 when absent.
   */
  function Visit<V(==)>(m: Counts<V>, row: Row<V>): (r: Counts<V>)
    ensures PassengerId(row).None? ==> r == m
    ensures PassengerId(row).Some? ==>
      var id := PassengerId(row).value;
      id in r && r[id] == Lookup(m, id) + 1 && r - {id} == m - {id}
  {
    match PassengerId(row)
    case None => m
    case Some(id) => m[id := Lookup(m, id) + 1]
  }

  /** The mapping the loop leaves after visiting every row of c in order, starting from m. */
  function Tally<V(==)>(m: Counts<V>, c: Chunk<V>): Counts<V>
    decreases |c|
  {
    if c == [] then m else Visit(Tally(m, c[..|c| - 1]), c[|c| - 1])
  }

  /** The non-null passenger identifiers of c, in row order. */
  function Ids<V(==)>(c: Chunk<V>): (ids: seq<V>)
    ensures |ids| <= |c|
    decreases |c|
  {
    if c == [] then []
    else Ids(c[..|c| - 1]) + match PassengerId(c[|c| - 1]) { case None => [] case Some(v) => [v] }
  }

  /** The number of rows of c that carry identifier id. */
  function CountOf<V(==)>(c: Chunk<V>, id: V): nat {
    multiset(Ids(c))[id]
  }

  /** The number of rows of c that carry any identifier at all. */
  function NonNullRows<V(==)>(c: Chunk<V>): nat {
    |Ids(c)|
  }

  /** The identifiers that occur in c. */
  function IdsOf<V(==)>(c: Chunk<V>): set<V> {
    set v | v in Ids(c)
  }

  /** The sum of all counts of a mapping. */
  ghost function Total<V>(m: Counts<V>): nat
    decreases |m|
  {
    if m == map[] then 0 else var k :| k in m; m[k] + Total(m - {k})
  }

  /** Every stored key has been counted at least once. */
  ghost predicate KeysPositive<V>(m: Counts<V>) {
    forall id :: id in m ==> m[id] >= 1
  }

  // ---------------------------------------------------------------------------
  // The reference definitions over joined chunks
  // ---------------------------------------------------------------------------

  /** Filtering out the null rows commutes with joining chunks. */
  lemma {:induction false} IdsAppend<V>(a: Chunk<V>, b: Chunk<V>)
    ensures Ids(a + b) == Ids(a) + Ids(b)
    decreases |b|
  {
    if b == [] {
      assert a + b == a;
    } else {
      var b' := b[..|b| - 1];
      assert (a + b)[..|a + b| - 1] == a + b';
      assert (a + b)[|a + b| - 1] == b[|b| - 1];
      IdsAppend(a, b');
    }
  }

  // ---------------------------------------------------------------------------
  // What the loop computes
  // ---------------------------------------------------------------------------

  /** After the loop, each identifier's count has grown by exactly its number of rows in c. */
  lemma {:induction false} TallyLookup<V>(m: Counts<V>, c: Chunk<V>, id: V)
    ensures Lookup(Tally(m, c), id) == Lookup(m, id) + CountOf(c, id)
    decreases |c|
  {
    if c != [] {
      TallyLookup(m, c[..|c| - 1], id);
    }
  }

  /** The keys after the loop are the keys before it and the identifiers of c, and nothing else. */
  lemma {:induction false} TallyKeys<V>(m: Counts<V>, c: Chunk<V>)
    ensures Tally(m, c).Keys == m.Keys + IdsOf(c)
    decreases |c|
  {
    if c != [] {
      TallyKeys(m, c[..|c| - 1]);
    }
  }

  /** Two count mappings with the same keys and the same counts are equal. */
  lemma SameCounts<V>(m1: Counts<V>, m2: Counts<V>)
    requires m1.Keys == m2.Keys
    requires forall id :: Lookup(m1, id) == Lookup(m2, id)
    ensures m1 == m2
  {
    forall id | id in m1 ensures m1[id] == m2[id] {
      assert Lookup(m1, id) == Lookup(m2, id);
    }
  }

  /** Counting a chunk changes no count other than those of its identifiers. */
  lemma {:induction false} TallyFrame<V>(m: Counts<V>, c: Chunk<V>, id: V)
    requires id !in IdsOf(c)
    ensures Lookup(Tally(m, c), id) == Lookup(m, id)
    ensures id in Tally(m, c) <==> id in m
  {
    TallyLookup(m, c, id);
    TallyKeys(m, c);
    assert id !in multiset(Ids(c));
  }

  /** Counting never lowers a count. */
  lemma {:induction false} TallyGrows<V>(m: Counts<V>, c: Chunk<V>)
    ensures forall id :: Lookup(m, id) <= Lookup(Tally(m, c), id)
  {
    forall id ensures Lookup(m, id) <= Lookup(Tally(m, c), id) {
      TallyLookup(m, c, id);
    }
  }

  /** Keys are created only by an increment, so every stored count stays at least 1. */
  lemma {:induction false} TallyKeysPositive<V>(m: Counts<V>, c: Chunk<V>)
    requires KeysPositive(m)
    ensures KeysPositive(Tally(m, c))
    decreases |c|
  {
    if c != [] {
      TallyKeysPositive(m, c[..|c| - 1]);
    }
  }

  // ---------------------------------------------------------------------------
  // Calls add up
  // ---------------------------------------------------------------------------

  /** Counting a then b is counting a + b: the chunking of the input does not matter. */
  lemma {:induction false} TallyAppend<V>(m: Counts<V>, a: Chunk<V>, b: Chunk<V>)
    ensures Tally(m, a + b) == Tally(Tally(m, a), b)
    decreases |b|
  {
    if b == [] {
      assert a + b == a;
    } else {
      var b' := b[..|b| - 1];
      assert (a + b)[..|a + b| - 1] == a + b';
      assert (a + b)[|a + b| - 1] == b[|b| - 1];
      TallyAppend(m, a, b');
    }
  }

  /** Counting the same chunk twice adds its counts twice; nothing is reset in between. */
  lemma TallyTwice<V>(m: Counts<V>, c: Chunk<V>, id: V)
    ensures Lookup(Tally(Tally(m, c), c), id) == Lookup(m, id) + 2 * CountOf(c, id)
  {
    TallyLookup(m, c, id);
    TallyLookup(Tally(m, c), c, id);
  }

  // ---------------------------------------------------------------------------
  // Rows without an identifier, and the other columns
  // ---------------------------------------------------------------------------

  /** A row whose Passenger_ID is missing or null changes nothing, wherever it stands. */
  lemma NullRowIgnored<V>(m: Counts<V>, a: Chunk<V>, row: Row<V>, b: Chunk<V>)
    requires PassengerId(row).None?
    ensures Tally(m, a + [row] + b) == Tally(m, a + b)
  {
    TallyAppend(m, a + [row], b);
    TallyAppend(m, a, [row]);
    TallyAppend(m, a, b);
    assert [row][..0] == [];
  }

  /** Counting a chunk only looks at the Passenger_ID column: the other columns do not matter. */
  lemma {:induction false} OtherColumnsIgnored<V>(m: Counts<V>, c1: Chunk<V>, c2: Chunk<V>)
    requires |c1| == |c2|
    requires forall i :: 0 <= i < |c1| ==> PassengerId(c1[i]) == PassengerId(c2[i])
    ensures Tally(m, c1) == Tally(m, c2)
    decreases |c1|
  {
    if c1 != [] {
      OtherColumnsIgnored(m, c1[..|c1| - 1], c2[..|c2| - 1]);
    }
  }

  // ---------------------------------------------------------------------------
  // The sum of all counts
  // ---------------------------------------------------------------------------

  /** The sum may be taken with any key first. */
  lemma {:induction false} TotalRemove<V>(m: Counts<V>, k: V)
    requires k in m
    ensures Total(m) == m[k] + Total(m - {k})
    decreases |m|
  {
    var j :| j in m && Total(m) == m[j] + Total(m - {j});
    if j != k {
      TotalRemove(m - {j}, k);
      TotalRemove(m - {k}, j);
      assert m - {j} - {k} == m - {k} - {j};
    }
  }

  /** One increment adds exactly one to the sum. */
  lemma TotalIncrement<V>(m: Counts<V>, id: V)
    ensures Total(m[id := Lookup(m, id) + 1]) == Total(m) + 1
  {
    var m' := m[id := Lookup(m, id) + 1];
    TotalRemove(m', id);
    if id in m {
      TotalRemove(m, id);
      assert m' - {id} == m - {id};
    } else {
      assert m' - {id} == m;
    }
  }

  /** The counts grow in sum by exactly the number of non-null rows counted. */
  lemma {:induction false} TallyTotal<V>(m: Counts<V>, c: Chunk<V>)
    ensures Total(Tally(m, c)) == Total(m) + NonNullRows(c)
    decreases |c|
  {
    if c != [] {
      var c' := c[..|c| - 1];
      TallyTotal(m, c');
      match PassengerId(c[|c| - 1])
      case None =>
      case Some(id) => TotalIncrement(Tally(m, c'), id);
    }
  }

  /** Everything the counts of a fresh accumulator say after counting c. */
  lemma FromEmpty<V>(c: Chunk<V>)
    ensures forall id :: Lookup(Tally(map[], c), id) == CountOf(c, id)
    ensures Tally(map[], c).Keys == IdsOf(c)
    ensures KeysPositive(Tally(map[], c))
    ensures Total(Tally(map[], c)) == NonNullRows(c)
  {
    forall id ensures Lookup(Tally(map[], c), id) == CountOf(c, id) {
      TallyLookup(map[], c, id);
    }
    TallyKeys(map[], c);
    TallyKeysPositive(map[], c);
    TallyTotal(map[], c);
    assert Total<V>(map[]) == 0;
  }
}
