# Passenger flight counting accumulator

This project models the `Mapper` class of `main.py`: a per-worker accumulator that
counts, per passenger, how many flight rows it has been given. A `Mapper` starts with
an empty count mapping (a `defaultdict(int)`). Each call to `map(data_chunk)` walks the
chunk's rows once. For each row it reads the `Passenger_ID` field and skips the row when
that field is missing or null; otherwise it adds one to that identifier's count, in place.
`get_local_count` hands back the current mapping.

The Dafny project has four modules:

- `Rows` (rows.dfy): a cell is `Null` or `Value(v)`, a row maps column names to cells, and a
  chunk is a sequence of rows. `PassengerId` reads the `Passenger_ID` column; a missing column
  and a null cell both give `None`.
- `Counting` (counting.dfy): the pure specification. `Lookup` is the defaultdict read (0 for an
  absent key). `Visit` is one iteration of the loop. `Tally(m, c)` is the mapping the loop leaves
  after visiting every row of `c`, starting from `m`. The independent reference is `Ids(c)`, the
  non-null identifiers of `c` in row order, with `CountOf` (occurrences in `Ids`), `NonNullRows`
  and `IdsOf`. `Total` is the sum of all counts. The lemmas connect `Tally` to the reference.
- `Mapping` (mapper.dfy): the class `Mapper` with the mutable field `localCount` and a ghost field
  `seen` holding every row ever passed to `Map`. The object invariant `Valid()` says that
  `localCount == Tally(map[], seen)`. `Map` is a `for` loop whose invariant ties the field to
  `Tally` of the rows visited so far.
- `Scenarios` (scenarios.dfy): a worked chunk. It holds rows A, B, A, a null id and a row without
  the column. Counting it gives `{"A": 2, "B": 1}`, and counting it twice gives `{"A": 4, "B": 2}`.

Identifiers are a type parameter `V` with equality; Python's hash-and-equality on the
identifier values is modelled by that equality.

## Model

| member | source | states |
|---|---|---|
| `Rows.PassengerId` | main.py:40-41 | a row yields an identifier exactly when it has a `Passenger_ID` column and the cell there is not null, and the identifier is that cell's value |
| `Counting.Visit` | main.py:40-42 | a row without an identifier leaves the mapping unchanged; a row with identifier `id` sets `id`'s count to its old count (0 if absent) plus one and changes no other key or count |
| `Counting.TallyLookup` | main.py:39-42 | after counting a chunk, every identifier's count is its previous count plus the number of rows of the chunk carrying it |
| `Counting.TallyKeys` | main.py:39-42 | the keys after counting a chunk are the previous keys plus the identifiers occurring in the chunk; a null or missing id never becomes a key |
| `Counting.TallyFrame` | main.py:39-42 | an identifier that does not occur in the chunk keeps its count and its presence or absence as a key |
| `Counting.TallyGrows` | main.py:42 | counting never decreases any identifier's count |
| `Counting.TallyKeysPositive` | main.py:42 | if every stored count is at least 1 before, it is at least 1 after, because keys are created only by the increment |
| `Counting.TallyAppend` | main.py:39-42 | counting chunk `a` and then chunk `b` gives the same mapping as counting `a + b` once |
| `Counting.TallyTwice` | main.py:39-42 | counting the same chunk twice adds its counts twice; nothing is reset between calls |
| `Counting.NullRowIgnored` | main.py:40-41 | a row with a null or missing `Passenger_ID`, inserted anywhere in the input, does not change the resulting mapping |
| `Counting.OtherColumnsIgnored` | main.py:40 | two chunks whose rows agree on their `Passenger_ID` give the same mapping, whatever their other columns hold |
| `Counting.TotalIncrement` | main.py:42 | one increment adds exactly one to the sum of all counts |
| `Counting.TallyTotal` | main.py:39-42 | the sum of all counts grows by exactly the number of rows with a non-null identifier |
| `Counting.FromEmpty` | main.py:31-42 | counting a chunk from the empty mapping gives each identifier its number of occurrences, exactly the occurring identifiers as keys, every count at least 1, and a sum equal to the number of non-null rows |
| `Mapping.Mapper.constructor` | main.py:31-32 | a fresh accumulator has seen no rows and has an empty mapping, so every identifier reads as 0 |
| `Mapping.Mapper.Map` | main.py:34-42 | the new mapping is the old one counted over the chunk: each identifier's count grows by its occurrences in the chunk, non-occurring identifiers and an empty chunk change nothing, keys grow only by the chunk's identifiers; over the lifetime, counts equal occurrences in all rows seen, every key is at least 1 and the sum equals the number of non-null rows seen |
| `Mapping.Mapper.GetLocalCount` | main.py:44-46 | returns the current mapping without changing anything; it gives each identifier its number of occurrences among all rows seen, its keys are exactly the identifiers seen, and each stored count is at least 1 |
| `Scenarios.SampleCounts` | main.py:39-42 | rows A, B, A, null and one with no `Passenger_ID` column give exactly `{"A": 2, "B": 1}` from a fresh mapping, with 3 non-null rows |
| `Scenarios.SampleCountsTwice` | main.py:39-42 | counting that chunk again on top of `{"A": 2, "B": 1}` gives `{"A": 4, "B": 2}` |
| `Scenarios.CountSampleTwice` | main.py:39-42 | a fresh `Mapper` given that chunk twice returns `{"A": 4, "B": 2}` |

## Left out

- `DataLoader.load_data` (main.py:10-26) is not modelled. It is file I/O through `open` and a CSV library that reads chunks of 1000 rows and concatenates them, and on failure prints a message and returns an empty table. None of that library behaviour can be stated here.
- The `threading` import (main.py:2) is unused. The source has no threads, locks or merge step, so none is modelled.
- Table internals are abstracted. Row iteration is a sequence of rows; every null-like cell value (None, NaN, NaT) is the single `Null` cell; the row index is ignored.
- The defaultdict's insert-on-read is not modelled. The source reads a key only inside the increment, so `Lookup` returns 0 for a missing key without creating it.
- `Mapping.Mapper.GetLocalCount`: the source returns the live dictionary object, so a caller who mutates it changes the accumulator. The model returns the mapping as a value and does not model that aliasing.
- Identifier equality is the type parameter's equality. Python's merging of equal-hashing keys of different types (such as `1` and `1.0`) is not modelled.
