# CSVToIterableObject, modelled in Dafny

This project models the in-memory row-store of the CSVParser library
(`dev.nurujjamanpollob.collection.csvparser.iterables.CSVToIterableObject`).
The store is built from the rows that the opencsv tokeniser yields: an ordered
list of rows, each an ordered list of field strings. The first row becomes the
key-set (the header). Every later row must have exactly as many fields as the
key-set, or construction fails with "Row length does not match key-set length".
Rows that pass are kept in input order. After construction the store answers
read-only queries: a key by index, the index of a key by name (first exact
match, no trimming), a value by key index or key name and row index, a whole
column by key index or name, the sizes, and key presence.

Files:

- `wrappers.dfy` (module `Wrappers`): `Option` for Java's possibly-null key-set,
  `Result` and `Outcome` for calls that return or throw.
- `csv_to_iterable_object.dfy` (module `Iterables`): the error kinds, the search
  specification `FirstIndexOf`, and the class `CsvToIterableObject`. Its fields
  `keySet: Option<seq<string>>` and `keyValueRows: seq<seq<string>>` are the
  Java fields. `Valid()` is the row-length invariant. The construction loop and
  `putRow` update the fields in place. The plain getters are functions that read
  the fields. The search and column-building loops are methods with loop
  invariants, proved against `FirstIndexOf` and `GetValueByIndex`.
- `csv_iterator_test.dfy` (module `CsvIteratorTest`): client methods that mirror
  the unit tests that build the store from text. They assert only what the
  contracts above let a caller conclude.

Java's `CSVIterableObjectError` is one exception class with a message. The model
keeps its three kinds as `CsvError`: `RowLengthMismatch`, `IndexOutOfBound` and
`KeyNotFound`. `GetKeySet` returns the key-set as an `Option`, `None` where Java
returns null, and `GetAllValues` returns the value rows; both contracts carry the
row-length invariant. The size getters `GetKeySetLength`, `GetColumnLength`,
`GetRowLength` and `GetAllRowLength` each state how they relate to the others;
`GetRowLength` and `GetAllRowLength` need no key-set, as in Java. The lemma
`Sizes` gathers these relations for an object with a key-set.

Where Java dereferences a null key-set, the model requires `keySet.Some?`. Where
Java avoids the dereference, the model does too:

- `getValue(int, int)` and `getValue(String, int)` test the row bound first. An
  object without a key-set has no rows, so both fail with an out-of-bound error.
  Their models require only `Valid()`.
- `isKeysPresent` of an empty array never reads the key-set and returns true.

## Model

| member | source | states |
|---|---|---|
| `Iterables.FirstIndexOf` | src/main/java/dev/nurujjamanpollob/collection/csvparser/iterables/CSVToIterableObject.java:198-206 | the key search finds something exactly when the key is in the key-set; what it finds is the smallest index holding an exactly equal entry |
| `Iterables.FirstMatchWins` | src/main/java/dev/nurujjamanpollob/collection/csvparser/iterables/CSVToIterableObject.java:198-206 | with duplicate keys the search returns the first occurrence; an entry with no earlier equal entry is found at its own index |
| `Iterables.CsvToIterableObject.Empty` | src/main/java/dev/nurujjamanpollob/collection/csvparser/iterables/CSVToIterableObject.java:120 | the empty constructor leaves the key-set unset and the rows empty, which satisfies the invariant |
| `Iterables.CsvToIterableObject.PutRow` | src/main/java/dev/nurujjamanpollob/collection/csvparser/iterables/CSVToIterableObject.java:125-135 | row 0 becomes the key-set; a later row is appended exactly when its length equals the key-set's, otherwise a row-length mismatch is raised and nothing changes; the invariant is preserved |
| `Iterables.CsvToIterableObject.FromRows` | src/main/java/dev/nurujjamanpollob/collection/csvparser/iterables/CSVToIterableObject.java:34-38 | construction succeeds exactly when every row after the first has the first row's length; then the key-set is the first row, the value rows are the rest in order, and every stored row has the key-set's length; otherwise it fails with a row-length mismatch and yields no object |
| `Iterables.CsvToIterableObject.GetKeySet` | src/main/java/dev/nurujjamanpollob/collection/csvparser/iterables/CSVToIterableObject.java:140-142 | the key-set as stored, absent exactly when no row has been put (Java's null); every value row has its length |
| `Iterables.CsvToIterableObject.GetAllValues` | src/main/java/dev/nurujjamanpollob/collection/csvparser/iterables/CSVToIterableObject.java:147-149 | the value rows, as many as `getRowLength()` reports, none while the key-set is unset, each of the key-set's length |
| `Iterables.CsvToIterableObject.GetAll` | src/main/java/dev/nurujjamanpollob/collection/csvparser/iterables/CSVToIterableObject.java:158-163 | the whole table is the key-set followed by the value rows, and its length is `getAllRowLength()` |
| `Iterables.CsvToIterableObject.GetKeySetLength` | src/main/java/dev/nurujjamanpollob/collection/csvparser/iterables/CSVToIterableObject.java:267-269 | the number of keys, the length of the key-set `getKeySet()` returns |
| `Iterables.CsvToIterableObject.GetColumnLength` | src/main/java/dev/nurujjamanpollob/collection/csvparser/iterables/CSVToIterableObject.java:275-277 | the same value as `getKeySetLength()`, and every value row has that many fields, as the comment at 273 says |
| `Iterables.CsvToIterableObject.GetRowLength` | src/main/java/dev/nurujjamanpollob/collection/csvparser/iterables/CSVToIterableObject.java:283-285 | the number of value rows, excluding the key-set; zero while no key-set is set |
| `Iterables.CsvToIterableObject.GetAllRowLength` | src/main/java/dev/nurujjamanpollob/collection/csvparser/iterables/CSVToIterableObject.java:291-293 | one more than `getRowLength()`, for every object, with or without a key-set |
| `Iterables.CsvToIterableObject.GetKey` | src/main/java/dev/nurujjamanpollob/collection/csvparser/iterables/CSVToIterableObject.java:170-175 | succeeds exactly when the index is below the key-set length, with the key at that index; otherwise an out-of-bound error |
| `Iterables.CsvToIterableObject.GetValueByIndex` | src/main/java/dev/nurujjamanpollob/collection/csvparser/iterables/CSVToIterableObject.java:215-221 | succeeds exactly when the row index is below the row count and the key index below the key-set length, with that row's field; the field is in bounds by the row-length invariant; otherwise an out-of-bound error |
| `Iterables.CsvToIterableObject.GetKeyIndex` | src/main/java/dev/nurujjamanpollob/collection/csvparser/iterables/CSVToIterableObject.java:198-206 | fails with key-not-found exactly when no entry equals the key; otherwise returns the first index whose entry equals the key |
| `Iterables.CsvToIterableObject.GetValueByKey` | src/main/java/dev/nurujjamanpollob/collection/csvparser/iterables/CSVToIterableObject.java:183-190 | a row index at or past the row count fails with out-of-bound before the key is looked at; then a missing key fails with key-not-found; otherwise the result equals the by-index lookup at the key's first index |
| `Iterables.CsvToIterableObject.GetAllValuesByKeyIndex` | src/main/java/dev/nurujjamanpollob/collection/csvparser/iterables/CSVToIterableObject.java:246-261 | fails with out-of-bound exactly when the key index is not below the key-set length; otherwise one value per row, in row order, each equal to the by-index lookup of that row |
| `Iterables.CsvToIterableObject.GetAllValuesByKey` | src/main/java/dev/nurujjamanpollob/collection/csvparser/iterables/CSVToIterableObject.java:229-239 | fails with key-not-found exactly when the key is missing; otherwise one value per row, in row order, taken at the key's first index |
| `Iterables.CsvToIterableObject.IsKeyPresent` | src/main/java/dev/nurujjamanpollob/collection/csvparser/iterables/CSVToIterableObject.java:300-307 | true exactly when the key is in the key-set, which is exactly when the key search succeeds |
| `Iterables.CsvToIterableObject.IsKeysPresent` | src/main/java/dev/nurujjamanpollob/collection/csvparser/iterables/CSVToIterableObject.java:314-321 | true exactly when every given key is present, so true for no keys; the key-set is needed only when some key is given |
| `Iterables.CsvToIterableObject.Sizes` | src/main/java/dev/nurujjamanpollob/collection/csvparser/iterables/CSVToIterableObject.java:267-293 | the key-set length and the column length are both the key-set's size; the all-rows length is the row count plus one and the length of `getAll()`; every value row has the column length |
| `Iterables.CsvToIterableObject.KeyRoundTrip` | src/main/java/dev/nurujjamanpollob/collection/csvparser/iterables/CSVToIterableObject.java:170-206 | reading back by index the first index of a present key yields that key |

None of the query members has a `modifies` clause, so none of them changes the
key-set or the rows in the model (see `GetAllValues` under "Left out" for what
Java callers can still do).

## Left out

- CSV tokenising and I/O: opencsv's `CSVReader.readAll`, `FileReader`, `StringReader`,
  the try-with-resources of the five reading constructors and the wrapping of
  `IOException`/`CsvException` are foreign library calls and file I/O. The model
  starts from the tokeniser's output; `FromRows` is the loop they all share.
- `toString` is Java collection formatting and is not modelled.
- Error message texts: only the error kinds are modelled.
- Negative indices: indices are `nat`; Java relies on its own array and list checks for them.
- The null key-set: queries that dereference it in Java (`getKey`, `getKeyIndex`,
  `getAllValuesByKey`, `isKeyPresent`, the key-set length getters) require a
  key-set instead of modelling the `NullPointerException`.
- GetAllValues: Java's `getAllValues()` hands out its internal `ArrayList` and
  `getKeySet()` its internal array, so a caller can add a row of the wrong length
  or change the key-set; after that `getValue(int, int)` and
  `getAllValuesByKey(int)` can throw `ArrayIndexOutOfBoundsException`. The model
  returns immutable sequences, so the row-length invariant holds only as long as
  Java callers do not mutate what these getters return; that aliasing is not modelled.
- GetKeySet: see the line above; the returned array is shared with the object in Java.
- GetAll: Java's `getAll()` on an object with no key-set returns a list holding
  one null; the model requires a key-set.
- GetAllValuesByKey: Java repeats the column loop of the index overload; the
  model calls the index overload after the key search, with the same result.
- The console demo `Main.java` and the record `CSVKeyExistenceInformation.java` are not part of this model.
- The unit tests that read a sample file from a local absolute path: three of
  them (`getKeyIndex("name") == 0`, `getAllValuesByKey("name")` having two
  values, an out-of-bound row index) are restated on the text rows; the values
  specific to that file (four keys, the "requirement" column) are left out, as
  the file is not part of this model.
