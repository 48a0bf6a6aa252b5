/**
  An in-memory CSV row-store. Its input is the tokeniser's output: an ordered
  list of rows, each an ordered list of field strings. The first row becomes the
  key-set (header); every later row must have exactly as many fields as the
  key-set and is kept, in input order, as a value row.
 */
module Iterables {
  import opened Wrappers

  /** The kinds of failure the row-store raises (all one exception class in Java). */
  datatype CsvError =
    | RowLengthMismatch   // a value row's length differs from the key-set's
    | IndexOutOfBound     // a row or key index is >= the corresponding length
    | KeyNotFound         // a key name has no equal entry in the key-set

  /** Every row after the first has the first row's length. */
  predicate RowsMatchKeySet(r: seq<seq<string>>)
  {
    forall i :: 1 <= i < |r| ==> |r[i]| == |r[0]|
  }

  /** The position of the first entry of `keys` equal to `key`, if there is one. */
  function FirstIndexOf(keys: seq<string>, key: string): (r: Option<nat>)
    ensures r.Some? <==> key in keys
    ensures r.Some? ==> r.value < |keys| && keys[r.value] == key
    ensures r.Some? ==> forall j :: 0 <= j < r.value ==> keys[j] != key
  {
    if keys == [] then None
    else if keys[0] == key then Some(0)
    else
      match FirstIndexOf(keys[1..], key)
      case None => None
      case Some(i) => Some(i + 1)
  }

  /** Any index whose entry is `key` is at or after the first match. */
  lemma FirstMatchWins(keys: seq<string>, i: nat)
    requires i < |keys|
    ensures FirstIndexOf(keys, keys[i]).Some?
    ensures FirstIndexOf(keys, keys[i]).value <= i
    ensures (forall j :: 0 <= j < i ==> keys[j] != keys[i]) ==> FirstIndexOf(keys, keys[i]).value == i
  {
  }

  class CsvToIterableObject {
    /** The first parsed row; None until a row has been put (Java's null key-set). */
    var keySet: Option<seq<string>>
    /** The value rows, in input order. */
    var keyValueRows: seq<seq<string>>

    /** The row-length invariant that construction establishes. */
    ghost predicate Valid()
      reads this
    {
      (keySet.None? ==> keyValueRows == []) &&
      (keySet.Some? ==> forall i :: 0 <= i < |keyValueRows| ==> |keyValueRows[i]| == |keySet.value|)
    }

    /** A valid object whose key-set has been set. */
    ghost predicate Ready()
      reads this
    {
      Valid() && keySet.Some?
    }

    /** True when `key` is one of the key-set's entries. */
    predicate HasKey(key: string)
      reads this
    {
      keySet.Some? && key in keySet.value
    }

    /** The empty constructor: no key-set, no rows. */
    constructor Empty()
      ensures Valid()
      ensures keySet == None && keyValueRows == []
    {
      keySet := None;
      keyValueRows := [];
    }

    /**
      Puts one parsed row: row 0 becomes the key-set, any later row is appended
      when its length equals the key-set's and rejected otherwise.
     */
    method PutRow(iterationIndex: nat, row: seq<string>) returns (outcome: Outcome<CsvError>)
      requires Valid()
      requires iterationIndex == 0 ==> keyValueRows == []
      requires iterationIndex > 0 ==> keySet.Some?
      modifies this
      ensures Valid()
      ensures iterationIndex == 0 ==> outcome.Pass? && keySet == Some(row) && keyValueRows == []
      ensures iterationIndex > 0 ==> keySet == old(keySet)
      ensures iterationIndex > 0 ==> (outcome.Pass? <==> |row| == |old(keySet).value|)
      ensures outcome.Pass? && iterationIndex > 0 ==> keyValueRows == old(keyValueRows) + [row]
      ensures outcome.Fail? ==> outcome.error == RowLengthMismatch && keyValueRows == old(keyValueRows)
    {
      if iterationIndex == 0 {
        keySet := Some(row);
      } else {
        if |row| != |keySet.value| {
          return Fail(RowLengthMismatch);
        }
        keyValueRows := keyValueRows + [row];
      }
      return Pass;
    }

    /**
      Builds the row-store from parsed rows, as every reading constructor does:
      puts each row in order and gives up at the first row whose length differs
      from the key-set's.
     */
    static method FromRows(r: seq<seq<string>>) returns (result: Result<CsvToIterableObject, CsvError>)
      ensures result.Success? <==> RowsMatchKeySet(r)
      ensures result.Failure? ==> result.error == RowLengthMismatch
      ensures result.Success? ==> fresh(result.value) && result.value.Valid()
      ensures result.Success? && r == [] ==> result.value.keySet == None && result.value.keyValueRows == []
      ensures result.Success? && r != [] ==> result.value.keySet == Some(r[0]) && result.value.keyValueRows == r[1..]
    {
      var t := new CsvToIterableObject.Empty();
      var i := 0;
      while i < |r|
        invariant 0 <= i <= |r|
        invariant t.Valid()
        invariant i == 0 ==> t.keySet == None && t.keyValueRows == []
        invariant i > 0 ==> t.keySet == Some(r[0]) && t.keyValueRows == r[1..i]
        invariant forall j :: 1 <= j < i ==> |r[j]| == |r[0]|
      {
        var outcome := t.PutRow(i, r[i]);
        if outcome.Fail? {
          return Failure(outcome.error);
        }
        i := i + 1;
      }
      return Success(t);
    }

    /**
      The key-set itself, None when no row has been put (Java returns null);
      every stored row has its length.
     */
    function GetKeySet(): (r: Option<seq<string>>)
      reads this
      ensures r.None? <==> keySet.None?
      ensures Valid() && r.Some? ==> forall i :: 0 <= i < |keyValueRows| ==> |keyValueRows[i]| == |r.value|
    {
      keySet
    }

    /** The value rows, in input order; empty while there is no key-set. */
    function GetAllValues(): (rows: seq<seq<string>>)
      reads this
      ensures |rows| == GetRowLength()
      ensures Valid() && keySet.None? ==> rows == []
      ensures Valid() && keySet.Some? ==> forall i :: 0 <= i < |rows| ==> |rows[i]| == |keySet.value|
    {
      keyValueRows
    }

    /** The key-set followed by all value rows. */
    function GetAll(): (all: seq<seq<string>>)
      reads this
      requires keySet.Some?
      ensures |all| == GetAllRowLength()
      ensures all[0] == GetKeySet().value && all[1..] == GetAllValues()
    {
      [keySet.value] + keyValueRows
    }

    /** The number of keys. */
    function GetKeySetLength(): (n: nat)
      reads this
      requires keySet.Some?
      ensures n == |GetKeySet().value|
    {
      |keySet.value|
    }

    /** The number of columns: every row has as many fields as the key-set. */
    function GetColumnLength(): (n: nat)
      reads this
      requires keySet.Some?
      ensures n == GetKeySetLength()
      ensures Valid() ==> forall i :: 0 <= i < |keyValueRows| ==> |keyValueRows[i]| == n
    {
      |keySet.value|
    }

    /** The number of value rows, excluding the key-set. */
    function GetRowLength(): (n: nat)
      reads this
      ensures n == |keyValueRows|
      ensures Valid() && keySet.None? ==> n == 0
    {
      |keyValueRows|
    }

    /** The number of rows including the key-set row. */
    function GetAllRowLength(): (n: nat)
      reads this
      ensures n == GetRowLength() + 1
    {
      |keyValueRows| + 1
    }

    /** The key at `index`; an index past the key-set is out of bound. */
    function GetKey(index: nat): (r: Result<string, CsvError>)
      reads this
      requires keySet.Some?
      ensures r.Success? <==> index < GetKeySetLength()
      ensures r.Success? ==> r.value == GetKeySet().value[index]
      ensures r.Failure? ==> r.error == IndexOutOfBound
    {
      if index >= |keySet.value| then Failure(IndexOutOfBound) else Success(keySet.value[index])
    }

    /**
      The value in row `rowIndex` under key `keyIndex`. The row bound is tested
      first, so an object without a key-set (and hence without rows) reports an
      out-of-bound index.
     */
    function GetValueByIndex(keyIndex: nat, rowIndex: nat): (r: Result<string, CsvError>)
      reads this
      requires Valid()
      ensures r.Success? <==> rowIndex < GetRowLength() && keySet.Some? && keyIndex < |keySet.value|
      ensures r.Success? ==> r.value == keyValueRows[rowIndex][keyIndex]
      ensures r.Failure? ==> r.error == IndexOutOfBound
    {
      if rowIndex >= |keyValueRows| || keyIndex >= |keySet.value| then Failure(IndexOutOfBound)
      else Success(keyValueRows[rowIndex][keyIndex])
    }

    /** Linear search of the key-set for the first entry equal to `key`. */
    method GetKeyIndex(key: string) returns (r: Result<nat, CsvError>)
      requires keySet.Some?
      ensures r.Failure? <==> !HasKey(key)
      ensures r.Failure? ==> r.error == KeyNotFound
      ensures r.Success? ==> r.value < GetKeySetLength() && GetKeySet().value[r.value] == key
      ensures r.Success? ==> forall j :: 0 <= j < r.value ==> GetKeySet().value[j] != key
      ensures r.Success? ==> FirstIndexOf(GetKeySet().value, key) == Some(r.value)
    {
      var keys := keySet.value;
      var i := 0;
      while i < |keys|
        invariant 0 <= i <= |keys|
        invariant forall j :: 0 <= j < i ==> keys[j] != key
      {
        if keys[i] == key {
          return Success(i);
        }
        i := i + 1;
      }
      return Failure(KeyNotFound);
    }

    /**
      The value in row `rowIndex` under the key named `key`: the row bound is
      tested before the key is looked up.
     */
    method GetValueByKey(key: string, rowIndex: nat) returns (r: Result<string, CsvError>)
      requires Valid()
      ensures rowIndex >= GetRowLength() ==> r == Failure(IndexOutOfBound)
      ensures rowIndex < GetRowLength() && !HasKey(key) ==> r == Failure(KeyNotFound)
      ensures rowIndex < GetRowLength() && HasKey(key) ==>
                r == GetValueByIndex(FirstIndexOf(keySet.value, key).value, rowIndex)
    {
      if rowIndex >= |keyValueRows| {
        return Failure(IndexOutOfBound);
      }
      var k := GetKeyIndex(key);
      if k.Failure? {
        return Failure(k.error);
      }
      return Success(keyValueRows[rowIndex][k.value]);
    }

    /** The column under key index `keyIndex`, one value per row in row order. */
    method GetAllValuesByKeyIndex(keyIndex: nat) returns (r: Result<seq<string>, CsvError>)
      requires Ready()
      ensures r.Failure? <==> keyIndex >= GetKeySetLength()
      ensures r.Failure? ==> r.error == IndexOutOfBound
      ensures r.Success? ==> |r.value| == GetRowLength()
      ensures r.Success? ==> forall j :: 0 <= j < |r.value| ==> GetValueByIndex(keyIndex, j) == Success(r.value[j])
    {
      if keyIndex >= |keySet.value| {
        return Failure(IndexOutOfBound);
      }
      var values: seq<string> := [];
      var j := 0;
      while j < |keyValueRows|
        invariant 0 <= j <= |keyValueRows|
        invariant |values| == j
        invariant forall m :: 0 <= m < j ==> values[m] == keyValueRows[m][keyIndex]
      {
        values := values + [keyValueRows[j][keyIndex]];
        j := j + 1;
      }
      return Success(values);
    }

    /** The column under the key named `key`, one value per row in row order. */
    method GetAllValuesByKey(key: string) returns (r: Result<seq<string>, CsvError>)
      requires Ready()
      ensures r.Failure? <==> !HasKey(key)
      ensures r.Failure? ==> r.error == KeyNotFound
      ensures r.Success? ==> |r.value| == GetRowLength()
      ensures r.Success? ==> forall j :: 0 <= j < |r.value| ==>
                r.value[j] == keyValueRows[j][FirstIndexOf(keySet.value, key).value]
    {
      var k := GetKeyIndex(key);
      if k.Failure? {
        return Failure(k.error);
      }
      r := GetAllValuesByKeyIndex(k.value);
    }

    /** Whether some key-set entry equals `key`. */
    method IsKeyPresent(key: string) returns (b: bool)
      requires keySet.Some?
      ensures b <==> key in GetKeySet().value
      ensures b <==> FirstIndexOf(GetKeySet().value, key).Some?
    {
      var keys := keySet.value;
      var i := 0;
      while i < |keys|
        invariant 0 <= i <= |keys|
        invariant forall j :: 0 <= j < i ==> keys[j] != key
      {
        if keys[i] == key {
          return true;
        }
        i := i + 1;
      }
      return false;
    }

    /**
      Whether every element of `keys` is present; the key-set is consulted only
      when `keys` is non-empty.
     */
    method IsKeysPresent(keys: seq<string>) returns (b: bool)
      requires keys != [] ==> keySet.Some?
      ensures b <==> forall i :: 0 <= i < |keys| ==> HasKey(keys[i])
    {
      var i := 0;
      while i < |keys|
        invariant 0 <= i <= |keys|
        invariant forall j :: 0 <= j < i ==> HasKey(keys[j])
      {
        var present := IsKeyPresent(keys[i]);
        if !present {
          return false;
        }
        i := i + 1;
      }
      return true;
    }

    /** How the size getters relate, and the row-length invariant as the getters report it. */
    lemma Sizes()
      requires Ready()
      ensures GetKeySetLength() == GetColumnLength() == |GetKeySet().value|
      ensures GetAllRowLength() == GetRowLength() + 1 == |GetAll()|
      ensures |GetAllValues()| == GetRowLength()
      ensures forall i :: 0 <= i < GetRowLength() ==> |GetAllValues()[i]| == GetColumnLength()
    {
    }

    /** Looking a key up by name and reading it back by index returns the name. */
    lemma KeyRoundTrip(key: string)
      requires keySet.Some?
      requires HasKey(key)
      ensures GetKey(FirstIndexOf(GetKeySet().value, key).value) == Success(key)
    {
    }
  }
}
