/**
  Clients of the row-store, mirroring the unit tests that build it from text.
  The rows are what the tokeniser yields for the test's CSV text: fields are
  split at commas and keep their surrounding spaces.
 */
module CsvIteratorTest {
  import opened Wrappers
  import opened Iterables

  /** The rows of "name, mail, phone" and its two value lines. */
  function SimpleRows(): seq<seq<string>>
  {
    [["name", " mail", " phone"],
     ["Nurujjaman Pollob", " nur@mail.com", " +880123456789"],
     ["John Doe", " john@mail.com ", " +880123456789"]]
  }

  /** The key-set has three entries; keys match exactly, with no trimming. */
  method FromStringKeySet()
  {
    assert RowsMatchKeySet(SimpleRows());
    var built := CsvToIterableObject.FromRows(SimpleRows());
    var t := built.value;
    assert t.GetKeySetLength() == 3;
    var name := t.GetKeyIndex("name");
    assert name == Success(0);
    var mail := t.GetKeyIndex("mail");
    assert " mail" != "mail";
    assert mail == Failure(KeyNotFound);
    var spaced := t.GetKeyIndex(" mail");
    assert spaced == Success(1);
  }

  /** Reading by key name resolves the name and then indexes the row. */
  method ValueByKeyName()
  {
    assert RowsMatchKeySet(SimpleRows());
    var built := CsvToIterableObject.FromRows(SimpleRows());
    var t := built.value;
    var v := t.GetValueByKey("name", 0);
    assert v == Success("Nurujjaman Pollob");
    var past := t.GetValueByKey("name", 2);
    assert past == Failure(IndexOutOfBound);
    var column := t.GetAllValuesByKey("name");
    assert |column.value| == 2;
  }

  /** A value line without commas is a one-field row, which construction rejects. */
  method RowLongerText()
  {
    var rows := SimpleRows() + [["Namemail@mail+1-123-456-7890Need a iOS App"]];
    assert |rows[3]| != |rows[0]|;
    var built := CsvToIterableObject.FromRows(rows);
    assert built == Failure(RowLengthMismatch);
  }
}
