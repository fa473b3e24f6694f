/** Cells, records and natural keys: the vocabulary shared by ingestion and the warehouse. */
module Frames {

  datatype Option<+T> = None | Some(value: T)

  datatype Cell = Null | Boolean(flag: bool) | Number(value: real) | Text(text: string)

  /** One row of a frame, by column name. */
  type Record = map<string, Cell>

  type Key = seq<Cell>

  function Get(record: Record, column: string): Cell {
    if column in record then record[column] else Null
  }

  /** The natural key of a record: its values in the destination's ORDER BY columns. */
  function KeyOf(record: Record, keyColumns: seq<string>): Key {
    seq(|keyColumns|, i requires 0 <= i < |keyColumns| => Get(record, keyColumns[i]))
  }

  ghost predicate UniqueKeys(rows: seq<Record>, keyColumns: seq<string>) {
    forall i, j :: 0 <= i < j < |rows| ==> KeyOf(rows[i], keyColumns) != KeyOf(rows[j], keyColumns)
  }

  /** The records have the same cells in all of these columns. */
  predicate AgreeOn(a: Record, b: Record, columns: seq<string>) {
    forall c | c in columns :: Get(a, c) == Get(b, c)
  }

  /** Records share a natural key exactly when they agree in every key column. */
  lemma SameKeyIffAgree(a: Record, b: Record, keyColumns: seq<string>)
    ensures KeyOf(a, keyColumns) == KeyOf(b, keyColumns) <==> AgreeOn(a, b, keyColumns)
  {
    if KeyOf(a, keyColumns) == KeyOf(b, keyColumns) {
      forall c | c in keyColumns ensures Get(a, c) == Get(b, c) {
        var i :| 0 <= i < |keyColumns| && keyColumns[i] == c;
        assert KeyOf(a, keyColumns)[i] == KeyOf(b, keyColumns)[i];
      }
    }
  }

  /** No two rows agree in every key column. */
  ghost predicate NoTwoAgree(rows: seq<Record>, keyColumns: seq<string>) {
    forall i, j | 0 <= i < j < |rows| :: !AgreeOn(rows[i], rows[j], keyColumns)
  }

  lemma UniqueIffNoTwoAgree(rows: seq<Record>, keyColumns: seq<string>)
    ensures UniqueKeys(rows, keyColumns) <==> NoTwoAgree(rows, keyColumns)
  {
    forall i, j | 0 <= i < |rows| && 0 <= j < |rows|
      ensures KeyOf(rows[i], keyColumns) == KeyOf(rows[j], keyColumns) <==> AgreeOn(rows[i], rows[j], keyColumns)
    {
      SameKeyIffAgree(rows[i], rows[j], keyColumns);
    }
  }
}
