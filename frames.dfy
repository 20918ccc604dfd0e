/** A pandas DataFrame, reduced to what the pipelines use: named columns of cells. */
module Frames {
  import opened Pipeline

  /** Every column has the same number of rows. */
  predicate Rectangular(columns: map<string, seq<Value>>) {
    forall a, b :: a in columns && b in columns ==> |columns[a]| == |columns[b]|
  }

  /** The message of the ValueError raised for a missing text column. */
  function MissingColumn(name: string): string {
    "Column '" + name + "' not found in dataframe"
  }

  class DataFrame {
    var columns: map<string, seq<Value>>

    constructor (columns: map<string, seq<Value>>)
      ensures this.columns == columns
    {
      this.columns := columns;
    }

    /** A copy of the frame: a new object with the same columns. */
    method Copy() returns (r: DataFrame)
      ensures fresh(r) && r.columns == columns
    {
      r := new DataFrame(columns);
    }
  }

  /** Adding a column computed row by row keeps the frame rectangular. */
  lemma {:induction false} AddColumnRectangular(columns: map<string, seq<Value>>, source: string, target: string,
                                                column: seq<Value>)
    requires Rectangular(columns) && source in columns && |column| == |columns[source]|
    ensures Rectangular(columns[target := column])
  {
    var m := columns[target := column];
    forall a, b | a in m && b in m ensures |m[a]| == |m[b]| {
      assert |m[a]| == |columns[source]| && |m[b]| == |columns[source]|;
    }
  }
}
