/**
 * The part of the dataframe collaborator that stepwise regression relies on:
 * the set of feature (X) column keys, deep copy, in-place column removal,
 * the feature-column count and disposal. Rows, values and storage are not
 * modelled.
 */
module Dataframes {

  /** A column key. `Constant` is the reserved intercept column key of the
      dataframe; every other key names a feature column. */
  datatype Key = Constant | Column(name: string)

  class Dataframe {
    /** The feature (X) column keys currently present. */
    var xColumns: set<Key>
    /** True once the dataframe's backing storage has been released. */
    var deleted: bool

    constructor (xColumns: set<Key>)
      ensures this.xColumns == xColumns && !deleted
    {
      this.xColumns := xColumns;
      deleted := false;
    }

    /** A deep copy: a fresh dataframe with the same columns. */
    method Copy() returns (c: Dataframe)
      ensures fresh(c)
      ensures c.xColumns == xColumns && !c.deleted
    {
      c := new Dataframe(xColumns);
    }

    /** Removes the named feature columns in place. */
    method DropXColumns(columns: set<Key>)
      modifies this
      ensures xColumns == old(xColumns) - columns
      ensures deleted == old(deleted)
    {
      xColumns := xColumns - columns;
    }

    method XColumnSize() returns (n: nat)
      ensures n == |xColumns|
      ensures n == 0 <==> xColumns == {}
    {
      n := |xColumns|;
    }

    /** Releases the backing storage; the column set is left as it was. */
    method Delete()
      modifies this
      ensures deleted
      ensures xColumns == old(xColumns)
    {
      deleted := true;
    }
  }
}
