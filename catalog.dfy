/** Catalog records the planner reads: tables, their columns and indexes, and the export connector. */
module Catalog {
  import opened Common

  /** A catalog column. `defaultType` is 0 when the column has no default; otherwise it is the
      VoltType code of the default value `defaultValue`. `defaultCall` is the "name:id" reading of
      `defaultValue` when that text is neither a number nor a timestamp literal, i.e. when a
      timestamp default names a SQL function. */
  datatype Column = Column(
    name: string,
    vtype: int,
    size: int,
    nullable: bool,
    defaultType: int,
    defaultValue: string,
    defaultCall: Option<(string, int)>)

  datatype Index = Index(name: string, columns: seq<string>)

  /** A catalog table; `columns` is sorted by column index. */
  datatype Table = Table(
    name: string,
    isView: bool,
    isReplicated: bool,
    partitionColumn: Option<string>,
    columns: seq<Column>,
    indexes: seq<Index>)

  /** One table entry of the export connector. */
  datatype ConnectorTableInfo = ConnectorTableInfo(appendOnly: bool, tableName: string)

  function UpperAscii(c: char): char {
    if 'a' <= c <= 'z' then (c as int - 32) as char else c
  }

  /** `String.equalsIgnoreCase`, for ASCII letters. */
  predicate EqualsIgnoreCase(a: string, b: string) {
    |a| == |b| && forall i :: 0 <= i < |a| ==> UpperAscii(a[i]) == UpperAscii(b[i])
  }

  /** `tableListIncludesView`: does the statement touch a materialized view? */
  method TableListIncludesView(tables: seq<Table>) returns (r: bool)
    ensures r <==> exists i :: 0 <= i < |tables| && tables[i].isView
  {
    for i := 0 to |tables|
      invariant forall k :: 0 <= k < i ==> !tables[k].isView
    {
      if tables[i].isView {
        return true;
      }
    }
    return false;
  }

  /** Is `t` an append-only (export) table of the connector `infos`? */
  ghost predicate IsExportOnly(t: Table, infos: seq<ConnectorTableInfo>) {
    exists j :: 0 <= j < |infos| && infos[j].appendOnly && EqualsIgnoreCase(infos[j].tableName, t.name)
  }

  /** `tableListIncludesExportOnly`; `connector` is the well-known connector "0", if any. */
  method TableListIncludesExportOnly(tables: seq<Table>, connector: Option<seq<ConnectorTableInfo>>)
    returns (r: bool)
    ensures r <==> connector.Some? && exists i :: 0 <= i < |tables| && IsExportOnly(tables[i], connector.value)
  {
    if connector.None? {
      return false;
    }
    var infos := connector.value;
    for i := 0 to |tables|
      invariant forall k :: 0 <= k < i ==> !IsExportOnly(tables[k], infos)
    {
      for j := 0 to |infos|
        invariant forall m :: 0 <= m < j ==> !(infos[m].appendOnly && EqualsIgnoreCase(infos[m].tableName, tables[i].name))
      {
        if infos[j].appendOnly && EqualsIgnoreCase(infos[j].tableName, tables[i].name) {
          return true;
        }
      }
    }
    return false;
  }

  /** `getIndexedColumnSetForTable`: the names of the columns that some index of `t` covers. */
  method IndexedColumnSetForTable(t: Table) returns (cols: set<string>)
    ensures forall c :: c in cols <==> exists i :: 0 <= i < |t.indexes| && c in t.indexes[i].columns
  {
    cols := {};
    for i := 0 to |t.indexes|
      invariant forall c :: c in cols <==> exists k :: 0 <= k < i && c in t.indexes[k].columns
    {
      var refs := t.indexes[i].columns;
      for j := 0 to |refs|
        invariant forall c :: c in cols <==>
          (exists k :: 0 <= k < i && c in t.indexes[k].columns) || c in refs[..j]
      {
        cols := cols + {refs[j]};
      }
      assert refs[..|refs|] == refs;
    }
  }
}
