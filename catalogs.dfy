/**
 * The schema lookups the dump engine makes against the live database:
 * a table's foreign-key targets (getTableDeps, dump/dump.go:279-301) and its
 * live column list (getTableCols, dump/dump.go:253-277). The SQL itself is
 * not part of this model; the catalog is a finite table of answers, and a
 * name it has no answer for fails the way the `?::regclass` cast does.
 */
module Catalogs {
  import opened Wrappers

  datatype Error =
    | NoSuchRelation(name: string)   // the name does not resolve to a table
    | Reported(message: string)      // any other failure of a collaborator

  /** `deps[t]` lists t's foreign-key targets in catalog order, one per
      constraint (so a target may repeat); `cols[t]` lists t's live columns. */
  datatype Catalog = Catalog(
    deps: map<string, Result<seq<string>, Error>>,
    cols: map<string, Result<seq<string>, Error>>)

  function TableDeps(c: Catalog, table: string): Result<seq<string>, Error>
  {
    if table in c.deps then c.deps[table] else Err(NoSuchRelation(table))
  }

  function TableCols(c: Catalog, table: string): Result<seq<string>, Error>
  {
    if table in c.cols then c.cols[table] else Err(NoSuchRelation(table))
  }

  /** Every name the catalog gives as a foreign-key target. */
  ghost function Referenced(c: Catalog): set<string>
  {
    set k, d | k in c.deps && c.deps[k].Ok? && d in c.deps[k].value :: d
  }

  lemma DepsReferenced(c: Catalog, table: string)
    requires TableDeps(c, table).Ok?
    ensures forall d :: d in TableDeps(c, table).value ==> d in Referenced(c)
  {
  }
}
