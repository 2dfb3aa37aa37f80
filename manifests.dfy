/**
 * The decoded manifest: template variables and an ordered list of per-table
 * entries (dump/dump.go:57-67). Reading and decoding the YAML file is not
 * part of this model; a Manifest value is taken as given.
 */
module Manifests {

  /** One `tables:` entry. An empty `query` means "the whole table"; an empty
      `columns` means "ask the catalog". */
  datatype ManifestItem = ManifestItem(
    table: string,
    query: string,
    columns: seq<string>,
    postActions: seq<string>)

  datatype Manifest = Manifest(vars: map<string, string>, tables: seq<ManifestItem>)

  /** The entry synthesised for a referenced table the manifest does not name. */
  function DefaultItem(table: string): ManifestItem
  {
    ManifestItem(table, "", [], [])
  }

  /** The table names of a list of entries, in list order. */
  function Names(items: seq<ManifestItem>): (r: seq<string>)
    ensures |r| == |items|
    ensures forall i :: 0 <= i < |items| ==> r[i] == items[i].table
  {
    if items == [] then [] else [items[0].table] + Names(items[1..])
  }

  /** The entries keyed by table name, filled in list order, so that a later
      entry for the same name replaces an earlier one. */
  function Index(items: seq<ManifestItem>): (r: map<string, ManifestItem>)
    ensures forall t :: t in r ==> r[t].table == t
  {
    if items == [] then map[]
    else Index(items[..|items| - 1])[items[|items| - 1].table := items[|items| - 1]]
  }

  /** The entry the resolver hands out for `table`: the manifest's own (the
      last one of that name) or the synthetic default. */
  function Entry(m: Manifest, table: string): (r: ManifestItem)
    ensures r.table == table
  {
    var index := Index(m.tables);
    if table in index then index[table] else DefaultItem(table)
  }

  /** A name is a key of Index exactly when some entry carries it, and its
      value is the LAST entry carrying it. */
  lemma {:induction false} IndexLastWins(items: seq<ManifestItem>, t: string)
    ensures t in Index(items) <==> t in Names(items)
    ensures t in Index(items) ==> exists i :: LastOf(items, t, i) && items[i] == Index(items)[t]
  {
    if items != [] {
      var n := |items| - 1;
      var front := items[..n];
      IndexLastWins(front, t);
      assert items == front + [items[n]];
      NamesAppend(front, [items[n]]);
      if t == items[n].table {
        assert items[n] == Index(items)[t];
        assert LastOf(items, t, n);
      } else if t in Index(items) {
        var i :| LastOf(front, t, i) && front[i] == Index(front)[t];
        assert items[i] == Index(items)[t];
        forall j | i < j < |items| ensures items[j].table != t {
          if j < n {
            assert items[j] == front[j];
          }
        }
        assert LastOf(items, t, i);
      }
    }
  }

  /** items[i] is the last entry named t. */
  ghost predicate LastOf(items: seq<ManifestItem>, t: string, i: int)
  {
    0 <= i < |items| && items[i].table == t && forall j :: i < j < |items| ==> items[j].table != t
  }

  lemma {:induction false} NamesAppend(a: seq<ManifestItem>, b: seq<ManifestItem>)
    ensures Names(a + b) == Names(a) + Names(b)
  {
    assert forall i :: 0 <= i < |a + b| ==> Names(a + b)[i] == (Names(a) + Names(b))[i];
  }
}
