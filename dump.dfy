/**
 * MakeDump (dump/dump.go:77-125): drives the iterator and writes the
 * preamble, one block per returned item, and the postamble, stopping at
 * the first failure. The writer is the sequence of strings written to it.
 */
module Dump {
  import opened Wrappers
  import opened Manifests
  import opened Catalogs
  import opened Resolver
  import opened Framing

  /** What the database's COPY streaming wrote before it finished, and the
      failure that stopped it, if any. */
  datatype Copied = Copied(data: string, failure: Option<Error>)

  /** The collaborators MakeDump uses: the catalog lookups, the template
      engine (mustache.Render) and the COPY streaming (db.CopyTo). */
  datatype Env = Env(
    catalog: Catalog,
    render: (string, map<string, string>) -> Result<string, Error>,
    copyTo: string -> Copied)

  datatype Status = Completed | Aborted(error: Error) | OutOfFuel

  /** The header's columns: the entry's own if it lists any, else the
      catalog's. */
  function Columns(env: Env, item: ManifestItem): Result<seq<string>, Error>
  {
    if |item.columns| > 0 then Ok(item.columns) else TableCols(env.catalog, item.table)
  }

  /** What COPY reads: the bare table, or the rendered query in
      parentheses. */
  function Relation(env: Env, vars: map<string, string>, item: ManifestItem): Result<string, Error>
  {
    if item.query == "" then Ok(item.table)
    else match env.render(item.query, vars)
      case Ok(query) => Ok("(" + query + ")")
      case Err(e) => Err(e)
  }

  function SqlCmds(statements: seq<string>): (r: seq<string>)
    ensures |r| == |statements|
    ensures forall i :: 0 <= i < |statements| ==> r[i] == SqlCmd(statements[i])
  {
    if statements == [] then [] else [SqlCmd(statements[0])] + SqlCmds(statements[1..])
  }

  /** The writes for one item, and the failure that cut them short. */
  function Block(env: Env, vars: map<string, string>, item: ManifestItem): (seq<string>, Option<Error>)
  {
    match Columns(env, item)
    case Err(e) => ([], Some(e))
    case Ok(columns) =>
      var header := TableHeader(item.table, columns);
      match Relation(env, vars, item)
      case Err(e) => ([header], Some(e))
      case Ok(relation) =>
        var copied := env.copyTo(CopyCommand(relation));
        if copied.failure.Some? then ([header, copied.data], copied.failure)
        else ([header, copied.data, EndTableDump] + SqlCmds(item.postActions), None)
  }

  /** What one item's block writes, and the failure that cut it short. */
  type Writer = ManifestItem -> (seq<string>, Option<Error>)

  function Writes(env: Env, vars: map<string, string>): Writer
  {
    item => Block(env, vars, item)
  }

  /** The writes for a run of items, up to and including the first block
      that fails. */
  function Blocks(write: Writer, items: seq<ManifestItem>): (seq<string>, Option<Error>)
  {
    if items == [] then ([], None)
    else
      var (body, failure) := Blocks(write, items[..|items| - 1]);
      if failure.Some? then (body, failure)
      else
        var (chunks, failure') := write(items[|items| - 1]);
        (body + chunks, failure')
  }

  /** Reference definition: every block's writes, one after the other. */
  function Concat(write: Writer, items: seq<ManifestItem>): seq<string>
  {
    if items == [] then [] else write(items[0]).0 + Concat(write, items[1..])
  }

  /** The writer's contents and the outcome of a dump. */
  function Dump(env: Env, m: Manifest, fuel: nat): (seq<string>, Status)
  {
    var (items, last) := Drain(env.catalog, Initial(m), fuel);
    var (body, failure) := Blocks(Writes(env, m.vars), items);
    if failure.Some? then ([BeginDump] + body, Aborted(failure.value))
    else if last.End? then ([BeginDump] + body + [EndDump], Completed)
    else if last.Fail? then ([BeginDump] + body, Aborted(last.error))
    else ([BeginDump] + body, Status.OutOfFuel)
  }

  method MakeDump(env: Env, m: Manifest, fuel: nat) returns (out: seq<string>, status: Status)
    ensures (out, status) == Dump(env, m, fuel)
  {
    out := [BeginDump];
    var it := new ManifestIterator(env.catalog, m);
    ghost var emitted: seq<ManifestItem> := [];
    assert it.State() == Initial(m);
    MidwayStart(env, m, fuel);
    while true
      invariant it.catalog == env.catalog
      invariant Midway(env, m, fuel, it.State(), emitted, out)
      decreases Remaining(env.catalog, it.State())
    {
      ghost var s := it.State();
      var v := it.Next(fuel);
      if !v.Item? {
        MidwayStop(env, m, fuel, s, emitted, out);
        if v.Fail? {
          return out, Aborted(v.error);
        } else if v.OutOfFuel? {
          return out, Status.OutOfFuel;
        }
        break;
      }
      DrainItem(env.catalog, s, fuel);
      AdvanceProgress(env.catalog, s, fuel);
      ghost var start := out;
      var failure;
      out, failure := WriteTable(env, m.vars, v.item, out);
      if failure.Some? {
        MidwayFail(env, m, fuel, s, it.State(), v.item, emitted, start);
        return out, Aborted(failure.value);
      }
      MidwayItem(env, m, fuel, s, it.State(), v.item, emitted, start);
      emitted := emitted + [v.item];
    }
    out := out + [EndDump];
    status := Completed;
  }

  /** MakeDump's loop invariant: the run so far emitted `emitted`, the rest
      of the run is what the iterator in state `s` still returns, and the
      writer holds the preamble and the blocks of the emitted items. */
  ghost predicate Midway(env: Env, m: Manifest, fuel: nat, s: Iter,
                         emitted: seq<ManifestItem>, out: seq<string>)
  {
    && Valid(s)
    && Drain(env.catalog, Initial(m), fuel) ==
       (emitted + Drain(env.catalog, s, fuel).0, Drain(env.catalog, s, fuel).1)
    && |out| >= 1 && out[0] == BeginDump
    && Blocks(Writes(env, m.vars), emitted) == (out[1..], None)
  }

  lemma MidwayStart(env: Env, m: Manifest, fuel: nat)
    ensures Midway(env, m, fuel, Initial(m), [], [BeginDump])
  {
    var run := Drain(env.catalog, Initial(m), fuel);
    assert run.0 == [] + run.0;
    assert [BeginDump][1..] == [];
  }

  /** When Next returns no item the dump is over: the postamble follows End,
      a failure is reported, nothing else is written. */
  lemma MidwayStop(env: Env, m: Manifest, fuel: nat, s: Iter,
                   emitted: seq<ManifestItem>, out: seq<string>)
    requires Midway(env, m, fuel, s, emitted, out)
    requires !Advance(env.catalog, s, fuel).0.Item?
    ensures var v := Advance(env.catalog, s, fuel).0;
      Dump(env, m, fuel) ==
        if v.End? then (out + [EndDump], Completed)
        else if v.Fail? then (out, Aborted(v.error))
        else (out, Status.OutOfFuel)
  {
    var v := Advance(env.catalog, s, fuel).0;
    DrainStops(env.catalog, s, fuel);
    assert Drain(env.catalog, Initial(m), fuel) == (emitted, v) by {
      assert emitted + [] == emitted;
    }
    DumpEnds(env, m, fuel, out[1..], v);
    First(out);
  }

  /** When Next returns an item whose block succeeds, the invariant holds
      for the iterator's new state with that item emitted. */
  lemma MidwayItem(env: Env, m: Manifest, fuel: nat, s: Iter, s': Iter, item: ManifestItem,
                   emitted: seq<ManifestItem>, out: seq<string>)
    requires Midway(env, m, fuel, s, emitted, out) && Valid(s')
    requires Drain(env.catalog, s, fuel) ==
      ([item] + Drain(env.catalog, s', fuel).0, Drain(env.catalog, s', fuel).1)
    requires Block(env, m.vars, item).1.None?
    ensures Midway(env, m, fuel, s', emitted + [item], out + Block(env, m.vars, item).0)
  {
    var rest := Drain(env.catalog, s', fuel).0;
    Regroup(emitted, item, rest);
    var chunks := Block(env, m.vars, item).0;
    BlocksSnoc(Writes(env, m.vars), emitted, item);
    AfterFirst(out, chunks);
  }

  /** When Next returns an item whose block fails, the dump ends there with
      that failure. */
  lemma MidwayFail(env: Env, m: Manifest, fuel: nat, s: Iter, s': Iter, item: ManifestItem,
                   emitted: seq<ManifestItem>, out: seq<string>)
    requires Midway(env, m, fuel, s, emitted, out) && Valid(s')
    requires Drain(env.catalog, s, fuel) ==
      ([item] + Drain(env.catalog, s', fuel).0, Drain(env.catalog, s', fuel).1)
    requires Block(env, m.vars, item).1.Some?
    ensures Dump(env, m, fuel) == (out + Block(env, m.vars, item).0, Aborted(Block(env, m.vars, item).1.value))
  {
    var rest := Drain(env.catalog, s', fuel).0;
    var items := emitted + [item];
    Regroup(emitted, item, rest);
    var chunks := Block(env, m.vars, item).0;
    BlocksSnoc(Writes(env, m.vars), emitted, item);
    BlocksStop(Writes(env, m.vars), items, rest);
    AfterFirst(out, chunks);
    DumpAborts(env, m, fuel, (out + chunks)[1..], Block(env, m.vars, item).1.value);
    First(out + chunks);
  }

  lemma Regroup<T>(a: seq<T>, x: T, b: seq<T>)
    ensures a + ([x] + b) == (a + [x]) + b
  {
  }

  lemma AfterFirst<T>(a: seq<T>, b: seq<T>)
    requires |a| >= 1
    ensures (a + b)[1..] == a[1..] + b
  {
  }

  /** Dump when every block of the run succeeds: read off how the run
      ended. */
  lemma DumpEnds(env: Env, m: Manifest, fuel: nat, body: seq<string>, last: NextResult)
    requires Drain(env.catalog, Initial(m), fuel).1 == last
    requires Blocks(Writes(env, m.vars), Drain(env.catalog, Initial(m), fuel).0) == (body, None)
    ensures Dump(env, m, fuel) ==
      if last.End? then ([BeginDump] + body + [EndDump], Completed)
      else if last.Fail? then ([BeginDump] + body, Aborted(last.error))
      else ([BeginDump] + body, Status.OutOfFuel)
  {
  }

  /** Dump when a block of the run fails. */
  lemma DumpAborts(env: Env, m: Manifest, fuel: nat, body: seq<string>, e: Error)
    requires Blocks(Writes(env, m.vars), Drain(env.catalog, Initial(m), fuel).0) == (body, Some(e))
    ensures Dump(env, m, fuel) == ([BeginDump] + body, Aborted(e))
  {
  }

  /** A non-empty sequence is its first element followed by the rest. */
  lemma First<T>(a: seq<T>)
    requires |a| >= 1
    ensures a == [a[0]] + a[1..]
  {
  }

  /** One pass of MakeDump's loop body for a returned item: the columns,
      beginTable, dumpTable on the table or the rendered query, endTable and
      the post-actions, stopping at the first failure. */
  method WriteTable(env: Env, vars: map<string, string>, item: ManifestItem, w: seq<string>)
    returns (out: seq<string>, failure: Option<Error>)
    ensures (out, failure) == (w + Block(env, vars, item).0, Block(env, vars, item).1)
  {
    out := w;
    var columns := item.columns;
    if |columns| == 0 {
      var found := TableCols(env.catalog, item.table);
      if found.Err? {
        assert out == w + [];
        return out, Some(found.error);
      }
      columns := found.value;
    }
    assert Columns(env, item) == Ok(columns);
    var header := BeginTable(item.table, columns);
    out := out + [header];
    var relation := item.table;
    if item.query != "" {
      var query := env.render(item.query, vars);
      if query.Err? {
        assert Relation(env, vars, item) == Err(query.error);
        return out, Some(query.error);
      }
      relation := "(" + query.value + ")";
    }
    assert Relation(env, vars, item) == Ok(relation);
    // dumpTable
    var copied := env.copyTo(CopyCommand(relation));
    out := out + [copied.data];
    assert out == w + [header, copied.data];
    if copied.failure.Some? {
      return out, copied.failure;
    }
    out := out + [EndTableDump];
    out := WritePostActions(item.postActions, out);
    assert out == w + ([header, copied.data, EndTableDump] + SqlCmds(item.postActions));
    return out, None;
  }

  /** The post-actions loop: each statement framed by dumpSqlCmd, in order. */
  method WritePostActions(statements: seq<string>, w: seq<string>) returns (out: seq<string>)
    ensures out == w + SqlCmds(statements)
  {
    out := w;
    var k := 0;
    while k < |statements|
      invariant 0 <= k <= |statements|
      invariant out == w + SqlCmds(statements[..k])
    {
      assert statements[..k + 1] == statements[..k] + [statements[k]];
      SqlCmdsSnoc(statements[..k], statements[k]);
      out := out + [SqlCmd(statements[k])];
      k := k + 1;
    }
    assert statements[..k] == statements;
  }

  lemma BlocksSnoc(write: Writer, items: seq<ManifestItem>, item: ManifestItem)
    requires Blocks(write, items).1.None?
    ensures Blocks(write, items + [item]) ==
      (Blocks(write, items).0 + write(item).0, write(item).1)
  {
    assert (items + [item])[..|items|] == items;
  }

  lemma SqlCmdsSnoc(statements: seq<string>, s: string)
    ensures SqlCmds(statements + [s]) == SqlCmds(statements) + [SqlCmd(s)]
  {
    assert forall i :: 0 <= i < |statements| + 1 ==>
      SqlCmds(statements + [s])[i] == (SqlCmds(statements) + [SqlCmd(s)])[i];
  }

  /** Once a block fails nothing more is written: later items add nothing
      and the failure stays the first one. */
  lemma {:induction false} BlocksStop(write: Writer, items: seq<ManifestItem>, more: seq<ManifestItem>)
    requires Blocks(write, items).1.Some?
    ensures Blocks(write, items + more) == Blocks(write, items)
    decreases |more|
  {
    if more != [] {
      var n := |more| - 1;
      assert items + more == (items + more[..n]) + [more[n]];
      assert (items + more)[..|items + more| - 1] == items + more[..n];
      BlocksStop(write, items, more[..n]);
    } else {
      assert items + more == items;
    }
  }

  lemma {:induction false} ConcatSnoc(write: Writer, items: seq<ManifestItem>, item: ManifestItem)
    ensures Concat(write, items + [item]) == Concat(write, items) + write(item).0
    decreases |items|
  {
    if items == [] {
      assert [] + [item] == [item];
      assert [item][1..] == [];
    } else {
      assert (items + [item])[1..] == items[1..] + [item];
      ConcatSnoc(write, items[1..], item);
    }
  }

  /** The blocks of a run succeed together exactly when each one does. */
  lemma BlocksAllOk(write: Writer, items: seq<ManifestItem>)
    ensures Blocks(write, items).1.None? <==>
      forall i :: 0 <= i < |items| ==> write(items[i]).1.None?
  {
    if Blocks(write, items).1.None? {
      BlocksOkEach(write, items);
    } else {
      BlocksFailOne(write, items);
    }
  }

  lemma BlocksOkEach(write: Writer, items: seq<ManifestItem>)
    requires Blocks(write, items).1.None?
    ensures forall i :: 0 <= i < |items| ==> write(items[i]).1.None?
  {
    forall i | 0 <= i < |items| ensures write(items[i]).1.None? {
      BlocksOkAt(write, items, i);
    }
  }

  lemma {:induction false} BlocksOkAt(write: Writer, items: seq<ManifestItem>, i: nat)
    requires Blocks(write, items).1.None? && i < |items|
    ensures write(items[i]).1.None?
    decreases |items|
  {
    var n := |items| - 1;
    var front := items[..n];
    assert Blocks(write, front).1.None?;
    if i < n {
      BlocksOkAt(write, front, i);
      assert items[i] == front[i];
    }
  }

  lemma {:induction false} BlocksFailOne(write: Writer, items: seq<ManifestItem>)
    requires Blocks(write, items).1.Some?
    ensures exists i :: 0 <= i < |items| && write(items[i]).1.Some?
    decreases |items|
  {
    var n := |items| - 1;
    var front := items[..n];
    if Blocks(write, front).1.Some? {
      BlocksFailOne(write, front);
      var i :| 0 <= i < |front| && write(front[i]).1.Some?;
      assert items[i] == front[i];
    } else {
      assert write(items[n]).1.Some?;
    }
  }

  /** When no block fails the writer holds every block, in order. */
  lemma {:induction false} BlocksConcat(write: Writer, items: seq<ManifestItem>)
    requires Blocks(write, items).1.None?
    ensures Blocks(write, items).0 == Concat(write, items)
    decreases |items|
  {
    if items != [] {
      var n := |items| - 1;
      var front := items[..n];
      assert items == front + [items[n]];
      BlocksConcat(write, front);
      BlocksSnoc(write, front, items[n]);
      ConcatSnoc(write, front, items[n]);
    }
  }

  /** A dump completes exactly when the run ends with End and every block
      succeeds; the writer then holds the preamble, every returned item's
      block in the order Next returned them, and the postamble. Otherwise
      the postamble is never written. */
  lemma DumpCompleted(env: Env, m: Manifest, fuel: nat)
    ensures var (items, last) := Drain(env.catalog, Initial(m), fuel);
      var (out, status) := Dump(env, m, fuel);
      && (status.Completed? <==>
            last.End? && forall i :: 0 <= i < |items| ==> Block(env, m.vars, items[i]).1.None?)
      && (status.Completed? ==> out == [BeginDump] + Concat(Writes(env, m.vars), items) + [EndDump])
      && (!status.Completed? ==> out == [BeginDump] + Blocks(Writes(env, m.vars), items).0)
  {
    var items := Drain(env.catalog, Initial(m), fuel).0;
    BlocksAllOk(Writes(env, m.vars), items);
    if Blocks(Writes(env, m.vars), items).1.None? {
      BlocksConcat(Writes(env, m.vars), items);
    }
  }
}
