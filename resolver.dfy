/**
 * The dependency resolver: ManifestIterator (dump/dump.go:69-75, 145-160,
 * 174-215). The pure part states one pass through the body of Next as Step
 * and a whole call to Next as Advance; the class ManifestIterator keeps the
 * source's three fields and is proved to follow them.
 *
 * Next re-enters itself until it can emit, ends or fails, and on a cycle of
 * foreign keys it never stops. The model gives every call a budget `fuel` of
 * re-entries; spending it yields OutOfFuel, where the source would go on.
 */
module Resolver {
  import opened Wrappers
  import opened Manifests
  import opened Catalogs

  /** The fields of a ManifestIterator that Next changes. */
  datatype Iter = Iter(
    todo: map<string, ManifestItem>,
    done: map<string, ManifestItem>,
    stack: seq<string>)

  /** The state NewManifestIterator builds. */
  function Initial(m: Manifest): Iter
  {
    Iter(Index(m.tables), map[], Names(m.tables))
  }

  // ---------------------------------------------------------------------
  // The loop over a table's dependencies (dump/dump.go:191-203)

  /** The loop over `deps`, run on a prefix: the new `todo` and the
      outstanding dependencies `todoDeps`. */
  function Expand(todo: map<string, ManifestItem>, done: map<string, ManifestItem>,
                  table: string, deps: seq<string>): (r: (map<string, ManifestItem>, seq<string>))
    ensures todo.Keys <= r.0.Keys
    ensures forall k :: k in todo ==> r.0[k] == todo[k]
    decreases |deps|
  {
    if deps == [] then (todo, [])
    else
      var (t, pending) := Expand(todo, done, table, deps[..|deps| - 1]);
      var dep := deps[|deps| - 1];
      var t' := if dep !in t && dep !in done then t[dep := DefaultItem(dep)] else t;
      (t', if dep in t' && table != dep then pending + [dep] else pending)
  }

  /** Reference definition: the synthetic entries for the dependencies found
      in neither map. */
  function Defaults(todo: map<string, ManifestItem>, done: map<string, ManifestItem>,
                    deps: seq<string>): map<string, ManifestItem>
  {
    map d | d in deps && d !in todo && d !in done :: DefaultItem(d)
  }

  /** Reference definition: `deps`, in order and with repeats, kept when the
      dependency is another table that is (or is about to be) in `todo`. */
  function Outstanding(todo: map<string, ManifestItem>, done: map<string, ManifestItem>,
                       table: string, deps: seq<string>): seq<string>
  {
    if deps == [] then []
    else
      (if deps[0] != table && (deps[0] in todo || deps[0] !in done) then [deps[0]] else [])
      + Outstanding(todo, done, table, deps[1..])
  }

  lemma {:induction false} OutstandingSnoc(todo: map<string, ManifestItem>, done: map<string, ManifestItem>,
                                           table: string, deps: seq<string>, d: string)
    ensures Outstanding(todo, done, table, deps + [d]) ==
      Outstanding(todo, done, table, deps)
      + (if d != table && (d in todo || d !in done) then [d] else [])
  {
    if deps != [] {
      assert (deps + [d])[1..] == deps[1..] + [d];
      OutstandingSnoc(todo, done, table, deps[1..], d);
    }
  }

  lemma {:induction false} OutstandingMembers(todo: map<string, ManifestItem>, done: map<string, ManifestItem>,
                                              table: string, deps: seq<string>)
    ensures forall d :: d in Outstanding(todo, done, table, deps) <==>
      d in deps && d != table && (d in todo || d !in done)
  {
    if deps != [] {
      OutstandingMembers(todo, done, table, deps[1..]);
      assert forall d :: d in deps <==> d == deps[0] || d in deps[1..];
    }
  }

  /** The dependency loop adds exactly the synthetic entries for unseen
      dependencies, and collects exactly the outstanding ones, in order. */
  lemma {:induction false} ExpandClosedForm(todo: map<string, ManifestItem>, done: map<string, ManifestItem>,
                                            table: string, deps: seq<string>)
    ensures Expand(todo, done, table, deps) ==
      (todo + Defaults(todo, done, deps), Outstanding(todo, done, table, deps))
  {
    if deps != [] {
      var n := |deps| - 1;
      var front, dep := deps[..n], deps[n];
      assert deps == front + [dep];
      ExpandClosedForm(todo, done, table, front);
      OutstandingSnoc(todo, done, table, front, dep);
      var t := todo + Defaults(todo, done, front);
      var t' := if dep !in t && dep !in done then t[dep := DefaultItem(dep)] else t;
      DefaultsSnoc(todo, done, front, dep);
      var pending := Outstanding(todo, done, table, front);
      assert Expand(todo, done, table, front) == (t, pending);
      assert Expand(todo, done, table, deps) ==
        (t', if dep in t' && table != dep then pending + [dep] else pending);
      assert dep in t' <==> dep in todo || dep !in done;
      assert t' == todo + Defaults(todo, done, deps);
      if dep != table && (dep in todo || dep !in done) {
        assert Outstanding(todo, done, table, deps) == pending + [dep];
      } else {
        assert Outstanding(todo, done, table, deps) == pending + [];
        assert pending + [] == pending;
      }
    } else {
      assert Defaults(todo, done, deps) == map[];
      assert todo + map[] == todo;
    }
  }

  lemma DefaultsSnoc(todo: map<string, ManifestItem>, done: map<string, ManifestItem>,
                     front: seq<string>, dep: string)
    ensures var t := todo + Defaults(todo, done, front);
      (if dep !in t && dep !in done then t[dep := DefaultItem(dep)] else t)
      == todo + Defaults(todo, done, front + [dep])
  {
    var t := todo + Defaults(todo, done, front);
    var t' := if dep !in t && dep !in done then t[dep := DefaultItem(dep)] else t;
    var want := todo + Defaults(todo, done, front + [dep]);
    assert forall k :: k in front + [dep] <==> k in front || k == dep;
    assert t'.Keys == want.Keys;
    assert forall k :: k in want ==> t'[k] == want[k];
  }

  // ---------------------------------------------------------------------
  // One pass through the body of Next (dump/dump.go:174-215)

  datatype Move =
    | Emitted(item: ManifestItem)   // the table is moved to done and returned
    | Ended                         // the stack was empty
    | Failed(error: Error)          // the dependency lookup failed
    | Skipped                       // the popped name was no longer in todo
    | Deferred                      // dependencies were pushed in front of the table

  function Step(c: Catalog, s: Iter): (Move, Iter)
  {
    if s.stack == [] then (Ended, s)
    else
      var table, rest := s.stack[0], s.stack[1..];
      if table !in s.todo then (Skipped, s.(stack := rest))
      else match TableDeps(c, table)
        case Err(e) => (Failed(e), s.(stack := rest))
        case Ok(deps) =>
          var (todo, pending) := Expand(s.todo, s.done, table, deps);
          if pending != [] then (Deferred, Iter(todo, s.done, pending + [table] + rest))
          else (Emitted(todo[table]), Iter(todo - {table}, s.done[table := todo[table]], rest))
  }

  // ---------------------------------------------------------------------
  // A whole call of Next

  datatype NextResult = Item(item: ManifestItem) | End | Fail(error: Error) | OutOfFuel

  /** Next, allowed `fuel` re-entries after a skipped or deferred name. */
  function Advance(c: Catalog, s: Iter, fuel: nat): (NextResult, Iter)
    decreases fuel
  {
    var (move, s') := Step(c, s);
    match move
    case Emitted(item) => (Item(item), s')
    case Ended => (End, s')
    case Failed(e) => (Fail(e), s')
    case _ => if fuel == 0 then (OutOfFuel, s') else Advance(c, s', fuel - 1)
  }

  // ---------------------------------------------------------------------
  // What one pass does

  /** `todo` and `done` never share a name, and every entry is filed under
      its own table name. */
  ghost predicate Valid(s: Iter)
  {
    && s.todo.Keys !! s.done.Keys
    && (forall k :: k in s.todo ==> s.todo[k].table == k)
    && (forall k :: k in s.done ==> s.done[k].table == k)
  }

  /** Every name still to do is somewhere on the stack. */
  ghost predicate Covered(s: Iter)
  {
    forall k :: k in s.todo ==> k in s.stack
  }

  /** The names the iterator has seen. */
  ghost function Known(s: Iter): set<string>
  {
    s.todo.Keys + s.done.Keys
  }

  /** The names a run may still emit; it shrinks with every emission. */
  ghost function Remaining(c: Catalog, s: Iter): set<string>
  {
    Known(s) + Referenced(c) - s.done.Keys
  }

  /** When the popped table still has outstanding dependencies (never the
      table itself), the unseen ones get synthetic entries, `done` is left
      alone and the stack becomes todoDeps ++ [table] ++ rest. */
  lemma StepDefers(c: Catalog, s: Iter)
    requires s.stack != [] && s.stack[0] in s.todo && TableDeps(c, s.stack[0]).Ok?
    ensures var t, deps := s.stack[0], TableDeps(c, s.stack[0]).value;
      var pending := Outstanding(s.todo, s.done, t, deps);
      && t !in pending
      && (forall d :: d in pending <==> d in deps && d != t && (d in s.todo || d !in s.done))
      && (pending != [] ==>
            Step(c, s) == (Deferred, Iter(s.todo + Defaults(s.todo, s.done, deps), s.done, pending + [t] + s.stack[1..])))
      && (pending == [] <==> Step(c, s).0.Emitted?)
  {
    var t, deps := s.stack[0], TableDeps(c, s.stack[0]).value;
    ExpandClosedForm(s.todo, s.done, t, deps);
    OutstandingMembers(s.todo, s.done, t, deps);
  }

  /** When the popped table is emitted it is the table's entry in `todo`, it
      moves from `todo` to `done` and nothing else in either map changes, and
      every dependency other than itself is already done. */
  lemma StepEmits(c: Catalog, s: Iter)
    requires Step(c, s).0.Emitted?
    ensures s.stack != [] && s.stack[0] in s.todo
    ensures var t, s' := s.stack[0], Step(c, s).1;
      && Step(c, s).0.item == s.todo[t]
      && s'.todo == s.todo - {t}
      && s'.done == s.done[t := s.todo[t]]
      && s'.stack == s.stack[1..]
      && TableDeps(c, t).Ok?
      && forall d :: d in TableDeps(c, t).value ==> d == t || d in s.done
  {
    var t, deps := s.stack[0], TableDeps(c, s.stack[0]).value;
    ExpandClosedForm(s.todo, s.done, t, deps);
    OutstandingMembers(s.todo, s.done, t, deps);
    assert forall d :: d in deps ==> d == t || (d !in s.todo && d in s.done);
    assert Defaults(s.todo, s.done, deps).Keys == {};
    assert s.todo + map[] == s.todo;
  }

  /** What every pass keeps: the maps stay disjoint, names are only added
      (from the catalog) or moved to `done`, existing entries keep their
      value, new entries are synthetic defaults for unseen names, and unless
      the lookup failed every name to do stays on the stack. */
  lemma StepKeeps(c: Catalog, s: Iter)
    requires Valid(s)
    ensures var (move, s') := Step(c, s);
      && Valid(s')
      && Known(s) <= Known(s') <= Known(s) + Referenced(c)
      && (forall k :: k in s.todo && k in s'.todo ==> s'.todo[k] == s.todo[k])
      && (forall k :: k in s'.todo && k !in s.todo ==> s'.todo[k] == DefaultItem(k) && k !in s.done)
      && (!move.Emitted? ==> s'.done == s.done && s.todo.Keys <= s'.todo.Keys)
      && (!move.Failed? && Covered(s) ==> Covered(s'))
  {
    var (move, s') := Step(c, s);
    if s.stack != [] && s.stack[0] in s.todo && TableDeps(c, s.stack[0]).Ok? {
      var t, deps := s.stack[0], TableDeps(c, s.stack[0]).value;
      ExpandClosedForm(s.todo, s.done, t, deps);
      OutstandingMembers(s.todo, s.done, t, deps);
      DepsReferenced(c, t);
      if move.Emitted? {
        StepEmits(c, s);
      } else {
        StepDefers(c, s);
        if Covered(s) {
          forall k | k in s'.todo ensures k in s'.stack {
            if k !in s.todo {
              assert k in Outstanding(s.todo, s.done, t, deps);
            } else if k != t {
              assert k in s.stack[1..];
            }
          }
        }
      }
    }
  }

  // ---------------------------------------------------------------------
  // What a whole call of Next does

  /** An empty stack means end-of-sequence, and the state is left as it is,
      so every later call ends too. */
  lemma AdvanceEnds(c: Catalog, s: Iter, fuel: nat)
    requires s.stack == []
    ensures Advance(c, s, fuel) == (End, s)
  {
  }

  /** A popped name that is no longer to do is dropped and Next carries on
      with the rest of the stack; nothing else changes. */
  lemma AdvanceSkips(c: Catalog, s: Iter, fuel: nat)
    requires s.stack != [] && s.stack[0] !in s.todo
    ensures Advance(c, s, fuel + 1) == Advance(c, s.(stack := s.stack[1..]), fuel)
  {
  }

  /** A failed dependency lookup ends the call with that failure, after the
      name has been popped and before anything else changes. */
  lemma AdvanceFails(c: Catalog, s: Iter, fuel: nat)
    requires s.stack != [] && s.stack[0] in s.todo && TableDeps(c, s.stack[0]).Err?
    ensures Advance(c, s, fuel) == (Fail(TableDeps(c, s.stack[0]).error), s.(stack := s.stack[1..]))
  {
  }

  /** One call of Next: the maps stay disjoint, names are only added (from
      the catalog) or moved to `done`, existing entries keep their value, new
      entries are synthetic defaults for unseen names, a call that returns no
      item changes no entry of `done`, and unless it failed every name to do
      stays on the stack. */
  lemma {:induction false} AdvanceKeeps(c: Catalog, s: Iter, fuel: nat)
    requires Valid(s)
    ensures var (r, s') := Advance(c, s, fuel);
      && Valid(s')
      && Known(s) <= Known(s') <= Known(s) + Referenced(c)
      && (forall k :: k in s.todo && k in s'.todo ==> s'.todo[k] == s.todo[k])
      && (forall k :: k in s'.todo && k !in s.todo ==> s'.todo[k] == DefaultItem(k) && k !in s.done)
      && (!r.Item? ==> s'.done == s.done && s.todo.Keys <= s'.todo.Keys)
      && (!r.Fail? && Covered(s) ==> Covered(s'))
      && (r.End? ==> s'.stack == [])
    decreases fuel
  {
    var (move, s1) := Step(c, s);
    StepKeeps(c, s);
    if (move.Skipped? || move.Deferred?) && fuel > 0 {
      AdvanceKeeps(c, s1, fuel - 1);
    }
  }

  /** A call of Next that returns an item returns a name not done before and
      adds exactly it to `done`; the item is the entry that was in `todo` or,
      if the name was found during this call, the synthetic default; each of
      its dependencies other than itself was done before the call; and no
      other name leaves `todo`. */
  lemma {:induction false} AdvanceEmits(c: Catalog, s: Iter, fuel: nat)
    requires Valid(s) && Advance(c, s, fuel).0.Item?
    ensures var (r, s') := Advance(c, s, fuel);
      var t := r.item.table;
      && t !in s.done
      && s'.done == s.done[t := r.item]
      && r.item == (if t in s.todo then s.todo[t] else DefaultItem(t))
      && TableDeps(c, t).Ok?
      && (forall d :: d in TableDeps(c, t).value ==> d == t || d in s.done)
      && s.todo.Keys - {t} <= s'.todo.Keys
    decreases fuel
  {
    var (move, s1) := Step(c, s);
    StepKeeps(c, s);
    if move.Emitted? {
      StepEmits(c, s);
    } else {
      AdvanceEmits(c, s1, fuel - 1);
    }
  }

  /** Every returned item leaves fewer names that can still be emitted. */
  lemma AdvanceProgress(c: Catalog, s: Iter, fuel: nat)
    requires Valid(s) && Advance(c, s, fuel).0.Item?
    ensures Valid(Advance(c, s, fuel).1)
    ensures Remaining(c, Advance(c, s, fuel).1) < Remaining(c, s)
  {
    var (r, s') := Advance(c, s, fuel);
    AdvanceKeeps(c, s, fuel);
    AdvanceEmits(c, s, fuel);
    assert r.item.table in Remaining(c, s) - Remaining(c, s');
  }

  // ---------------------------------------------------------------------
  // A whole run: Next called until it returns no item

  /** The items successive calls of Next return, and the first result that
      is not an item. Terminates because the catalog is finite. */
  function Drain(c: Catalog, s: Iter, fuel: nat): (r: (seq<ManifestItem>, NextResult))
    requires Valid(s)
    ensures !r.1.Item?
    decreases Remaining(c, s)
  {
    var (n, s') := Advance(c, s, fuel);
    if n.Item? then
      AdvanceProgress(c, s, fuel);
      var (rest, last) := Drain(c, s', fuel);
      ([n.item] + rest, last)
    else ([], n)
  }

  /** What a run from NewManifestIterator keeps: every manifest name is to do
      or done; every entry is the manifest's last entry of that name or, for
      a name the manifest lacks, the synthetic default; the dependencies of a
      done table are all done. */
  ghost predicate RunInv(c: Catalog, m: Manifest, s: Iter)
  {
    && Valid(s)
    && (forall k :: k in Index(m.tables) ==> k in Known(s))
    && (forall k :: k in s.todo ==> s.todo[k] == Entry(m, k))
    && (forall k :: k in s.done ==> s.done[k] == Entry(m, k))
    && (forall k :: k in s.done ==>
          TableDeps(c, k).Ok? && forall d :: d in TableDeps(c, k).value ==> d in s.done)
  }

  lemma InitialRunInv(c: Catalog, m: Manifest)
    ensures RunInv(c, m, Initial(m)) && Covered(Initial(m))
  {
    forall k | k in Index(m.tables) ensures k in Names(m.tables) {
      IndexLastWins(m.tables, k);
    }
  }

  lemma AdvanceKeepsRunInv(c: Catalog, m: Manifest, s: Iter, fuel: nat)
    requires RunInv(c, m, s)
    ensures RunInv(c, m, Advance(c, s, fuel).1)
  {
    var (r, s') := Advance(c, s, fuel);
    AdvanceKeeps(c, s, fuel);
    if r.Item? {
      AdvanceEmits(c, s, fuel);
      var t := r.item.table;
      assert t !in s.todo ==> t !in Index(m.tables);
    }
  }

  /** Unfolding Drain once at a returned item. */
  lemma DrainItem(c: Catalog, s: Iter, fuel: nat)
    requires Valid(s) && Advance(c, s, fuel).0.Item?
    ensures Valid(Advance(c, s, fuel).1)
    ensures Drain(c, s, fuel) ==
      ([Advance(c, s, fuel).0.item] + Drain(c, Advance(c, s, fuel).1, fuel).0,
       Drain(c, Advance(c, s, fuel).1, fuel).1)
  {
    AdvanceProgress(c, s, fuel);
  }

  /** Drain stops at the first call that returns no item. */
  lemma DrainStops(c: Catalog, s: Iter, fuel: nat)
    requires Valid(s) && !Advance(c, s, fuel).0.Item?
    ensures Drain(c, s, fuel) == ([], Advance(c, s, fuel).0)
  {
  }

  /** No name is emitted twice in a run, nor one that was done before it. */
  lemma {:induction false} DrainFresh(c: Catalog, s: Iter, fuel: nat)
    requires Valid(s)
    ensures var items := Drain(c, s, fuel).0;
      && (forall i :: 0 <= i < |items| ==> items[i].table !in s.done)
      && (forall i, j :: 0 <= i < j < |items| ==> items[i].table != items[j].table)
    decreases Remaining(c, s)
  {
    var (n, s1) := Advance(c, s, fuel);
    if n.Item? {
      AdvanceKeeps(c, s, fuel);
      AdvanceEmits(c, s, fuel);
      AdvanceProgress(c, s, fuel);
      DrainItem(c, s, fuel);
      DrainFresh(c, s1, fuel);
    }
  }

  /** Each item of a run is the manifest's last entry of that name, or the
      synthetic default for a name the manifest lacks. */
  lemma {:induction false} DrainEntries(c: Catalog, m: Manifest, s: Iter, fuel: nat)
    requires RunInv(c, m, s)
    ensures var items := Drain(c, s, fuel).0;
      forall i :: 0 <= i < |items| ==> items[i] == Entry(m, items[i].table)
    decreases Remaining(c, s)
  {
    var (n, s1) := Advance(c, s, fuel);
    if n.Item? {
      AdvanceKeeps(c, s, fuel);
      AdvanceEmits(c, s, fuel);
      AdvanceKeepsRunInv(c, m, s, fuel);
      AdvanceProgress(c, s, fuel);
      DrainItem(c, s, fuel);
      DrainEntries(c, m, s1, fuel);
    }
  }

  /** Each table of a run comes after every table it references (or that
      table was done before the run). */
  lemma {:induction false} DrainDepsFirst(c: Catalog, s: Iter, fuel: nat)
    requires Valid(s)
    ensures var items := Drain(c, s, fuel).0;
      forall i :: 0 <= i < |items| ==>
        TableDeps(c, items[i].table).Ok? &&
        forall d :: d in TableDeps(c, items[i].table).value ==>
          d == items[i].table || d in s.done || d in Names(items[..i])
    decreases Remaining(c, s)
  {
    var (n, s1) := Advance(c, s, fuel);
    if n.Item? {
      AdvanceKeeps(c, s, fuel);
      AdvanceEmits(c, s, fuel);
      AdvanceProgress(c, s, fuel);
      DrainItem(c, s, fuel);
      DrainDepsFirst(c, s1, fuel);
      var items := Drain(c, s, fuel).0;
      var it, rest := n.item, Drain(c, s1, fuel).0;
      assert items == [it] + rest;
      forall i | 0 < i < |items|
        ensures forall d :: d in TableDeps(c, items[i].table).value ==>
          d == items[i].table || d in s.done || d in Names(items[..i])
      {
        assert items[i] == rest[i - 1];
        assert items[..i] == [it] + rest[..i - 1];
        NamesAppend([it], rest[..i - 1]);
      }
    }
  }

  /** A run that ends normally from a state whose stack covers `todo` has
      emitted every name that was to do. */
  lemma {:induction false} DrainComplete(c: Catalog, s: Iter, fuel: nat)
    requires Valid(s) && Covered(s) && Drain(c, s, fuel).1.End?
    ensures forall k :: k in s.todo ==> k in Names(Drain(c, s, fuel).0)
    decreases Remaining(c, s)
  {
    var (n, s1) := Advance(c, s, fuel);
    AdvanceKeeps(c, s, fuel);
    if n.Item? {
      AdvanceEmits(c, s, fuel);
      AdvanceProgress(c, s, fuel);
      DrainItem(c, s, fuel);
      DrainComplete(c, s1, fuel);
      NamesAppend([n.item], Drain(c, s1, fuel).0);
    }
  }

  /** A whole run from NewManifestIterator: no table is emitted twice; each
      table comes after every table it references; each item is the
      manifest's last entry of that name or the synthetic default; and when
      the run ends normally every table of the manifest has been emitted. */
  lemma RunOrder(c: Catalog, m: Manifest, fuel: nat)
    ensures var (items, last) := Drain(c, Initial(m), fuel);
      && (forall i, j :: 0 <= i < j < |items| ==> items[i].table != items[j].table)
      && (forall i :: 0 <= i < |items| ==> items[i] == Entry(m, items[i].table))
      && (forall i :: 0 <= i < |items| ==>
            TableDeps(c, items[i].table).Ok? &&
            forall d :: d in TableDeps(c, items[i].table).value ==>
              d == items[i].table || d in Names(items[..i]))
      && (last.End? ==> forall k :: k in Names(m.tables) ==> k in Names(items))
  {
    InitialRunInv(c, m);
    DrainFresh(c, Initial(m), fuel);
    DrainEntries(c, m, Initial(m), fuel);
    DrainDepsFirst(c, Initial(m), fuel);
    if Drain(c, Initial(m), fuel).1.End? {
      DrainComplete(c, Initial(m), fuel);
    }
    forall k | k in Names(m.tables) ensures k in Index(m.tables) {
      IndexLastWins(m.tables, k);
    }
  }

  // ---------------------------------------------------------------------
  // The iterator object

  /** One dump run's resolution state. `catalog` stands for the database
      handle, through which the dependency lookups go. */
  class ManifestIterator {
    const catalog: Catalog
    const manifest: Manifest
    var todo: map<string, ManifestItem>
    var done: map<string, ManifestItem>
    var stack: seq<string>

    function State(): Iter
      reads this
    {
      Iter(todo, done, stack)
    }

    /** NewManifestIterator: the stack holds the manifest's names in order,
        `todo` maps each name to its entry (a later duplicate replacing an
        earlier one), `done` is empty. */
    constructor (catalog: Catalog, manifest: Manifest)
      ensures this.catalog == catalog && this.manifest == manifest
      ensures stack == Names(manifest.tables)
      ensures todo == Index(manifest.tables)
      ensures done == map[]
    {
      this.catalog := catalog;
      this.manifest := manifest;
      var tables := manifest.tables;
      var names: seq<string> := [];
      var index: map<string, ManifestItem> := map[];
      var i := 0;
      while i < |tables|
        invariant 0 <= i <= |tables|
        invariant |names| == i && forall j :: 0 <= j < i ==> names[j] == tables[j].table
        invariant index == Index(tables[..i])
      {
        var item := tables[i];
        names := names + [item.table];
        assert tables[..i + 1][..i] == tables[..i];
        index := index[item.table := item];
        i := i + 1;
      }
      assert tables[..i] == tables;
      stack := names;
      todo := index;
      done := map[];
    }

    /** The loop over a table's dependencies: gives each unseen one a
        default entry in `todo`, and collects the outstanding ones. */
    method ScanDeps(table: string, deps: seq<string>) returns (todoDeps: seq<string>)
      modifies this
      ensures (todo, todoDeps) == Expand(old(todo), done, table, deps)
      ensures done == old(done) && stack == old(stack)
    {
      todoDeps := [];
      var i := 0;
      while i < |deps|
        invariant 0 <= i <= |deps|
        invariant (todo, todoDeps) == Expand(old(todo), done, table, deps[..i])
        invariant done == old(done) && stack == old(stack)
      {
        var dep := deps[i];
        if dep !in todo && dep !in done {
          // a referenced table the manifest does not name
          todo := todo[dep := DefaultItem(dep)];
        }
        if dep in todo && table != dep {
          todoDeps := todoDeps + [dep];
        }
        assert deps[..i + 1][..i] == deps[..i];
        i := i + 1;
      }
      assert deps[..i] == deps;
    }

    /** Next: pops names until one can be emitted, the stack runs out or a
        lookup fails, re-entering at most `fuel` times. */
    method Next(fuel: nat) returns (r: NextResult)
      modifies this
      ensures (r, State()) == Advance(catalog, old(State()), fuel)
    {
      var budget := fuel;
      while true
        invariant Advance(catalog, old(State()), fuel) == Advance(catalog, State(), budget)
        decreases budget
      {
        ghost var before := State();
        if |stack| == 0 {
          return End;
        }
        var table := stack[0];
        stack := stack[1..];
        if table in todo {
          var deps := TableDeps(catalog, table);
          if deps.Err? {
            return Fail(deps.error);
          }
          var todoDeps := ScanDeps(table, deps.value);
          if |todoDeps| > 0 {
            stack := todoDeps + [table] + stack;
          } else {
            var result := todo[table];
            done := done[table := todo[table]];
            todo := todo - {table};
            return Item(result);
          }
        }
        assert State() == Step(catalog, before).1;
        if budget == 0 {
          return OutOfFuel;
        }
        budget := budget - 1;
      }
    }
  }
}
