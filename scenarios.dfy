/**
 * Worked runs of the resolver: a two-table dependency cycle, which the
 * source's Next never gets out of, and a two-table manifest listed
 * dependent-first, which comes out dependency-first.
 */
module Scenarios {
  import opened Wrappers
  import opened Manifests
  import opened Catalogs
  import opened Resolver

  /** One pass over a two-table cycle: the popped table waits for the other. */
  lemma CycleStep(c: Catalog, a: string, b: string, s: Iter)
    requires a != b
    requires TableDeps(c, a) == Ok([b]) && TableDeps(c, b) == Ok([a])
    requires a in s.todo && b in s.todo && s.stack != []
    requires s.stack[0] == a
    ensures Step(c, s) == (Deferred, Iter(s.todo, s.done, [b, a] + s.stack[1..]))
  {
    StepDefers(c, s);
    assert [b][1..] == [];
    assert Outstanding(s.todo, s.done, a, [b]) == [b];
    assert Defaults(s.todo, s.done, [b]).Keys == {};
    assert s.todo + Defaults(s.todo, s.done, [b]) == s.todo;
    assert [b] + [a] + s.stack[1..] == [b, a] + s.stack[1..];
  }

  /** Tables that depend on each other are deferred forever: however many
      re-entries are allowed, Next never returns an item, an end or an
      error. */
  lemma {:induction false} CycleNeverEmits(c: Catalog, a: string, b: string, s: Iter, fuel: nat)
    requires a != b
    requires TableDeps(c, a) == Ok([b]) && TableDeps(c, b) == Ok([a])
    requires a in s.todo && b in s.todo && s.stack != []
    requires forall k :: k in s.stack ==> k == a || k == b
    ensures Advance(c, s, fuel).0 == OutOfFuel
    decreases fuel
  {
    assert s.stack[0] in s.stack;
    var s1;
    if s.stack[0] == a {
      CycleStep(c, a, b, s);
      s1 := Iter(s.todo, s.done, [b, a] + s.stack[1..]);
    } else {
      CycleStep(c, b, a, s);
      s1 := Iter(s.todo, s.done, [a, b] + s.stack[1..]);
    }
    assert Step(c, s) == (Deferred, s1);
    if fuel > 0 {
      assert forall k :: k in s.stack[1..] ==> k in s.stack;
      assert forall k :: k in s1.stack ==> k == a || k == b || k in s.stack[1..];
      CycleNeverEmits(c, a, b, s1, fuel - 1);
    }
  }

  // Table B references table A; the manifest lists B before A.
  function A(): ManifestItem { ManifestItem("A", "", [], []) }
  function B(): ManifestItem { ManifestItem("B", "", [], []) }
  function AB(): Catalog { Catalog(map["A" := Ok([]), "B" := Ok(["A"])], map[]) }

  lemma TwoTablesInit()
    ensures Initial(Manifest(map[], [B(), A()])) == Iter(map["B" := B(), "A" := A()], map[], ["B", "A"])
  {
    assert [B(), A()][..1] == [B()];
    assert [B()][..0] == [];
    assert Index([B()]) == map["B" := B()];
  }

  lemma TwoTablesFirst(fuel: nat)
    requires fuel >= 1
    ensures Advance(AB(), Iter(map["B" := B(), "A" := A()], map[], ["B", "A"]), fuel)
         == (Item(A()), Iter(map["B" := B()], map["A" := A()], ["B", "A"]))
  {
    var c := AB();
    var s0 := Iter(map["B" := B(), "A" := A()], map[], ["B", "A"]);
    assert TableDeps(c, "B") == Ok(["A"]);
    StepDefers(c, s0);
    assert ["A"][1..] == [];
    assert Outstanding(s0.todo, s0.done, "B", ["A"]) == ["A"];
    assert Defaults(s0.todo, s0.done, ["A"]).Keys == {};
    assert s0.todo + Defaults(s0.todo, s0.done, ["A"]) == s0.todo;
    var s1 := Iter(s0.todo, map[], ["A", "B", "A"]);
    assert ["B", "A"][1..] == ["A"];
    assert ["A"] + ["B"] + ["A"] == ["A", "B", "A"];
    assert Step(c, s0) == (Deferred, s1);
    assert TableDeps(c, "A") == Ok([]);
    assert Expand(s1.todo, s1.done, "A", []) == (s1.todo, []);
    assert s1.stack[1..] == ["B", "A"];
    assert s1.todo - {"A"} == map["B" := B()];
    assert Step(c, s1) == (Emitted(A()), Iter(map["B" := B()], map["A" := A()], ["B", "A"]));
  }

  lemma TwoTablesSecond(fuel: nat)
    ensures Advance(AB(), Iter(map["B" := B()], map["A" := A()], ["B", "A"]), fuel)
         == (Item(B()), Iter(map[], map["A" := A(), "B" := B()], ["A"]))
  {
    var c := AB();
    var s2 := Iter(map["B" := B()], map["A" := A()], ["B", "A"]);
    assert TableDeps(c, "B") == Ok(["A"]);
    StepDefers(c, s2);
    assert ["A"][1..] == [];
    assert Outstanding(s2.todo, s2.done, "B", ["A"]) == [];
    ExpandClosedForm(s2.todo, s2.done, "B", ["A"]);
    assert Defaults(s2.todo, s2.done, ["A"]).Keys == {};
    assert s2.todo + Defaults(s2.todo, s2.done, ["A"]) == s2.todo;
  }

  /** After A and B are done the last name on the stack is skipped and the
      run ends: what is left of the run is B alone. */
  lemma TwoTablesRest(fuel: nat)
    requires fuel >= 1
    ensures Valid(Iter(map["B" := B()], map["A" := A()], ["B", "A"]))
    ensures Drain(AB(), Iter(map["B" := B()], map["A" := A()], ["B", "A"]), fuel) == ([B()], End)
  {
    var c := AB();
    var s2 := Iter(map["B" := B()], map["A" := A()], ["B", "A"]);
    var s3 := Iter(map[], map["A" := A(), "B" := B()], ["A"]);
    TwoTablesSecond(fuel);
    assert ["A"][1..] == [];
    assert Step(c, s3) == (Skipped, s3.(stack := []));
    assert Advance(c, s3, fuel) == (End, s3.(stack := []));
    assert Valid(s2);
    DrainItem(c, s2, fuel);
    assert Valid(s3);
    DrainStops(c, s3, fuel);
    assert [B()] + [] == [B()];
  }

  /** B is listed first but waits for A: the run returns A, then B, then
      ends. */
  lemma TwoTables(fuel: nat)
    requires fuel >= 1
    ensures Drain(AB(), Initial(Manifest(map[], [B(), A()])), fuel) == ([A(), B()], End)
  {
    var c := AB();
    var s0 := Iter(map["B" := B(), "A" := A()], map[], ["B", "A"]);
    TwoTablesInit();
    TwoTablesFirst(fuel);
    TwoTablesRest(fuel);
    assert Valid(s0);
    DrainItem(c, s0, fuel);
    assert [A()] + [B()] == [A(), B()];
  }
}
