# pg_dump_sample dump engine, modelled in Dafny

This project models the dependency-ordered dump engine of pg_dump_sample
(`dump/dump.go`). The engine writes a PostgreSQL data dump of the tables a
manifest names. Every table is written after the tables its foreign keys
reference. It has two halves:

- **The resolver**, the `ManifestIterator`. It keeps `todo`, `done` and `stack`.
  Each call of `Next` pops names off the stack. When a popped table still has
  outstanding foreign-key targets, it pushes them in front of the table. It
  creates a default entry for any referenced table the manifest does not name.
  The first table with nothing outstanding moves to `done` and is returned.
- **The writer**, `MakeDump`. It writes the preamble, then one block per table
  `Next` returns, then the postamble. A block is the COPY header with the
  quoted column list, the streamed rows, the `\.` terminator, and the
  post-action statements. The first failure ends the dump, and nothing more is
  written.

Modules:

- `Wrappers`: `Option` and `Result`.
- `Manifests`: the decoded manifest, and how its entries are keyed by table
  name. The last entry with a given name wins.
- `Catalogs`: the database's answers to the two schema lookups,
  `getTableDeps` and `getTableCols`. The catalog is a finite map of results.
  A name it has no answer for fails the way the `?::regclass` cast does.
- `Resolver`: the iterator, split into two layers.
  - Pure functions. `Step` is one pass through the body of `Next`. `Advance`
    is one whole call. `Drain` is a whole run, calling `Next` until it
    returns no item.
  - The class `ManifestIterator`, whose constructor and `Next` are proved to
    follow those functions.
- `Framing`: the fixed texts and the `Fprintf` framings. It includes Go's
  `strconv.Quote` on column names, and a parser that reads a quoted column
  list back.
- `Dump`: `MakeDump` and one table's block. Their collaborators are parameters
  of `Env`:
  - the catalog;
  - the mustache template renderer;
  - the COPY streaming. It returns the text it streamed and the failure that
    cut it short, if any.

  `Blocks` runs a per-item writer over the returned items and stops at the
  first failure. `Concat` is its reference definition. Both take the writer
  as a parameter, so their lemmas hold for any writer; `Dump` uses `Block`.
- `Scenarios`: worked runs. A two-table foreign-key cycle never returns. A
  manifest listed dependent-first comes out dependency-first.

The source's `Next` re-enters itself by plain recursion after every skipped or
deferred name. On a foreign-key cycle it never returns; it recurses until the
process dies. Dafny needs termination, so `Next`,
`Advance` and `MakeDump` take a budget `fuel` of re-entries per call. When the
budget runs out the result is `OutOfFuel`; the source would go on recursing.
Nothing else is bounded. A run terminates because the catalog is finite, and
every returned item shrinks the set of names that could still be emitted.

Three behaviours of `Next` the model keeps as written:

- No cycle detection. On a foreign-key cycle `Next` re-enters itself without
  bound (dump/dump.go:205-207): it never returns; it recurses until the
  process dies. `Scenarios.CycleNeverEmits` shows that it never returns.
- Duplicate dependencies are not collapsed. `getTableDeps` returns one row per
  foreign-key constraint, so a target referenced by two constraints is pushed
  twice. The later copy is skipped once the target is done.
- A table's own self-reference is ignored. A dependency on itself never counts
  as outstanding.

## Model

| member | source | states |
|---|---|---|
| Manifests.Names | dump/dump.go:154-155 | the stack holds one name per manifest entry, in manifest order |
| Manifests.Index | dump/dump.go:154-157 | every `todo` entry is filed under its own table name |
| Manifests.Entry | dump/dump.go:195-198 | the entry handed out for a name carries that name, whether it is the manifest's or the synthetic default |
| Manifests.IndexLastWins | dump/dump.go:154-157 | a name is in the initial `todo` exactly when some manifest entry has it, and its value is the last such entry |
| Resolver.Expand | dump/dump.go:191-203 | the dependency loop only adds to `todo` and never changes an existing entry |
| Resolver.ExpandClosedForm | dump/dump.go:191-203 | the dependency loop adds exactly the default entries for dependencies in neither map, and collects exactly the dependencies, in catalog order with repeats, that are in `todo` and are not the table itself |
| Resolver.OutstandingMembers | dump/dump.go:200-202 | a name is outstanding iff it is a dependency, differs from the table, and is in `todo` or not yet seen |
| Resolver.StepDefers | dump/dump.go:186-207 | with outstanding dependencies, `todo` gains the defaults, `done` is unchanged, and the stack becomes outstanding ++ [table] ++ rest; the table never waits on itself; the pass emits iff nothing is outstanding |
| Resolver.StepEmits | dump/dump.go:210-214 | an emitted table is the popped name's `todo` entry; it moves from `todo` to `done`, the rest of the stack is kept, and every dependency other than itself was already done |
| Resolver.StepKeeps | dump/dump.go:174-215 | one pass keeps `todo` and `done` disjoint and keyed by name, only adds catalog-referenced names as defaults, never changes an entry, and keeps every name to do on the stack unless the lookup failed |
| Resolver.AdvanceEnds | dump/dump.go:175-177 | an empty stack ends the sequence and changes nothing |
| Resolver.AdvanceSkips | dump/dump.go:179-184 | a popped name no longer in `todo` is dropped, and the call carries on with the rest of the stack |
| Resolver.AdvanceFails | dump/dump.go:186-189 | a failed dependency lookup returns that failure after the pop, with nothing else changed |
| Resolver.AdvanceKeeps | dump/dump.go:174-215 | one call of Next keeps `todo` and `done` disjoint and keyed by name, only adds catalog-referenced names as defaults, never changes an entry, leaves `done` alone when it returns no item, and leaves an empty stack when it ends |
| Resolver.AdvanceEmits | dump/dump.go:191-214 | a returned item is a table not done before; exactly it is added to `done`; it is the manifest's entry or the default; every other dependency was done before the call |
| Resolver.AdvanceProgress | dump/dump.go:210-214 | every returned item shrinks the set of names that can still be emitted |
| Resolver.Drain | dump/dump.go:81-88 | a run ends on the first call that returns no item, so its final result is never an item |
| Resolver.InitialRunInv | dump/dump.go:145-160 | the initial state has every manifest name to do under its last entry, and every name to do on the stack |
| Resolver.AdvanceKeepsRunInv | dump/dump.go:174-215 | every call keeps the run invariant: manifest names stay known, entries are the manifest's or defaults, and done tables have their dependencies done |
| Resolver.DrainFresh | dump/dump.go:210-214 | no table is returned twice in a run, nor one done before it |
| Resolver.DrainEntries | dump/dump.go:195-214 | each returned item is the manifest's last entry of that name, or the default for a name it lacks |
| Resolver.DrainDepsFirst | dump/dump.go:191-214 | each returned table comes after every table it references, other than itself |
| Resolver.DrainComplete | dump/dump.go:174-215 | a run that ends normally has returned every name that was to do |
| Resolver.RunOrder | dump/dump.go:80-88 | a run from a fresh iterator returns no table twice; each table comes after its references; each item is its manifest entry or the default; an ended run returned every manifest table |
| Resolver.ManifestIterator.constructor | dump/dump.go:145-160 | NewManifestIterator: the stack is the manifest's names in order, `todo` is the last-wins index, and `done` is empty |
| Resolver.ManifestIterator.Next | dump/dump.go:174-215 | the method's result and new fields are exactly one call of `Advance` from its old fields |
| Resolver.ManifestIterator.ScanDeps | dump/dump.go:191-203 | the dependency loop leaves `todo` and the outstanding list exactly as `Expand` describes, and touches neither `done` nor the stack |
| Framing.QuoteAll | dump/dump.go:226-229 | one quoted string per column, in order |
| Framing.BeginTable | dump/dump.go:225-232 | the header names the table twice and the quoted, comma-joined column list |
| Framing.EscapeRoundTrip | dump/dump.go:228 | reading back one escaped character gives that character |
| Framing.HexRoundTrip | dump/dump.go:228 | a control character without a named escape is written as `\x` and two hex digits, which read back as the character |
| Framing.EscapeAllRoundTrip | dump/dump.go:228 | reading back an escaped string up to its closing quote gives the string and leaves what follows |
| Framing.QuoteRoundTrip | dump/dump.go:228 | reading back a quoted name gives the name, whatever follows it |
| Framing.QuotedRoundTrip | dump/dump.go:226-230 | splitting a non-empty joined quoted list gives back the columns |
| Framing.ColumnListRoundTrip | dump/dump.go:226-230 | the header's column list names exactly the columns it was built from, in order |
| Framing.QuotePlain | dump/dump.go:228 | a name of printable ASCII characters other than the double quote and the backslash is only wrapped in double quotes |
| Framing.ExplicitColumns | dump/dump.go:226-231 | the columns `id` and `name` give the list `"id", "name"` |
| Dump.SqlCmds | dump/dump.go:117-119 | one framed statement per post-action, in order |
| Dump.WriteTable | dump/dump.go:90-119 | one item's writes are its block, cut short at the first failure: the columns lookup, the template, or the COPY stream |
| Dump.WritePostActions | dump/dump.go:117-119 | the post-action loop appends each statement, framed by dumpSqlCmd, in order |
| Dump.MakeDump | dump/dump.go:77-125 | the writer's contents and the outcome are exactly those of `Dump` for the same collaborators |
| Dump.MidwayStart | dump/dump.go:78-80 | after the preamble, MakeDump's loop invariant holds for a fresh iterator |
| Dump.MidwayStop | dump/dump.go:82-88 | when Next returns no item, End leads to the postamble and a completed dump, and a failure aborts without it |
| Dump.MidwayItem | dump/dump.go:90-120 | a returned item whose block succeeds keeps the loop invariant, with the block appended |
| Dump.MidwayFail | dump/dump.go:90-114 | a returned item whose block fails ends the dump there, with the block's partial writes |
| Dump.BlocksStop | dump/dump.go:83-113 | once a block fails, later items add nothing and the first failure stays the outcome |
| Dump.BlocksAllOk | dump/dump.go:81-120 | the blocks of a run succeed together iff each one does |
| Dump.BlocksOkAt | dump/dump.go:81-120 | when the run of blocks succeeds, the block at any index succeeded |
| Dump.BlocksFailOne | dump/dump.go:81-120 | when the run of blocks fails, some block failed |
| Dump.BlocksConcat | dump/dump.go:81-120 | when no block fails the writer holds every block, in order |
| Dump.DumpCompleted | dump/dump.go:77-125 | a dump completes iff the run ends and every block succeeds; it then holds the preamble, every block in Next's order, and the postamble; otherwise the postamble is never written |
| Scenarios.CycleStep | dump/dump.go:191-207 | with A and B referencing each other, popping A pushes B then A, and changes nothing else |
| Scenarios.CycleNeverEmits | dump/dump.go:205-207 | on a two-table cycle Next never returns an item, an end or an error, whatever the budget |
| Scenarios.TwoTablesInit | dump/dump.go:145-160 | the manifest [B, A] starts with stack [B, A] and both tables to do |
| Scenarios.TwoTablesFirst | dump/dump.go:186-214 | with B referencing A, the first call defers B and returns A |
| Scenarios.TwoTablesSecond | dump/dump.go:186-214 | the second call returns B, since A is done |
| Scenarios.TwoTablesRest | dump/dump.go:174-215 | from there the run returns B, skips the leftover A, and ends |
| Scenarios.TwoTables | dump/dump.go:80-88 | the manifest [B, A] is dumped as A, then B, then the run ends |

## Left out

- Reading the manifest (`NewManifest`, `readManifest`, the YAML decoding) is
  not modelled: this is file I/O and a foreign decoder. A `Manifest` value is
  taken as given.
- The SQL in `getTableDeps` and `getTableCols` is not modelled. It runs in the
  database; the `Catalog` holds its answers, including failures.
- The catalog is a fixed map. The source asks `getTableDeps` again each time
  a name is popped (dump/dump.go:186), and the model gives the same answer
  every time. This assumes the schema does not change during a run and that
  lookups do not fail intermittently; `Resolver.DrainDepsFirst` and
  `Resolver.RunOrder` rely on it.
- `db.CopyTo` is a parameter (`Env.copyTo`). The rows it streams are an opaque
  string. It is a database call.
- `mustache.Render` is a parameter (`Env.render`). It is a foreign library.
- Errors from writing to the output are not modelled. The source ignores the
  result of every `Fprintf`, so the writer is a sequence of strings that
  always accepts.
- Resolver.ManifestIterator.Next: the budget `fuel` and its `OutOfFuel` result
  are not in the source. On a cycle the source never returns; it recurses
  until the process dies.
- Dump.MakeDump: it passes `fuel` to every `Next` call and reports
  `OutOfFuel` when a call runs out, where the source would not return.
- The model does not prove that an acyclic catalog never exhausts a given
  budget.
- Framing.Escape: it follows `strconv.Quote` for ASCII only. Characters from
  0x80 up are passed through unchanged. Go escapes the ones it considers
  unprintable (`\u`, `\U`) and bytes of invalid UTF-8 (`\x`). Unicode
  printability tables are outside this model.
- `main.go` (flag parsing, connecting, choosing the output file) and
  `database/database.go` are not part of this model.
