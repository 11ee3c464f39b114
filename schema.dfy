/**
 * What Database.flush computes, as functions on table values: for every
 * table, in entry order, and every child tag it counted, in insertion
 * order, one of three policies adds foreign keys and an edge of the
 * relation graph (`__relations`: table -> tables it references).
 */
module Schema {
  import opened Wrappers
  import opened Text
  import opened DataTypes
  import opened Tables

  /** The options a Database is built with: etc (-1 when unset), duplicity (-b), no_columns (-a). */
  datatype Config = Config(etc: int, duplicity: bool, noColumns: bool)

  type Graph = map<string, set<string>>

  /** The database during flush: the tables and the relation graph built so far. */
  datatype DbState = DbState(tables: map<string, TableState>, graph: Graph)

  /** The etc policy applies to a child counted `count` times (duplicity takes precedence). */
  predicate Inverted(cfg: Config, count: nat) {
    !cfg.duplicity && cfg.etc != -1 && count > cfg.etc
  }

  /** Every graph node is a table. */
  predicate Shaped(s: DbState) {
    s.graph.Keys == s.tables.Keys
  }

  /** Every table is well formed and stored under its own name. */
  ghost predicate TablesWellFormed(tables: map<string, TableState>) {
    forall n :: n in tables ==> WellFormed(tables[n]) && tables[n].name == n
  }

  /** Tables that differ at most in their foreign keys. */
  ghost predicate SameTables(a: map<string, TableState>, b: map<string, TableState>) {
    a.Keys == b.Keys && forall n :: n in a ==> b[n] == a[n].(keys := b[n].keys)
  }

  /** The name whose key stands for the k-th of several children: name + str(k). */
  function Numbered(name: string, k: nat): string {
    name + NatToString(k)
  }

  /**
   * The loop `for num in range(count)` from `num` on: refuse a numbered name
   * that is an attribute column, else set_key it.
   */
  function AddNumberedKeys(t: TableState, name: string, num: nat, count: nat): (r: Result<TableState, Fault>)
    ensures r.Ok? ==> r.value == t.(keys := r.value.keys)
    ensures r.Ok? && WellFormed(t) ==> WellFormed(r.value)
    ensures r.Err? ==> r.error == NameError
    decreases count - num
  {
    if num >= count then Ok(t)
    else if Numbered(name, num + 1) in t.columns then Err(NameError)
    else match WithKey(t, Numbered(name, num + 1))
      case Err(e) => Err(e)
      case Ok(u) => AddNumberedKeys(u, name, num + 1, count)
  }

  /** The keys of the default policy for a child counted `count` times. */
  function DefaultKeys(t: TableState, name: string, count: nat): (r: Result<TableState, Fault>)
    ensures r.Ok? ==> r.value == t.(keys := r.value.keys)
    ensures r.Ok? && WellFormed(t) ==> WellFormed(r.value)
    ensures r.Err? ==> r.error == NameError
  {
    if count == 1 then
      if name in t.columns then Err(NameError) else WithKey(t, name)
    else AddNumberedKeys(t, name, 0, count)
  }

  /** Store the table `holder` with its new keys and add the edge holder -> target. */
  function Keyed(s: DbState, holder: string, u: TableState, target: string): (r: DbState)
    requires holder in s.tables && Shaped(s) && u == s.tables[holder].(keys := u.keys)
    ensures SameTables(s.tables, r.tables) && Shaped(r)
    ensures TablesWellFormed(s.tables) && WellFormed(u) ==> TablesWellFormed(r.tables)
  {
    DbState(s.tables[holder := u], s.graph[holder := s.graph[holder] + {target}])
  }

  /** One iteration of flush's inner loop: child tag `name` of table `t`, counted `count` times. */
  function FlushPair(s: DbState, cfg: Config, t: string, name: string, count: nat): (r: Result<DbState, Fault>)
    requires t in s.tables && Shaped(s)
    ensures r.Ok? ==> SameTables(s.tables, r.value.tables) && Shaped(r.value)
    ensures r.Ok? && TablesWellFormed(s.tables) ==> TablesWellFormed(r.value.tables)
  {
    var table := s.tables[t];
    if cfg.duplicity then
      if name in table.columns then Err(NameError)
      else match WithKey(table, name)
        case Err(e) => Err(e)
        case Ok(u) => Ok(Keyed(s, t, u, name))
    else if cfg.etc != -1 && count > cfg.etc then
      if name !in s.tables then Err(KeyError(name))
      else if name in s.tables[name].columns then Err(NameError)
      else match WithKey(s.tables[name], t)
        case Err(e) => Err(e)
        case Ok(u) => Ok(Keyed(s, name, u, t))
    else
      match DefaultKeys(table, name, count)
      case Err(e) => Err(e)
      case Ok(u) => Ok(Keyed(s, t, u, name))
  }

  predicate AllTables(s: DbState, names: seq<string>) {
    forall i :: 0 <= i < |names| ==> names[i] in s.tables
  }

  predicate AllCounted(s: DbState, t: string, names: seq<string>)
    requires t in s.tables
  {
    forall i :: 0 <= i < |names| ==> names[i] in s.tables[t].counts
  }

  /** flush's outer loop from the table `order[0]` on. */
  function FlushFrom(s: DbState, cfg: Config, order: seq<string>): Result<DbState, Fault>
    requires Shaped(s) && TablesWellFormed(s.tables) && AllTables(s, order)
    decreases |order|, 0
  {
    if order == [] then Ok(s)
    else FlushChildren(s, cfg, order[0], s.tables[order[0]].countOrder, order[1..])
  }

  /** flush's inner loop over the child tags `names` of table `t`, then the tables `rest`. */
  function FlushChildren(s: DbState, cfg: Config, t: string, names: seq<string>, rest: seq<string>)
    : Result<DbState, Fault>
    requires Shaped(s) && TablesWellFormed(s.tables) && t in s.tables
    requires AllTables(s, rest) && AllCounted(s, t, names)
    decreases |rest|, |names| + 1
  {
    if names == [] then FlushFrom(s, cfg, rest)
    else match FlushPair(s, cfg, t, names[0], s.tables[t].counts[names[0]])
      case Err(e) => Err(e)
      case Ok(next) =>
        StepKeeps(s, next, t, names, rest);
        FlushChildren(next, cfg, t, names[1..], rest)
  }

  /** A pair step keeps the tables and their counts, so the loop can go on over the remaining tags. */
  lemma StepKeeps(s: DbState, next: DbState, t: string, names: seq<string>, rest: seq<string>)
    requires SameTables(s.tables, next.tables) && t in s.tables && names != []
    requires AllTables(s, rest) && AllCounted(s, t, names)
    ensures AllTables(next, rest) && AllCounted(next, t, names[1..])
  {
    assert next.tables[t].counts == s.tables[t].counts;
    assert forall i :: 0 <= i < |names[1..]| ==> names[1..][i] == names[i + 1];
  }

  /** The relation graph flush starts from: one empty set per table. */
  function EmptyGraph(tables: map<string, TableState>): (g: Graph)
    ensures g.Keys == tables.Keys
  {
    map n | n in tables :: {}
  }

  /** Database.flush on the tables `tables` listed in entry order `order`. */
  function Flushed(tables: map<string, TableState>, order: seq<string>, cfg: Config): Result<DbState, Fault>
    requires TablesWellFormed(tables)
    requires forall i :: 0 <= i < |order| ==> order[i] in tables
  {
    FlushFrom(DbState(tables, EmptyGraph(tables)), cfg, order)
  }
}
