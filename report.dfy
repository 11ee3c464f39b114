/**
 * Database.print_tablerel and the per-table part of print_xmlrel: a
 * depth-first walk over the relation graph (table -> tables it references)
 * that writes one relation line per table it reaches from the table being
 * described. The walk's route is shared by every call, so each table is
 * written at most once, and the 1:1 line back to the described table at
 * most once.
 */
module Report {
  import opened Text
  import opened Schema

  /** The relation_type attribute of a written line. */
  datatype Cardinality = OneToOne | OneToMany | ManyToOne | ManyToMany

  /** One `<relation to=... relation_type=...>` line. */
  datatype Line = Line(kind: Cardinality, target: string)

  /**
   * The `rel` argument: Forward (0) follows a reference from `from` to `to`,
   * Backward (1) a reference from `to` to `from`, Indirect (2) a table
   * reached through another one.
   */
  datatype Direction = Forward | Backward | Indirect

  /** Every referenced table is a node of the graph. */
  predicate GraphOk(g: Graph) {
    forall x :: x in g ==> g[x] <= g.Keys
  }

  /** `names` lists the entries: exactly the nodes of the graph. */
  predicate Listed(names: seq<string>, g: Graph) {
    (forall i :: 0 <= i < |names| ==> names[i] in g) && (forall x :: x in g ==> x in names)
  }

  /** The tables that reference `y`. */
  function Referrers(g: Graph, y: string): set<string> {
    set x | x in g && y in g[x]
  }

  /** The tables `y` references or is referenced by. */
  function Neighbours(g: Graph, y: string): set<string> {
    (if y in g then g[y] else {}) + Referrers(g, y)
  }

  function Visited(route: seq<string>): set<string> {
    set x | x in route
  }

  function Targets(out: seq<Line>): set<string> {
    set i | 0 <= i < |out| :: out[i].target
  }

  /** Every one of the tables in `s` has all its neighbours in `s`. */
  ghost predicate Closed(g: Graph, s: set<string>) {
    forall x :: x in s ==> Neighbours(g, x) <= s
  }

  /**
   * The walk's state: the i-th line names the i-th table of the route, a
   * 1:1 line is exactly a line about the described table `origin`, and
   * `printed` records whether that line was written.
   */
  ghost predicate Inv(g: Graph, origin: string, printed: bool, route: seq<string>, out: seq<Line>) {
    && GraphOk(g) && origin in g && Distinct(route) && |out| == |route|
    && (forall i :: 0 <= i < |route| ==>
          && route[i] in g && out[i].target == route[i]
          && (out[i].kind == OneToOne <==> route[i] == origin))
    && (printed <==> origin in route)
  }

  /** The route and the output only grow, and `printed` is never reset. */
  predicate Extends(printed: bool, route: seq<string>, out: seq<Line>,
                    printed': bool, route': seq<string>, out': seq<Line>) {
    route <= route' && out <= out' && (printed ==> printed')
  }

  /** Every table other than `origin` added to the route has all its neighbours on it. */
  ghost predicate NewClosed(g: Graph, origin: string, route: seq<string>, route': seq<string>) {
    forall y :: y in route' && y !in route && y != origin ==> Neighbours(g, y) <= Visited(route')
  }

  /** Whether a call of print_tablerel writes a line for `to` and walks on from it. */
  predicate Fires(g: Graph, origin: string, from: string, to: string, dir: Direction, route: seq<string>)
    requires from in g && to in g
  {
    match dir
    case Forward => to in g[from] && to !in route
    case Backward => from in g[to] && to !in route
    case Indirect => to !in route && to != origin
  }

  /**
   * The relation written for `to`: a reference in both directions is N:M,
   * a reference from `from` to `to` alone N:1, from `to` to `from` alone
   * 1:N, and a table reached indirectly N:M.
   */
  function Kind(g: Graph, from: string, to: string, dir: Direction): (c: Cardinality)
    requires from in g && to in g
    requires dir == Forward ==> to in g[from]
    requires dir == Backward ==> from in g[to]
    ensures c != OneToOne
    ensures dir != Indirect ==> (c == ManyToMany <==> to in g[from] && from in g[to])
    ensures dir == Forward && c != ManyToMany ==> c == ManyToOne
    ensures dir == Backward && c != ManyToMany ==> c == OneToMany
  {
    match dir
    case Forward => if from in g[to] then ManyToMany else ManyToOne
    case Backward => if to in g[from] then ManyToMany else OneToMany
    case Indirect => ManyToMany
  }

  /** The `rel` of the recursive calls over the tables `to` references. */
  function KeysDirection(dir: Direction): (d: Direction)
    ensures d != Backward
  {
    if dir == Forward then Forward else Indirect
  }

  /** The `rel` of the recursive calls over the tables that reference `to`. */
  function ReferrersDirection(dir: Direction): (d: Direction)
    ensures d != Forward
  {
    if dir == Backward then Backward else Indirect
  }

  // ---------------------------------------------------------------------
  // Facts about the termination measure and the invariants.

  lemma SubsetCardinality(a: set<string>, b: set<string>)
    requires a <= b
    ensures |a| <= |b|
    ensures a < b ==> |a| < |b|
  {
    assert b == a + (b - a);
    if a < b {
      var x :| x in b && x !in a;
    }
  }

  /** The number of tables not yet on the route never grows. */
  lemma MeasureShrinks(g: Graph, a: seq<string>, b: seq<string>)
    requires a <= b
    ensures |g.Keys - Visited(b)| <= |g.Keys - Visited(a)|
  {
    assert forall x :: x in a ==> x in b by {
      forall x | x in a ensures x in b {
        var i :| 0 <= i < |a| && a[i] == x;
        assert b[i] == x;
      }
    }
    SubsetCardinality(g.Keys - Visited(b), g.Keys - Visited(a));
  }

  /** Putting a new table on the route shrinks the measure. */
  lemma MeasureAppend(g: Graph, route: seq<string>, to: string)
    requires to in g && to !in route
    ensures |g.Keys - Visited(route + [to])| < |g.Keys - Visited(route)|
  {
    assert to in g.Keys - Visited(route);
    assert to !in g.Keys - Visited(route + [to]);
    assert g.Keys - Visited(route + [to]) <= g.Keys - Visited(route);
    SubsetCardinality(g.Keys - Visited(route + [to]), g.Keys - Visited(route));
  }

  lemma VisitedGrows(a: seq<string>, b: seq<string>)
    requires a <= b
    ensures Visited(a) <= Visited(b)
  {
    forall x | x in a ensures x in b {
      var i :| 0 <= i < |a| && a[i] == x;
      assert b[i] == x;
    }
  }

  lemma NewClosedTransitive(g: Graph, origin: string, a: seq<string>, b: seq<string>, c: seq<string>)
    requires a <= b <= c && NewClosed(g, origin, a, b) && NewClosed(g, origin, b, c)
    ensures NewClosed(g, origin, a, c)
  {
    VisitedGrows(b, c);
    VisitedGrows(a, b);
  }

  /** Writing a line that is not 1:1 for a table not yet on the route keeps the invariant. */
  lemma AppendStep(g: Graph, origin: string, printed: bool, route: seq<string>, out: seq<Line>, line: Line)
    requires Inv(g, origin, printed, route, out)
    requires line.target in g && line.target !in route && line.target != origin && line.kind != OneToOne
    ensures Inv(g, origin, printed, route + [line.target], out + [line])
  {
    var r1, o1 := route + [line.target], out + [line];
    forall i | 0 <= i < |r1|
      ensures r1[i] in g && o1[i].target == r1[i] && (o1[i].kind == OneToOne <==> r1[i] == origin)
    {
      if i < |route| {
        assert r1[i] == route[i] && o1[i] == out[i];
      }
    }
  }

  /** Writing the 1:1 line back to `origin` keeps the invariant. */
  lemma OneToOneStep(g: Graph, origin: string, route: seq<string>, out: seq<Line>, route0: seq<string>)
    requires Inv(g, origin, false, route, out) && route0 <= route && NewClosed(g, origin, route0, route)
    ensures Inv(g, origin, true, route + [origin], out + [Line(OneToOne, origin)])
    ensures NewClosed(g, origin, route0, route + [origin]) && route0 <= route + [origin]
  {
    VisitedGrows(route, route + [origin]);
  }

  // ---------------------------------------------------------------------
  // The walk.

  /**
   * print_tablerel: when the call fires, it writes the line for `to`,
   * puts `to` on the route and walks on over the tables `to` references
   * and those that reference it; otherwise it changes nothing.
   * The last requires is the calling protocol that rules out the silent
   * branch (a 1:N call from the described table to a table already both
   * referencing and referenced): print_xmlrel's first loop has put every
   * such table on the route, and recursive calls never start from `origin`.
   */
  method PrintTablerel(g: Graph, names: seq<string>, origin: string, from: string, to: string, dir: Direction,
                       printed: bool, route: seq<string>, out: seq<Line>)
    returns (printed': bool, route': seq<string>, out': seq<Line>)
    requires Inv(g, origin, printed, route, out) && Listed(names, g) && from in g && to in g
    requires to == origin ==> printed
    requires dir == Backward && from == origin && to in g[from] ==> to in route
    ensures Extends(printed, route, out, printed', route', out') && Inv(g, origin, printed', route', out')
    ensures NewClosed(g, origin, route, route')
    ensures !Fires(g, origin, from, to, dir, route) ==> printed' == printed && route' == route && out' == out
    ensures Fires(g, origin, from, to, dir, route) ==>
              && |route| < |route'| && route'[|route|] == to
              && (dir == Forward ==> to in g[from]) && (dir == Backward ==> from in g[to])
              && out'[|route|] == Line(Kind(g, from, to, dir), to)
              && Neighbours(g, to) <= Visited(route')
    decreases |g.Keys - Visited(route)|, 1
  {
    printed', route', out' := printed, route, out;
    if dir == Forward {
      if to in g[from] && to !in route {
        var kind := if from in g[to] then ManyToMany else ManyToOne;
        printed', route', out' := Visit(g, names, origin, to, dir, Line(kind, to), printed, route, out);
      }
    } else if dir == Backward {
      if from in g[to] && to !in route {
        if to in g[from] {
          if from != origin {
            printed', route', out' := Visit(g, names, origin, to, dir, Line(ManyToMany, to), printed, route, out);
          } else {
            assert false;
          }
        } else {
          printed', route', out' := Visit(g, names, origin, to, dir, Line(OneToMany, to), printed, route, out);
        }
      }
    } else {
      if to !in route && to != origin {
        printed', route', out' := Visit(g, names, origin, to, dir, Line(ManyToMany, to), printed, route, out);
      }
    }
  }

  /** A call of print_tablerel that fires: write `line` for `to`, put `to` on the route, walk on from it. */
  method Visit(g: Graph, names: seq<string>, origin: string, to: string, dir: Direction, line: Line,
               printed: bool, route: seq<string>, out: seq<Line>)
    returns (printed': bool, route': seq<string>, out': seq<Line>)
    requires Inv(g, origin, printed, route, out) && Listed(names, g) && to in g
    requires to !in route && to != origin && line.target == to && line.kind != OneToOne
    ensures Extends(printed, route, out, printed', route', out') && Inv(g, origin, printed', route', out')
    ensures NewClosed(g, origin, route, route')
    ensures |route| < |route'| && route'[|route|] == to && out'[|route|] == line
    ensures Neighbours(g, to) <= Visited(route')
    decreases |g.Keys - Visited(route)|, 0
  {
    var r1 := route + [to];
    var o1 := out + [line];
    MeasureAppend(g, route, to);
    AppendStep(g, origin, printed, route, out, line);
    printed', route', out' := Explore(g, names, origin, to, dir, printed, r1, o1);
    VisitedGrows(r1, route');
  }

  /** The two loops of print_tablerel that follow a table `at` just put on the route. */
  method Explore(g: Graph, names: seq<string>, origin: string, at: string, dir: Direction,
                 printed: bool, route: seq<string>, out: seq<Line>)
    returns (printed': bool, route': seq<string>, out': seq<Line>)
    requires Inv(g, origin, printed, route, out) && Listed(names, g)
    requires at in g && at in route && at != origin
    ensures Extends(printed, route, out, printed', route', out') && Inv(g, origin, printed', route', out')
    ensures NewClosed(g, origin, route, route') && Neighbours(g, at) <= Visited(route')
    decreases |g.Keys - Visited(route)|, 4
  {
    var p1, r1, o1 := FollowKeys(g, names, origin, at, KeysDirection(dir), printed, route, out);
    MeasureShrinks(g, route, r1);
    printed', route', out' := FollowReferrers(g, names, origin, at, ReferrersDirection(dir), p1, r1, o1);
    NewClosedTransitive(g, origin, route, r1, route');
    VisitedGrows(r1, route');
  }

  /**
   * The body both loops of print_tablerel share, for a table `x` linked to
   * `at`: the 1:1 line if `x` is the described table and that line is not
   * written yet, else a recursive call if `x` is not on the route.
   */
  method Step(g: Graph, names: seq<string>, origin: string, at: string, x: string, next: Direction,
              printed: bool, route: seq<string>, out: seq<Line>)
    returns (printed': bool, route': seq<string>, out': seq<Line>)
    requires Inv(g, origin, printed, route, out) && Listed(names, g)
    requires at in g && at in route && at != origin && x in g
    requires next == Forward ==> x in g[at]
    requires next == Backward ==> at in g[x]
    ensures Extends(printed, route, out, printed', route', out') && Inv(g, origin, printed', route', out')
    ensures NewClosed(g, origin, route, route') && x in route'
    decreases |g.Keys - Visited(route)|, 2
  {
    printed', route', out' := printed, route, out;
    if x == origin && !printed {
      OneToOneStep(g, origin, route, out, route);
      out' := out + [Line(OneToOne, origin)];
      route' := route + [origin];
      printed' := true;
    } else if x !in route {
      printed', route', out' := PrintTablerel(g, names, origin, at, x, next, printed, route, out);
    }
  }

  /** "Check my foreign keys": every table `at` references, in the set's (arbitrary) order. */
  method FollowKeys(g: Graph, names: seq<string>, origin: string, at: string, next: Direction,
                    printed: bool, route: seq<string>, out: seq<Line>)
    returns (printed': bool, route': seq<string>, out': seq<Line>)
    requires Inv(g, origin, printed, route, out) && Listed(names, g)
    requires at in g && at in route && at != origin && next != Backward
    ensures Extends(printed, route, out, printed', route', out') && Inv(g, origin, printed', route', out')
    ensures NewClosed(g, origin, route, route') && g[at] <= Visited(route')
    decreases |g.Keys - Visited(route)|, 3
  {
    printed', route', out' := printed, route, out;
    var remaining := g[at];
    while remaining != {}
      invariant remaining <= g[at]
      invariant Extends(printed, route, out, printed', route', out') && Inv(g, origin, printed', route', out')
      invariant NewClosed(g, origin, route, route')
      invariant g[at] - remaining <= Visited(route')
      decreases |remaining|
    {
      var x :| x in remaining;
      var r0 := route';
      MeasureShrinks(g, route, route');
      printed', route', out' := Step(g, names, origin, at, x, next, printed', route', out');
      NewClosedTransitive(g, origin, route, r0, route');
      VisitedGrows(r0, route');
      assert x in Visited(route');
      remaining := remaining - {x};
    }
  }

  /** "Check for tables, which are referencing me": the entries that reference `at`, in entry order. */
  method FollowReferrers(g: Graph, names: seq<string>, origin: string, at: string, next: Direction,
                         printed: bool, route: seq<string>, out: seq<Line>)
    returns (printed': bool, route': seq<string>, out': seq<Line>)
    requires Inv(g, origin, printed, route, out) && Listed(names, g)
    requires at in g && at in route && at != origin && next != Forward
    ensures Extends(printed, route, out, printed', route', out') && Inv(g, origin, printed', route', out')
    ensures NewClosed(g, origin, route, route') && Referrers(g, at) <= Visited(route')
    decreases |g.Keys - Visited(route)|, 3
  {
    printed', route', out' := printed, route, out;
    for i := 0 to |names|
      invariant Extends(printed, route, out, printed', route', out') && Inv(g, origin, printed', route', out')
      invariant NewClosed(g, origin, route, route')
      invariant Covered(g, names[..i], at, Visited(route'))
    {
      var y := names[i];
      var r0 := route';
      if at in g[y] {
        MeasureShrinks(g, route, route');
        printed', route', out' := Step(g, names, origin, at, y, next, printed', route', out');
        NewClosedTransitive(g, origin, route, r0, route');
      }
      CoveredStep(g, names, i, at, r0, route');
    }
    CoveredAll(g, names, at, Visited(route'));
  }

  /** Every referrer of `at` among `names` is in `v`. */
  ghost predicate Covered(g: Graph, names: seq<string>, at: string, v: set<string>) {
    forall k :: 0 <= k < |names| && names[k] in g && at in g[names[k]] ==> names[k] in v
  }

  lemma CoveredStep(g: Graph, names: seq<string>, i: nat, at: string, r0: seq<string>, r1: seq<string>)
    requires i < |names| && r0 <= r1 && Covered(g, names[..i], at, Visited(r0))
    requires names[i] in g && at in g[names[i]] ==> names[i] in r1
    ensures Covered(g, names[..i + 1], at, Visited(r1))
  {
    VisitedGrows(r0, r1);
    forall k | 0 <= k < i + 1 && names[k] in g && at in g[names[k]] ensures names[k] in Visited(r1) {
      if k < i { assert names[..i][k] == names[k]; }
    }
    assert forall k :: 0 <= k < i + 1 ==> names[..i + 1][k] == names[k];
  }

  lemma CoveredAll(g: Graph, names: seq<string>, at: string, v: set<string>)
    requires Listed(names, g) && Covered(g, names[..|names|], at, v)
    ensures Referrers(g, at) <= v
  {
    assert names[..|names|] == names;
    forall x | x in Referrers(g, at) ensures x in v {
      var k :| 0 <= k < |names| && names[k] == x;
    }
  }

  /**
   * What the block for table `t1` guarantees: no table is named twice, all
   * named tables are entries, a line is 1:1 exactly when it names `t1`
   * (so there is at most one such line), every neighbour of `t1` is named, and the named tables are closed
   * under neighbours.
   */
  ghost predicate Describes(g: Graph, t1: string, out: seq<Line>) {
    && (forall i, j :: 0 <= i < j < |out| ==> out[i].target != out[j].target)
    && (forall i :: 0 <= i < |out| ==> out[i].target in g && (out[i].kind == OneToOne <==> out[i].target == t1))
    && (forall i, j :: 0 <= i < j < |out| ==> out[i].kind != OneToOne || out[j].kind != OneToOne)
    && Neighbours(g, t1) <= Targets(out)
    && Closed(g, Targets(out))
  }

  /**
   * The block print_xmlrel writes for table `t1`: one line per table it
   * reaches, none twice, the only 1:1 line being the one back to `t1`; every
   * neighbour of `t1` is listed, and the listed tables are closed under
   * neighbours, so every table connected to `t1` is listed (ReachableListed).
   */
  method TableReport(g: Graph, names: seq<string>, t1: string) returns (out: seq<Line>)
    requires GraphOk(g) && Listed(names, g) && t1 in g
    ensures Describes(g, t1, out)
  {
    var printed := false;
    var route: seq<string> := [];
    out := [];
    for i := 0 to |names|
      invariant Inv(g, t1, printed, route, out)
      invariant NewClosed(g, t1, [], route)
      invariant Referenced(g, names[..i], t1, Visited(route))
    {
      var r0 := route;
      if names[i] != t1 {
        printed, route, out := PrintTablerel(g, names, t1, t1, names[i], Forward, printed, route, out);
        NewClosedTransitive(g, t1, [], r0, route);
      }
      ReferencedStep(g, names, i, t1, r0, route);
    }
    ReferencedAll(g, names, t1, Visited(route));
    for i := 0 to |names|
      invariant Inv(g, t1, printed, route, out)
      invariant NewClosed(g, t1, [], route)
      invariant g[t1] - {t1} <= Visited(route)
      invariant Covered(g, names[..i], t1, Visited(route))
    {
      var y := names[i];
      var r0 := route;
      if t1 in g[y] {
        if y == t1 && !printed {
          OneToOneStep(g, t1, route, out, []);
          out := out + [Line(OneToOne, t1)];
          route := route + [t1];
          printed := true;
        } else {
          assert y in g[t1] && y != t1 ==> y in Visited(route);
          printed, route, out := PrintTablerel(g, names, t1, t1, y, Backward, printed, route, out);
          NewClosedTransitive(g, t1, [], r0, route);
        }
      }
      VisitedGrows(r0, route);
      CoveredStep(g, names, i, t1, r0, route);
    }
    CoveredAll(g, names, t1, Visited(route));
    Finished(g, t1, printed, route, out);
  }

  /** Every table among `names` other than `t1` that `t1` references is in `v`. */
  ghost predicate Referenced(g: Graph, names: seq<string>, t1: string, v: set<string>)
    requires t1 in g
  {
    forall k :: 0 <= k < |names| && names[k] != t1 && names[k] in g[t1] ==> names[k] in v
  }

  lemma ReferencedStep(g: Graph, names: seq<string>, i: nat, t1: string, r0: seq<string>, r1: seq<string>)
    requires t1 in g && i < |names| && r0 <= r1 && Referenced(g, names[..i], t1, Visited(r0))
    requires names[i] != t1 && names[i] in g[t1] ==> names[i] in r1
    ensures Referenced(g, names[..i + 1], t1, Visited(r1))
  {
    VisitedGrows(r0, r1);
    forall k | 0 <= k < i + 1 && names[k] != t1 && names[k] in g[t1] ensures names[k] in Visited(r1) {
      if k < i { assert names[..i][k] == names[k]; }
    }
    assert forall k :: 0 <= k < i + 1 ==> names[..i + 1][k] == names[k];
  }

  lemma ReferencedAll(g: Graph, names: seq<string>, t1: string, v: set<string>)
    requires t1 in g && Listed(names, g) && GraphOk(g) && Referenced(g, names[..|names|], t1, v)
    ensures g[t1] - {t1} <= v
  {
    assert names[..|names|] == names;
    forall x | x in g[t1] - {t1} ensures x in v {
      var k :| 0 <= k < |names| && names[k] == x;
    }
  }

  /** The invariants at the end of print_xmlrel's two loops make the block a description of `t1`. */
  lemma Finished(g: Graph, t1: string, printed: bool, route: seq<string>, out: seq<Line>)
    requires Inv(g, t1, printed, route, out) && NewClosed(g, t1, [], route)
    requires Neighbours(g, t1) <= Visited(route)
    ensures Describes(g, t1, out)
  {
    assert Targets(out) == Visited(route) by {
      forall x | x in Visited(route) ensures x in Targets(out) {
        var i :| 0 <= i < |route| && route[i] == x;
        assert out[i].target == x;
      }
    }
  }

  /** A path in the graph, where each step goes to a neighbour. */
  ghost predicate IsPath(g: Graph, p: seq<string>) {
    forall i :: 0 <= i < |p| - 1 ==> p[i + 1] in Neighbours(g, p[i])
  }

  /**
   * With the guarantees of TableReport (the neighbours of the described
   * table listed, the listed tables closed), every table at the end of a
   * path from the described table is listed.
   */
  lemma {:induction false} ReachableListed(g: Graph, listed: set<string>, p: seq<string>)
    requires IsPath(g, p) && |p| >= 2
    requires Neighbours(g, p[0]) <= listed && Closed(g, listed)
    ensures p[|p| - 1] in listed
  {
    if |p| > 2 {
      var q := p[..|p| - 1];
      assert IsPath(g, q) by {
        forall i | 0 <= i < |q| - 1 ensures q[i + 1] in Neighbours(g, q[i]) {
          assert q[i] == p[i] && q[i + 1] == p[i + 1];
        }
      }
      ReachableListed(g, listed, q);
      assert p[|p| - 1] in Neighbours(g, p[|p| - 2]);
    }
  }
}
