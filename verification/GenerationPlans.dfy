/** Generation plans: each selected table with its twin, in the order of tables, so
    that selected prerequisites stand before the tables that need them. */
module GenerationPlans {
  import opened Conversions
  import opened TableIds
  import opened TableNames
  import opened TableOrder
  import opened Wrappers

  /** A table and its twin, the smaller first; a self-twin stands alone. */
  type TablePair = (Material, Option<Material>)

  type Plan = seq<TablePair>

  function PairOf(t: Material): TablePair {
    var twin := TwinTable(t).0;
    if t == twin then (t, None)
    else if Compare(t, twin) == Less then (t, Some(twin))
    else (twin, Some(t))
  }

  /** Inserts a pair at its place, or replaces the pair with the same first table. */
  function InsertPair(plan: Plan, pair: TablePair): Plan {
    if plan == [] then [pair]
    else
      match Compare(pair.0, plan[0].0)
      case Less => [pair] + plan
      case Equal => [pair] + plan[1..]
      case Greater => [plan[0]] + InsertPair(plan[1..], pair)
  }

  ghost predicate Ascending(plan: Plan) {
    forall i, j | 0 <= i < j < |plan| :: Compare(plan[i].0, plan[j].0) == Less
  }

  predicate AreTables(tables: seq<Material>) {
    forall k | 0 <= k < |tables| :: IsTable(tables[k])
  }

  ghost predicate HasPair(tables: seq<Material>, pair: TablePair) {
    exists k :: 0 <= k < |tables| && PairOf(tables[k]) == pair
  }

  /** The pairs of the tables, in order and without duplicates. */
  ghost predicate IsPlan(plan: Plan, tables: seq<Material>) {
    && Ascending(plan)
    && forall pair :: pair in plan <==> HasPair(tables, pair)
  }

  // ---------------------------------------------------------------------
  // Pairs.

  /** The first table of a pair tells the pair, and twins share it. */
  lemma TwinsShareAPair(t: Material)
    requires IsTable(t)
    ensures PairOf(TwinTable(t).0) == PairOf(t)
    ensures PairOf(PairOf(t).0) == PairOf(t)
    ensures t == PairOf(t).0 || PairOf(t).1 == Some(t)
    ensures PairOf(t).1.Some? ==>
              Compare(PairOf(t).0, PairOf(t).1.value) == Less && PairOf(t).1.value == TwinTable(PairOf(t).0).0
    ensures PairOf(t).1.None? ==> TwinTable(t).0 == t
  {
    hide Compare, TwinTable, IsTable;
    TwinTableTwice(t);
    OrderIsLinear(t, TwinTable(t).0, t);
  }

  /** Both tables of a pair have the same pieces and pawns. */
  lemma PairsAreEquallySimple(t: Material)
    requires IsTable(t)
    ensures Pieces(PairOf(t).0) == Pieces(t) && PawnsOn(PairOf(t).0.key, 8) == PawnsOn(t.key, 8)
  {
    hide Compare, TwinTable, IsTable, Pieces, PawnsOn;
    TwinCountsAlike(t);
  }

  lemma TwinCountsAlike(t: Material)
    ensures Pieces(TwinTable(t).0) == Pieces(t) && PawnsOn(TwinTable(t).0.key, 8) == PawnsOn(t.key, 8)
  {
    hide Sum, PawnsOn;
    TwinTableKeepsGroup(t);
  }

  // ---------------------------------------------------------------------
  // Building a plan.

  lemma {:induction false} InsertKeepsAscending(plan: Plan, pair: TablePair)
    requires Ascending(plan)
    ensures Ascending(InsertPair(plan, pair))
    ensures forall q :: q in InsertPair(plan, pair) <==> q == pair || (q in plan && q.0 != pair.0)
  {
    hide Compare;
    if plan != [] {
      var rest := plan[1..];
      forall i | 0 <= i < |rest| ensures Compare(plan[0].0, rest[i].0) == Less {
        assert rest[i] == plan[i + 1];
      }
      assert forall i, j | 0 <= i < j < |rest| :: rest[i] == plan[i + 1] && rest[j] == plan[j + 1];
      InsertKeepsAscending(rest, pair);
      assert forall q :: q in plan <==> q == plan[0] || q in rest;
      InsertFirst(plan, pair);
    }
  }

  /** Where the first pair of the plan ends up. */
  lemma InsertFirst(plan: Plan, pair: TablePair)
    requires plan != [] && Ascending(plan) && Ascending(plan[1..])
    requires Ascending(InsertPair(plan[1..], pair))
    requires forall q :: q in InsertPair(plan[1..], pair) <==> q == pair || (q in plan[1..] && q.0 != pair.0)
    requires forall q :: q in plan <==> q == plan[0] || q in plan[1..]
    ensures Ascending(InsertPair(plan, pair))
    ensures forall q :: q in InsertPair(plan, pair) <==> q == pair || (q in plan && q.0 != pair.0)
  {
    hide Compare;
    var rest, inserted := plan[1..], InsertPair(plan[1..], pair);
    OrderIsLinear(pair.0, plan[0].0, pair.0);
    forall q | q in rest
      ensures Compare(plan[0].0, q.0) == Less
      ensures Compare(pair.0, plan[0].0) != Greater ==> Compare(pair.0, q.0) == Less
    {
      var i :| 0 <= i < |rest| && rest[i] == q;
      assert plan[i + 1] == q;
      OrderIsLinear(pair.0, plan[0].0, q.0);
    }
    forall q | q in rest ensures q.0 != plan[0].0 && (Compare(pair.0, plan[0].0) != Greater ==> q.0 != pair.0) {
      OrderIsLinear(plan[0].0, q.0, q.0);
      OrderIsLinear(pair.0, q.0, q.0);
    }
    match Compare(pair.0, plan[0].0)
    case Less => AscendingCons(pair, plan);
    case Equal => AscendingCons(pair, rest);
    case Greater => AscendingCons(plan[0], inserted);
  }

  lemma AscendingCons(first: TablePair, rest: Plan)
    requires Ascending(rest) && forall q | q in rest :: Compare(first.0, q.0) == Less
    ensures Ascending([first] + rest)
    ensures forall q :: q in [first] + rest <==> q == first || q in rest
  {
    hide Compare;
  }

  /** Adds the pairs of the tables one after the other. */
  method NewPlan(tables: seq<Material>) returns (plan: Plan)
    requires AreTables(tables)
    ensures IsPlan(plan, tables)
  {
    hide Compare, TwinTable, IsTable;
    plan := [];
    for k := 0 to |tables|
      invariant IsPlan(plan, tables[..k])
    {
      var table := tables[k];
      var twin := TwinTable(table).0;
      var pair :=
        if table == twin then (table, None)
        else if Compare(table, twin) == Less then (table, Some(twin))
        else (twin, Some(table));
      PlanStep(plan, tables, k);
      plan := InsertPair(plan, pair);
    }
    assert tables[..|tables|] == tables;
  }

  lemma PlanStep(plan: Plan, tables: seq<Material>, k: nat)
    requires AreTables(tables) && k < |tables| && IsPlan(plan, tables[..k])
    ensures IsPlan(InsertPair(plan, PairOf(tables[k])), tables[..k + 1])
  {
    hide Compare, TwinTable, IsTable, InsertPair, PairOf;
    var pair := PairOf(tables[k]);
    InsertKeepsAscending(plan, pair);
    forall q ensures HasPair(tables[..k + 1], q) <==> q == pair || HasPair(tables[..k], q) {
      MorePairs(tables, k, q);
    }
    forall q | q in plan && q.0 == pair.0 ensures q == pair {
      var i :| 0 <= i < k && PairOf(tables[..k][i]) == q;
      TwinsShareAPair(tables[i]);
      TwinsShareAPair(tables[k]);
    }
  }

  lemma MorePairs(tables: seq<Material>, k: nat, q: TablePair)
    requires k < |tables|
    ensures HasPair(tables[..k + 1], q) <==> q == PairOf(tables[k]) || HasPair(tables[..k], q)
  {
    hide PairOf;
    if HasPair(tables[..k + 1], q) && q != PairOf(tables[k]) {
      var i :| 0 <= i < k + 1 && PairOf(tables[..k + 1][i]) == q;
      assert tables[..k][i] == tables[i];
    }
    if HasPair(tables[..k], q) {
      var i :| 0 <= i < k && PairOf(tables[..k][i]) == q;
      assert tables[..k + 1][i] == tables[i];
    }
    assert tables[..k + 1][k] == tables[k];
  }

  // ---------------------------------------------------------------------
  // What plans are.

  lemma {:induction false} AscendingIsUnique(a: Plan, b: Plan)
    requires Ascending(a) && Ascending(b) && forall q :: q in a <==> q in b
    ensures a == b
  {
    hide Compare;
    assert a != [] ==> a[0] in b;
    assert b != [] ==> b[0] in a;
    if a == [] {
      assert b == [];
    } else {
      SmallestIsFirst(a, b[0]);
      SmallestIsFirst(b, a[0]);
      OrderIsLinear(a[0].0, b[0].0, a[0].0);
      assert a[0] == b[0];
      RestOf(a);
      RestOf(b);
      AscendingIsUnique(a[1..], b[1..]);
      assert a == [a[0]] + a[1..] && b == [b[0]] + b[1..];
    }
  }

  lemma SmallestIsFirst(plan: Plan, q: TablePair)
    requires Ascending(plan) && q in plan
    ensures q == plan[0] || Compare(plan[0].0, q.0) == Less
  {
    hide Compare;
    var i :| 0 <= i < |plan| && plan[i] == q;
  }

  lemma RestOf(plan: Plan)
    requires Ascending(plan) && plan != []
    ensures Ascending(plan[1..]) && forall q :: q in plan[1..] <==> q in plan && q != plan[0]
  {
    hide Compare;
    var rest := plan[1..];
    assert forall i | 0 <= i < |rest| :: rest[i] == plan[i + 1];
    forall q | q in rest ensures q in plan && q != plan[0] {
      var i :| 0 <= i < |rest| && rest[i] == q;
      assert Compare(plan[0].0, plan[i + 1].0) == Less;
      OrderIsLinear(q.0, q.0, q.0);
    }
  }

  /** A plan depends only on which pairs are selected: not on the order of the tables,
      on duplicates, or on which twin was named. */
  lemma PlanIsDetermined(plan: Plan, tables: seq<Material>, plan': Plan, tables': seq<Material>)
    requires IsPlan(plan, tables) && IsPlan(plan', tables')
    requires AreTables(tables) && AreTables(tables')
    requires forall t :: t in tables ==> t in tables' || TwinTable(t).0 in tables'
    requires forall t :: t in tables' ==> t in tables || TwinTable(t).0 in tables
    ensures plan == plan'
  {
    hide Compare, TwinTable, IsTable, PairOf, Ascending;
    forall q ensures HasPair(tables, q) <==> HasPair(tables', q) {
      PairsAgree(tables, tables', q);
      PairsAgree(tables', tables, q);
    }
    AscendingIsUnique(plan, plan');
  }

  lemma PairsAgree(tables: seq<Material>, tables': seq<Material>, q: TablePair)
    requires AreTables(tables) && forall t :: t in tables ==> t in tables' || TwinTable(t).0 in tables'
    ensures HasPair(tables, q) ==> HasPair(tables', q)
  {
    hide Compare, TwinTable, IsTable, PairOf;
    if HasPair(tables, q) {
      var k :| 0 <= k < |tables| && PairOf(tables[k]) == q;
      var t := tables[k];
      assert t in tables;
      TwinsShareAPair(t);
      var t' := if t in tables' then t else TwinTable(t).0;
      var i :| 0 <= i < |tables'| && tables'[i] == t';
    }
  }

  /** A conversion from a position of `t` leads to `u`. */
  ghost predicate LeadsTo(t: Material, u: Material) {
    exists s, c :: IsSetup(s) && TableOf(s) == t && Legal(s, c) && TableOf(Successor(s, c)) == u
  }

  /** Generating `t` and its twin asks for the outcomes of `u`. */
  ghost predicate IsPrerequisite(u: Material, t: Material) {
    LeadsTo(t, u) || LeadsTo(TwinTable(t).0, u)
  }

  lemma PrerequisiteIsSimpler(u: Material, t: Material)
    requires IsPrerequisite(u, t)
    ensures Simpler(u, t)
  {
    hide IsSetup, TableOf, Legal, Successor, TwinTable, Pieces, PawnsOn;
    TwinCountsAlike(t);
    var t' := if LeadsTo(t, u) then t else TwinTable(t).0;
    var s, c :| IsSetup(s) && TableOf(s) == t' && Legal(s, c) && TableOf(Successor(s, c)) == u;
    ConversionSimplifies(s, c);
  }

  /** In a plan, the pair of a selected prerequisite stands before the pair that needs
      it, and no table needs its own pair. */
  lemma PlanIsTopological(plan: Plan, tables: seq<Material>, t: Material, u: Material, i: nat, j: nat)
    requires IsPlan(plan, tables) && IsTable(t) && IsTable(u) && IsPrerequisite(u, t)
    requires i < |plan| && plan[i] == PairOf(u) && j < |plan| && plan[j] == PairOf(t)
    ensures i < j
  {
    hide Compare, IsTable, PairOf, IsPrerequisite, Pieces, PawnsOn;
    PrerequisiteIsSimpler(u, t);
    PairsAreEquallySimple(t);
    PairsAreEquallySimple(u);
    SimplerComesFirst(PairOf(u).0, PairOf(t).0);
    OrderIsLinear(PairOf(u).0, PairOf(t).0, PairOf(t).0);
  }

  /** Both twins of every selected table are in the plan, in one pair. */
  lemma SelectedArePlanned(plan: Plan, tables: seq<Material>, t: Material) returns (i: nat)
    requires IsPlan(plan, tables) && AreTables(tables) && t in tables
    ensures i < |plan| && plan[i] == PairOf(t)
    ensures (plan[i].0 == t || plan[i].1 == Some(t))
            && (plan[i].0 == TwinTable(t).0 || plan[i].1 == Some(TwinTable(t).0))
  {
    hide Compare, TwinTable, IsTable, Ascending;
    var k :| 0 <= k < |tables| && tables[k] == t;
    assert HasPair(tables, PairOf(t));
    i :| 0 <= i < |plan| && plan[i] == PairOf(t);
  }
}
