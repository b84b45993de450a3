/**
 Masking a destination: either it ends up masked, or it ends up gone.

 `Server` holds, for each database, how many rows of each column are still unmasked. What
 a statement does to them is a function of an `Attempt`, any function at all; the read-back
 reports what is there.
 */
module Masking {
  import opened Common
  import opened Pipeline
  import Text

  datatype Place = Place(table: string, column: string)

  /** Rows still unmasked, by column. */
  type Content = map<Place, nat>

  function Unmasked(c: Content, p: Place): nat {
    if p in c then c[p] else 0
  }

  datatype MaskError =
    | DuplicateRule(rule: MaskRule)
    | UnknownTable(rule: MaskRule)
    | UnknownColumn(rule: MaskRule)
    | InvalidIdentifier(name: string)
    | NotMasked(place: Place, count: int)
    | Outside(reason: string)
    | UnmaskedDataLeftBehind(database: string)

  datatype TableCheck = TableCheck(table: string, columns: seq<string>)

  // ── Planning ──

  /** The name to look for among a table's columns: for a document store, the root of a dotted path. */
  function Wanted(engine: Engine, column: string): string {
    if engine.Mongo? then Text.Split(column, '.')[0] else column
  }

  /** The rule at `i` can be planned: not a repetition, and on a known column if its table carries data. */
  predicate Plannable(engine: Engine, rules: seq<MaskRule>, withData: seq<string>, columns: map<string, seq<string>>,
                      i: nat)
    requires i < |rules|
  {
    && (forall j | 0 <= j < i :: rules[j] != rules[i])
    && (rules[i].table in withData ==>
      rules[i].table in columns && Wanted(engine, rules[i].column) in columns[rules[i].table])
  }

  /** The rule at `i` is the first that cannot be planned, and this is why. */
  predicate FirstUnplannable(engine: Engine, rules: seq<MaskRule>, withData: seq<string>,
                             columns: map<string, seq<string>>, i: nat, e: MaskError) {
    && i < |rules| && (forall j | 0 <= j < i :: Plannable(engine, rules, withData, columns, j))
    && match e
       case DuplicateRule(rule) => rule == rules[i] && exists j :: 0 <= j < i && rules[j] == rule
       case UnknownTable(rule) =>
         && rule == rules[i] && (forall j | 0 <= j < i :: rules[j] != rule)
         && rule.table in withData && rule.table !in columns
       case UnknownColumn(rule) =>
         && rule == rules[i] && (forall j | 0 <= j < i :: rules[j] != rule)
         && rule.table in withData && rule.table in columns && Wanted(engine, rule.column) !in columns[rule.table]
       case _ => false
  }

  /** Of a document store's column the part before the first dot is wanted; of another's, the whole name. */
  lemma WantedExactly(engine: Engine, root: string, path: string)
    requires '.' !in root
    ensures Wanted(Mongo, root) == root && Wanted(Mongo, root + ['.'] + path) == root
    ensures !engine.Mongo? ==> Wanted(engine, root + ['.'] + path) == root + ['.'] + path
  {
    Text.SplitPrefix(root, [], '.');
    assert root + [] == root;
    Text.SplitPrefix(root, ['.'] + path, '.');
    assert root + ['.'] + path == root + (['.'] + path);
  }

  function Carrying(rules: seq<MaskRule>, withData: seq<string>, carrying: bool): seq<MaskRule> {
    if rules == [] then []
    else Carrying(rules[..|rules| - 1], withData, carrying)
         + if (rules[|rules| - 1].table in withData) == carrying then [rules[|rules| - 1]] else []
  }

  lemma {:induction false} CarryingIsFilter(rules: seq<MaskRule>, withData: seq<string>, carrying: bool, rule: MaskRule)
    ensures rule in Carrying(rules, withData, carrying) <==> rule in rules && (rule.table in withData) == carrying
  {
    if rules != [] {
      var last := |rules| - 1;
      assert rules == rules[..last] + [rules[last]];
      CarryingIsFilter(rules[..last], withData, carrying, rule);
    }
  }

  /** `plan_coverage`: refuses the first rule that would do nothing on a table carrying data. */
  method PlanCoverage(engine: Engine, rules: seq<MaskRule>, withData: seq<string>, columns: map<string, seq<string>>)
    returns (r: Result<Coverage, MaskError>)
    ensures r.Ok? <==> forall i | 0 <= i < |rules| :: Plannable(engine, rules, withData, columns, i)
    ensures r.Ok? ==> r.value == Coverage(Carrying(rules, withData, true), Carrying(rules, withData, false))
    ensures r.Err? ==> exists i: nat :: FirstUnplannable(engine, rules, withData, columns, i, r.error)
  {
    var seen: set<MaskRule> := {};
    var effective, inert := [], [];
    for i := 0 to |rules|
      invariant seen == set rule <- rules[..i]
      invariant effective == Carrying(rules[..i], withData, true) && inert == Carrying(rules[..i], withData, false)
      invariant forall j | 0 <= j < i :: Plannable(engine, rules, withData, columns, j)
    {
      var rule := rules[i];
      assert rules[..i + 1][..i] == rules[..i];
      if rule in seen {
        assert !Plannable(engine, rules, withData, columns, i);
        assert FirstUnplannable(engine, rules, withData, columns, i, DuplicateRule(rule));
        return Err(DuplicateRule(rule));
      }
      seen := seen + {rule};
      if rule.table !in withData {
        inert := inert + [rule];
      } else if rule.table !in columns {
        assert !Plannable(engine, rules, withData, columns, i);
        assert FirstUnplannable(engine, rules, withData, columns, i, UnknownTable(rule));
        return Err(UnknownTable(rule));
      } else if Wanted(engine, rule.column) !in columns[rule.table] {
        assert !Plannable(engine, rules, withData, columns, i);
        assert FirstUnplannable(engine, rules, withData, columns, i, UnknownColumn(rule));
        return Err(UnknownColumn(rule));
      } else {
        effective := effective + [rule];
      }
    }
    assert rules[..|rules|] == rules;
    r := Ok(Coverage(effective, inert));
  }

  // ── The statements ──

  /** The columns the rules name in one table, in rule order. */
  function ColumnsOf(rules: seq<MaskRule>, table: string): seq<string> {
    if rules == [] then []
    else ColumnsOf(rules[..|rules| - 1], table)
         + if rules[|rules| - 1].table == table then [rules[|rules| - 1].column] else []
  }

  lemma {:induction false} RuleIsInColumns(rules: seq<MaskRule>, rule: MaskRule)
    requires rule in rules
    ensures rule.column in ColumnsOf(rules, rule.table)
  {
    var last := |rules| - 1;
    assert rules == rules[..last] + [rules[last]];
    if rule != rules[last] {
      RuleIsInColumns(rules[..last], rule);
    }
  }

  /** One check for each table, covering every rule on it. */
  ghost predicate Grouped(checks: seq<TableCheck>, rules: seq<MaskRule>) {
    && (forall i | 0 <= i < |checks| :: checks[i].columns == ColumnsOf(rules, checks[i].table) != [])
    && (forall i, j | 0 <= i < j < |checks| :: checks[i].table != checks[j].table)
    && (forall rule <- rules :: exists i :: 0 <= i < |checks| && checks[i].table == rule.table)
  }

  predicate Quotable(name: string) {
    '\0' !in name
  }

  ghost predicate ByTable(byTable: map<string, seq<string>>, rules: seq<MaskRule>) {
    && (forall t | t in byTable :: byTable[t] == ColumnsOf(rules, t) != [])
    && (forall t | t !in byTable :: ColumnsOf(rules, t) == [])
  }

  lemma ByTableOn(byTable: map<string, seq<string>>, rules: seq<MaskRule>, rule: MaskRule)
    requires ByTable(byTable, rules)
    ensures var columns := if rule.table in byTable then byTable[rule.table] else [];
      ByTable(byTable[rule.table := columns + [rule.column]], rules + [rule])
  {
    assert (rules + [rule])[..|rules|] == rules;
    assert forall t ::
      ColumnsOf(rules + [rule], t) == ColumnsOf(rules, t) + if rule.table == t then [rule.column] else [];
  }

  method GroupByTable(rules: seq<MaskRule>) returns (byTable: map<string, seq<string>>)
    ensures ByTable(byTable, rules)
  {
    byTable := map[];
    for i := 0 to |rules|
      invariant ByTable(byTable, rules[..i])
    {
      ByTableOn(byTable, rules[..i], rules[i]);
      assert rules[..i + 1] == rules[..i] + [rules[i]];
      var rule := rules[i];
      if rule.table !in byTable {
        byTable := byTable[rule.table := []];
      }
      byTable := byTable[rule.table := byTable[rule.table] + [rule.column]];
    }
    assert rules[..|rules|] == rules;
  }

  method FirstUnquotable(names: seq<string>) returns (r: Option<string>)
    ensures r.None? <==> forall n <- names :: Quotable(n)
    ensures r.Some? ==> r.value in names && !Quotable(r.value)
  {
    for j := 0 to |names|
      invariant forall k | 0 <= k < j :: Quotable(names[k])
    {
      if !Quotable(names[j]) {
        return Some(names[j]);
      }
    }
    r := None;
  }

  /** The tables of `left` still need a check. */
  ghost predicate Checked(checks: seq<TableCheck>, rules: seq<MaskRule>, left: set<string>) {
    && (forall i | 0 <= i < |checks| ::
      checks[i].table !in left && checks[i].columns == ColumnsOf(rules, checks[i].table) != [])
    && (forall i, j | 0 <= i < j < |checks| :: checks[i].table != checks[j].table)
    && (forall rule <- rules | rule.table !in left :: exists i :: 0 <= i < |checks| && checks[i].table == rule.table)
    && (forall rule <- rules | rule.table !in left :: Quotable(rule.table) && Quotable(rule.column))
  }

  lemma CheckedOn(checks: seq<TableCheck>, rules: seq<MaskRule>, left: set<string>, table: string)
    requires Checked(checks, rules, left) && table in left && Quotable(table) && ColumnsOf(rules, table) != []
    requires forall c <- ColumnsOf(rules, table) :: Quotable(c)
    ensures Checked(checks + [TableCheck(table, ColumnsOf(rules, table))], rules, left - {table})
  {
    var after := checks + [TableCheck(table, ColumnsOf(rules, table))];
    forall rule <- rules | rule.table !in left - {table}
      ensures exists i :: 0 <= i < |after| && after[i].table == rule.table
      ensures Quotable(rule.table) && Quotable(rule.column)
    {
      if rule.table == table {
        assert after[|checks|].table == table;
        RuleIsInColumns(rules, rule);
      } else {
        var i :| 0 <= i < |checks| && checks[i].table == rule.table;
        assert after[i].table == rule.table;
      }
    }
  }

  /** `check_statements`: groups the rules by table. An identifier that cannot be quoted stops it. */
  method CheckStatements(rules: seq<MaskRule>) returns (r: Result<seq<TableCheck>, MaskError>)
    ensures r.Ok? ==> Grouped(r.value, rules)
    ensures r.Ok? <==> forall rule <- rules :: '\0' !in rule.table && '\0' !in rule.column
    ensures r.Err? ==> r.error.InvalidIdentifier? && '\0' in r.error.name
    ensures r.Err? ==> exists rule <- rules :: rule.table == r.error.name || rule.column == r.error.name
  {
    var byTable := GroupByTable(rules);
    var checks: seq<TableCheck> := [];
    var left := byTable.Keys;
    forall rule <- rules ensures rule.table in byTable {
      RuleIsInColumns(rules, rule);
    }
    while left != {}
      invariant left <= byTable.Keys && Checked(checks, rules, left)
      decreases |left|
    {
      var table :| table in left;
      if !Quotable(table) {
        ColumnHasRule(rules, table, byTable[table][0]);
        return Err(InvalidIdentifier(table));
      }
      var bad := FirstUnquotable(byTable[table]);
      if bad.Some? {
        ColumnHasRule(rules, table, bad.value);
        return Err(InvalidIdentifier(bad.value));
      }
      CheckedOn(checks, rules, left, table);
      left := left - {table};
      checks := checks + [TableCheck(table, byTable[table])];
    }
    r := Ok(checks);
  }

  lemma {:induction false} ColumnHasRule(rules: seq<MaskRule>, table: string, column: string)
    requires column in ColumnsOf(rules, table)
    ensures MaskRule(table, column) in rules
  {
    var last := |rules| - 1;
    if rules[last] != MaskRule(table, column) {
      ColumnHasRule(rules[..last], table, column);
    }
  }

  // ── The destination ──

  /** What the outside does during one masking. */
  datatype Attempt = Attempt(
    secret: bool,
    reached: bool,
    rewrite: Content -> (Content, Result<seq<nat>, string>),
    counted: bool,
    dropped: bool)

  function CountsIn(c: Content, check: TableCheck): (counts: seq<int>)
    ensures |counts| == |check.columns|
    ensures forall j | 0 <= j < |check.columns| :: counts[j] == Unmasked(c, Place(check.table, check.columns[j]))
  {
    seq(|check.columns|, j requires 0 <= j < |check.columns| => Unmasked(c, Place(check.table, check.columns[j])))
  }

  class Server {
    var databases: map<string, Content>

    /** `execute_batch`: no transaction, so a failure keeps what was already rewritten. */
    method Execute(database: string, attempt: Attempt) returns (r: Result<seq<nat>, MaskError>)
      modifies this
      ensures r.Ok? <==> database in old(databases) && attempt.rewrite(old(databases)[database]).1.Ok?
      ensures r.Err? ==> r.error.Outside?
      ensures databases == Rewritten(old(databases), database, attempt)
    {
      if database !in databases {
        return Err(Outside("no such database"));
      }
      var after := attempt.rewrite(databases[database]);
      databases := databases[database := after.0];
      match after.1 {
        case Ok(rows) => r := Ok(rows);
        case Err(reason) => r := Err(Outside(reason));
      }
    }

    /** `fetch_count_rows`: one row for each query, one count for each column. */
    method Count(database: string, checks: seq<TableCheck>, attempt: Attempt)
      returns (r: Result<seq<seq<int>>, MaskError>)
      ensures r.Ok? <==> attempt.counted && database in databases
      ensures r.Ok? ==> |r.value| == |checks|
      ensures r.Ok? ==> forall i | 0 <= i < |checks| :: r.value[i] == CountsIn(databases[database], checks[i])
      ensures r.Err? ==> r.error.Outside?
    {
      if !attempt.counted || database !in databases {
        return Err(Outside("reading counts"));
      }
      var rows: seq<seq<int>> := [];
      for i := 0 to |checks|
        invariant |rows| == i && forall k | 0 <= k < i :: rows[k] == CountsIn(databases[database], checks[k])
      {
        rows := rows + [CountsIn(databases[database], checks[i])];
      }
      r := Ok(rows);
    }

    /** `DROP DATABASE IF EXISTS`. */
    method Drop(database: string, attempt: Attempt) returns (ok: bool)
      modifies this
      ensures ok <==> attempt.dropped
      ensures databases == if ok then old(databases) - {database} else old(databases)
    {
      ok := attempt.dropped;
      if ok {
        databases := databases - {database};
      }
    }

    /** `run_mongo_masking`: the fields are read back one at a time. */
    method RunMongoMasking(database: string, coverage: Coverage, attempt: Attempt)
      returns (r: Result<seq<Place>, MaskError>)
      modifies this
      ensures databases ==
        if attempt.reached then Rewritten(old(databases), database, attempt) else old(databases)
      ensures attempt.reached ==> ReadAs(r, old(databases), database, coverage.effective, attempt)
      ensures !attempt.reached ==> r.Err? && r.error.Outside?
    {
      if !attempt.reached {
        return Err(Outside("the destination cannot be reached"));
      }
      var rewritten := Execute(database, attempt);
      if rewritten.Err? {
        return Err(rewritten.error);
      }
      if !attempt.counted || database !in databases {
        return Err(Outside("counting documents"));
      }
      var rules := coverage.effective;
      var confirmed: seq<Place> := [];
      for i := 0 to |rules|
        invariant AllMasked(databases[database], rules[..i]) && ArePlacesOf(confirmed, rules[..i])
      {
        var place := PlaceOf(rules[i]);
        var unmasked := Unmasked(databases[database], place);
        assert rules[..i + 1] == rules[..i] + [rules[i]] && rules[i] in rules;
        if unmasked > 0 {
          return Err(NotMasked(place, unmasked));
        }
        confirmed := confirmed + [place];
      }
      assert rules[..|rules|] == rules;
      r := Ok(confirmed);
    }

    /** `run_masking`. */
    method RunMasking(engine: Engine, database: string, coverage: Coverage, attempt: Attempt)
      returns (r: Result<seq<Place>, MaskError>)
      modifies this
      ensures databases == if GetsToWork(engine, coverage, attempt) then Rewritten(old(databases), database, attempt)
        else old(databases)
      ensures GetsToWork(engine, coverage, attempt) ==>
        ReadAs(r, old(databases), database, coverage.effective, attempt)
      ensures !GetsToWork(engine, coverage, attempt) ==> r.Err? && (r.error.Outside? || r.error.InvalidIdentifier?)
    {
      if !attempt.secret {
        return Err(Outside("no masking secret"));
      }
      if engine.Mongo? {
        r := RunMongoMasking(database, coverage, attempt);
        return;
      }
      var checks := CheckStatements(coverage.effective);
      if checks.Err? {
        return Err(checks.error);
      }
      if !attempt.reached {
        return Err(Outside("the destination cannot be reached"));
      }
      var affected := Execute(database, attempt);
      if affected.Err? {
        return Err(affected.error);
      }
      var counts := Count(database, checks.value, attempt);
      if counts.Err? {
        return Err(counts.error);
      }
      r := ReadBack(checks.value, counts.value);
      ReadBackMeans(checks.value, coverage.effective, databases[database], counts.value, r);
    }

    /**
     `mask_destination`: masked and read back, or dropped. Only when the drop fails too is
     unmasked data left behind, and the error says so.
     */
    method MaskDestination(engine: Engine, database: string, coverage: Coverage, attempt: Attempt)
      returns (r: Result<seq<Place>, MaskError>)
      modifies this
      ensures r.Ok? <==>
        GetsToWork(engine, coverage, attempt) && EndsMasked(old(databases), database, coverage.effective, attempt)
      ensures r.Ok? ==>
        && databases == Rewritten(old(databases), database, attempt)
        && database in databases && AllMasked(databases[database], coverage.effective)
        && ArePlacesOf(r.value, coverage.effective)
      ensures r.Err? && attempt.dropped ==>
        && databases == old(databases) - {database} && !r.error.UnmaskedDataLeftBehind?
        && (GetsToWork(engine, coverage, attempt) ==>
              ReadAs(r, old(databases), database, coverage.effective, attempt))
      ensures r.Err? && !attempt.dropped ==>
        && databases == (if GetsToWork(engine, coverage, attempt) then Rewritten(old(databases), database, attempt)
                         else old(databases))
        && r.error == UnmaskedDataLeftBehind(database)
    {
      r := RunMasking(engine, database, coverage, attempt);
      if r.Err? {
        var ok := Drop(database, attempt);
        if !ok {
          r := Err(UnmaskedDataLeftBehind(database));
        }
      }
    }
  }

  // ── What a masking comes to ──

  function PlaceOf(rule: MaskRule): Place { Place(rule.table, rule.column) }

  /** The statements ran on this database, as far as they went; no other is touched. */
  function Rewritten(databases: map<string, Content>, database: string, attempt: Attempt): map<string, Content> {
    if database in databases then databases[database := attempt.rewrite(databases[database]).0] else databases
  }

  ghost predicate AllMasked(c: Content, rules: seq<MaskRule>) {
    forall rule <- rules :: Unmasked(c, PlaceOf(rule)) == 0
  }

  ghost predicate ArePlacesOf(places: seq<Place>, rules: seq<MaskRule>) {
    forall p :: p in places <==> exists rule <- rules :: PlaceOf(rule) == p
  }

  /** Nothing stops the masking before its first statement. */
  ghost predicate GetsToWork(engine: Engine, coverage: Coverage, attempt: Attempt) {
    && attempt.secret && attempt.reached
    && (engine.Mongo? || forall rule <- coverage.effective :: '\0' !in rule.table && '\0' !in rule.column)
  }

  /** The statements went through, the read-back could be made, and it found nothing. */
  ghost predicate EndsMasked(databases: map<string, Content>, database: string, rules: seq<MaskRule>,
                             attempt: Attempt) {
    && database in databases && attempt.rewrite(databases[database]).1.Ok? && attempt.counted
    && AllMasked(attempt.rewrite(databases[database]).0, rules)
  }

  /**
   A masking that got to work says exactly whether it ended masked, and if it did not, what
   it found or that it could not.
   */
  ghost predicate ReadAs(r: Result<seq<Place>, MaskError>, databases: map<string, Content>, database: string,
                         rules: seq<MaskRule>, attempt: Attempt) {
    && (r.Ok? <==> EndsMasked(databases, database, rules, attempt))
    && match r
       case Ok(places) => ArePlacesOf(places, rules)
       case Err(NotMasked(place, count)) =>
         && database in databases && (exists rule <- rules :: PlaceOf(rule) == place)
         && count == Unmasked(attempt.rewrite(databases[database]).0, place) > 0
       case Err(e) => e.Outside?
  }

  /** A count that did not come back reads as zero. */
  function Reads(counts: seq<seq<int>>, i: nat, j: nat): int {
    if i < |counts| && j < |counts[i]| then counts[i][j] else 0
  }

  /** The columns of the checks whose rows came back. */
  ghost predicate AreColumnsOf(places: seq<Place>, checks: seq<TableCheck>, n: nat)
    requires n <= |checks|
  {
    forall p :: p in places <==>
      exists i, j :: 0 <= i < n && 0 <= j < |checks[i].columns| && p == Place(checks[i].table, checks[i].columns[j])
  }

  predicate NothingFound(checks: seq<TableCheck>, counts: seq<seq<int>>, n: nat)
    requires n <= |checks|
  {
    forall i, j | 0 <= i < n && 0 <= j < |checks[i].columns| :: Reads(counts, i, j) <= 0
  }

  function Shorter(checks: seq<TableCheck>, counts: seq<seq<int>>): nat {
    if |checks| < |counts| then |checks| else |counts|
  }

  /** This column is the first that is not masked, and the error says so. */
  ghost predicate FoundAt(checks: seq<TableCheck>, counts: seq<seq<int>>, i: nat, j: nat, e: MaskError) {
    && i < |checks| && i < |counts| && j < |checks[i].columns| && Reads(counts, i, j) > 0
    && e == NotMasked(Place(checks[i].table, checks[i].columns[j]), Reads(counts, i, j))
    && NothingFound(checks, counts, i) && forall b | 0 <= b < j :: Reads(counts, i, b) <= 0
  }

  lemma {:induction false} RuleOfColumn(rules: seq<MaskRule>, check: TableCheck, j: nat)
    requires check.columns == ColumnsOf(rules, check.table) && j < |check.columns|
    ensures MaskRule(check.table, check.columns[j]) in rules
  {
    ColumnHasRule(rules, check.table, check.columns[j]);
  }

  lemma ColumnOfRule(checks: seq<TableCheck>, rules: seq<MaskRule>, rule: MaskRule) returns (i: nat, j: nat)
    requires Grouped(checks, rules) && rule in rules
    ensures i < |checks| && j < |checks[i].columns|
    ensures checks[i].table == rule.table && checks[i].columns[j] == rule.column
  {
    i :| 0 <= i < |checks| && checks[i].table == rule.table;
    RuleIsInColumns(rules, rule);
    j :| 0 <= j < |checks[i].columns| && checks[i].columns[j] == rule.column;
  }

  lemma NothingFoundExactly(checks: seq<TableCheck>, rules: seq<MaskRule>, c: Content, counts: seq<seq<int>>)
    requires Grouped(checks, rules) && |counts| == |checks|
    requires forall i | 0 <= i < |checks| :: counts[i] == CountsIn(c, checks[i])
    ensures NothingFound(checks, counts, |checks|) <==> AllMasked(c, rules)
  {
    if NothingFound(checks, counts, |checks|) {
      forall rule <- rules ensures Unmasked(c, PlaceOf(rule)) == 0 {
        var i, j := ColumnOfRule(checks, rules, rule);
        assert Reads(counts, i, j) == Unmasked(c, PlaceOf(rule));
      }
    } else {
      var i, j :| 0 <= i < |checks| && 0 <= j < |checks[i].columns| && Reads(counts, i, j) > 0;
      RuleOfColumn(rules, checks[i], j);
      assert Reads(counts, i, j) == Unmasked(c, PlaceOf(MaskRule(checks[i].table, checks[i].columns[j])));
    }
  }

  lemma ColumnsArePlaces(places: seq<Place>, checks: seq<TableCheck>, rules: seq<MaskRule>)
    requires Grouped(checks, rules) && AreColumnsOf(places, checks, |checks|)
    ensures ArePlacesOf(places, rules)
  {
    forall p ensures p in places <==> exists rule <- rules :: PlaceOf(rule) == p {
      if p in places {
        var i, j :| 0 <= i < |checks| && 0 <= j < |checks[i].columns|
          && p == Place(checks[i].table, checks[i].columns[j]);
        RuleOfColumn(rules, checks[i], j);
        assert PlaceOf(MaskRule(p.table, p.column)) == p;
      }
      if rule :| rule in rules && PlaceOf(rule) == p {
        var i, j := ColumnOfRule(checks, rules, rule);
      }
    }
  }

  lemma ReadBackMeans(checks: seq<TableCheck>, rules: seq<MaskRule>, c: Content, counts: seq<seq<int>>,
                      r: Result<seq<Place>, MaskError>)
    requires Grouped(checks, rules) && |counts| == |checks|
    requires forall i | 0 <= i < |checks| :: counts[i] == CountsIn(c, checks[i])
    requires r.Ok? <==> NothingFound(checks, counts, |checks|)
    requires r.Ok? ==> AreColumnsOf(r.value, checks, |checks|)
    requires r.Err? ==> exists i: nat, j: nat :: FoundAt(checks, counts, i, j, r.error)
    ensures r.Ok? <==> AllMasked(c, rules)
    ensures r.Ok? ==> ArePlacesOf(r.value, rules)
    ensures r.Err? ==>
      && r.error.NotMasked? && r.error.count == Unmasked(c, r.error.place) > 0
      && exists rule <- rules :: PlaceOf(rule) == r.error.place
  {
    NothingFoundExactly(checks, rules, c, counts);
    if r.Ok? {
      ColumnsArePlaces(r.value, checks, rules);
    } else {
      var i: nat, j: nat :| FoundAt(checks, counts, i, j, r.error);
      RuleOfColumn(rules, checks[i], j);
      assert PlaceOf(MaskRule(checks[i].table, checks[i].columns[j])) == r.error.place;
    }
  }

  /** The loop over the checks and the rows that came back for them. */
  method ReadBack(checks: seq<TableCheck>, counts: seq<seq<int>>) returns (r: Result<seq<Place>, MaskError>)
    ensures r.Ok? <==> NothingFound(checks, counts, Shorter(checks, counts))
    ensures r.Ok? ==> AreColumnsOf(r.value, checks, Shorter(checks, counts))
    ensures r.Err? ==> exists i: nat, j: nat :: FoundAt(checks, counts, i, j, r.error)
  {
    var confirmed: seq<Place> := [];
    for i := 0 to Shorter(checks, counts)
      invariant NothingFound(checks, counts, i) && AreColumnsOf(confirmed, checks, i)
    {
      ghost var before := confirmed;
      for j := 0 to |checks[i].columns|
        invariant forall b | 0 <= b < j :: Reads(counts, i, b) <= 0
        invariant forall p :: p in confirmed <==>
          p in before || exists b :: 0 <= b < j && p == Place(checks[i].table, checks[i].columns[b])
      {
        var unmasked := Reads(counts, i, j);
        if unmasked > 0 {
          assert FoundAt(checks, counts, i, j, NotMasked(Place(checks[i].table, checks[i].columns[j]), unmasked));
          return Err(NotMasked(Place(checks[i].table, checks[i].columns[j]), unmasked));
        }
        confirmed := confirmed + [Place(checks[i].table, checks[i].columns[j])];
      }
    }
    r := Ok(confirmed);
  }

  /**
   From plan to read-back: when planning accepted the rules and the read-back of the planned
   ones was all zero, every rule on a table that carries data was obeyed.
   */
  lemma EveryRuleIsObeyed(rules: seq<MaskRule>, withData: seq<string>, c: Content)
    ensures (forall rule <- Carrying(rules, withData, true) :: Unmasked(c, Place(rule.table, rule.column)) == 0)
      <==> (forall rule <- rules | rule.table in withData :: Unmasked(c, Place(rule.table, rule.column)) == 0)
  {
    forall rule ensures rule in Carrying(rules, withData, true) <==> rule in rules && rule.table in withData {
      CarryingIsFilter(rules, withData, true, rule);
    }
  }
}
