/** Queries as lists of clauses, and the description that is built from such a list. */
module QueryDescriptions {
  import opened Sequences
  import opened Results
  import opened RawRecords

  datatype ComparisonRight = RightValue(value: Value) | RightValues(values: seq<Value>) | RightColumn(column: string)

  datatype Comparison = Comparison(operator: string, right: ComparisonRight)

  datatype Where =
    | Compare(column: string, comparison: Comparison)
    | And(conditions: seq<Where>)
    | Or(conditions: seq<Where>)
    | On(table: string, conditions: seq<Where>)
    | SqlExpr(sql: string)
    | LokiExpr(loki: string)

  datatype SortBy = SortByColumn(column: string, ascending: bool) | SortByExpr(sql: string, ascending: bool)

  datatype SqlQuery = SqlQuery(sql: string, values: seq<Value>)

  datatype Clause =
    | Condition(condition: Where)
    | Sort(sortBy: SortBy)
    | Take(count: int)
    | Skip(count: int)
    | JoinTables(tables: seq<string>)
    | NestedJoin(from: string, to: string)
    | LokiTransform(transform: string)
    | UnsafeSql(query: SqlQuery)

  datatype QueryDescription = QueryDescription(
    where: seq<Where>,
    joinTables: seq<string>,
    nestedJoinTables: seq<(string, string)>,
    sortBy: seq<SortBy>,
    take: Option<int>,
    skip: Option<int>,
    lokiTransform: Option<string>,
    sql: Option<SqlQuery>)

  const EMPTY := QueryDescription([], [], [], [], None, None, None, None)

  // ---- Extracting ----

  /** The effect of one clause on the draft. */
  function AddClause(q: QueryDescription, clause: Clause): QueryDescription {
    match clause
    case Condition(w) =>
      q.(where := q.where + [w], joinTables := if w.On? then q.joinTables + [w.table] else q.joinTables)
    case Sort(sortBy) => q.(sortBy := q.sortBy + [sortBy])
    case Take(count) => q.(take := Some(count))
    case Skip(count) => q.(skip := Some(count))
    case JoinTables(tables) => q.(joinTables := q.joinTables + tables)
    case NestedJoin(from, to) => q.(nestedJoinTables := q.nestedJoinTables + [(from, to)])
    case LokiTransform(transform) => q.(lokiTransform := Some(transform))
    case UnsafeSql(query) => q.(sql := Some(query))
  }

  function Draft(clauses: seq<Clause>): QueryDescription {
    if clauses == [] then EMPTY else AddClause(Draft(clauses[..|clauses| - 1]), Last(clauses))
  }

  predicate AllowedWithSql(clause: Clause) {
    clause.UnsafeSql? || clause.JoinTables? || clause.NestedJoin?
  }

  /** A raw query stands alone, but for the tables that it joins. */
  predicate SqlIsAlone(clauses: seq<Clause>) {
    (exists i :: 0 <= i < |clauses| && clauses[i].UnsafeSql?) ==>
      forall i :: 0 <= i < |clauses| ==> AllowedWithSql(clauses[i])
  }

  function Extract(clauses: seq<Clause>): Result<QueryDescription> {
    if SqlIsAlone(clauses) then Ok(Draft(clauses).(joinTables := Unique(Draft(clauses).joinTables))) else Thrown
  }

  /** `extractClauses` */
  method ExtractClauses(clauses: seq<Clause>) returns (r: Result<QueryDescription>)
    ensures r == Extract(clauses)
  {
    var query := EMPTY;
    for i := 0 to |clauses|
      invariant query == Draft(clauses[..i])
      invariant forall j :: 0 <= j < i && clauses[j].UnsafeSql? ==> SqlIsAlone(clauses)
    {
      var clause := clauses[i];
      assert clauses[..i + 1][..i] == clauses[..i];
      match clause
      case Condition(w) =>
        if w.On? {
          query := query.(joinTables := query.joinTables + [w.table]);
        }
        query := query.(where := query.where + [w]);
      case Sort(sortBy) => query := query.(sortBy := query.sortBy + [sortBy]);
      case Take(count) => query := query.(take := Some(count));
      case Skip(count) => query := query.(skip := Some(count));
      case JoinTables(tables) => query := query.(joinTables := query.joinTables + tables);
      case NestedJoin(from, to) => query := query.(nestedJoinTables := query.nestedJoinTables + [(from, to)]);
      case LokiTransform(transform) => query := query.(lokiTransform := Some(transform));
      case UnsafeSql(sql) =>
        query := query.(sql := Some(sql));
        if exists j :: 0 <= j < |clauses| && !AllowedWithSql(clauses[j]) {
          return Thrown;
        }
    }
    assert clauses[..|clauses|] == clauses;
    r := Ok(query.(joinTables := Unique(query.joinTables)));
  }

  predicate Truthy(count: Option<int>) {
    count.Some? && count.value != 0
  }

  /** `buildQueryDescription` */
  function Build(clauses: seq<Clause>): Result<QueryDescription> {
    match Extract(clauses)
    case Ok(q) => if Truthy(q.skip) && !Truthy(q.take) then Thrown else Ok(q)
    case Thrown => Thrown
  }

  // ---- Extending ----

  function Conditions(where: seq<Where>): seq<Clause> {
    if where == [] then [] else Conditions(where[..|where| - 1]) + [Condition(Last(where))]
  }

  function Sorts(sortBy: seq<SortBy>): seq<Clause> {
    seq(|sortBy|, i requires 0 <= i < |sortBy| => Sort(sortBy[i]))
  }

  function Joins(joins: seq<(string, string)>): seq<Clause> {
    seq(|joins|, i requires 0 <= i < |joins| => NestedJoin(joins[i].0, joins[i].1))
  }

  function ListClauses(q: QueryDescription): seq<Clause> {
    [JoinTables(q.joinTables)] + Joins(q.nestedJoinTables) + Conditions(q.where) + Sorts(q.sortBy)
  }

  function TakeClauses(q: QueryDescription): seq<Clause> {
    if Truthy(q.take) then [Take(q.take.value)] else []
  }

  function SkipClauses(q: QueryDescription): seq<Clause> {
    if Truthy(q.skip) then [Skip(q.skip.value)] else []
  }

  function TransformClauses(q: QueryDescription): seq<Clause> {
    if q.lokiTransform.Some? then [LokiTransform(q.lokiTransform.value)] else []
  }

  function OptionClauses(q: QueryDescription): seq<Clause> {
    TakeClauses(q) + SkipClauses(q) + TransformClauses(q)
  }

  /** The clauses that stand for a description again. */
  function Clauses(q: QueryDescription): seq<Clause> {
    ListClauses(q) + OptionClauses(q)
  }

  /** `Query.extend`, as far as the list of clauses that it builds from. */
  function Extend(q: QueryDescription, clauses: seq<Clause>): Result<seq<Clause>> {
    if q.sql.Some? then Thrown else Ok(Clauses(q) + clauses)
  }

  /** Adding what `e` describes to what `d` does. */
  function Combine(d: QueryDescription, e: QueryDescription): QueryDescription {
    QueryDescription(
      d.where + e.where,
      d.joinTables + e.joinTables,
      d.nestedJoinTables + e.nestedJoinTables,
      d.sortBy + e.sortBy,
      if e.take.Some? then e.take else d.take,
      if e.skip.Some? then e.skip else d.skip,
      if e.lokiTransform.Some? then e.lokiTransform else d.lokiTransform,
      if e.sql.Some? then e.sql else d.sql)
  }

  lemma AddToCombined(d: QueryDescription, e: QueryDescription, clause: Clause)
    ensures AddClause(Combine(d, e), clause) == Combine(d, AddClause(e, clause))
  {
    match clause
    case Condition(w) =>
      assert d.where + e.where + [w] == d.where + (e.where + [w]);
      assert w.On? ==> d.joinTables + e.joinTables + [w.table] == d.joinTables + (e.joinTables + [w.table]);
    case Sort(sortBy) => assert d.sortBy + e.sortBy + [sortBy] == d.sortBy + (e.sortBy + [sortBy]);
    case JoinTables(tables) => assert d.joinTables + e.joinTables + tables == d.joinTables + (e.joinTables + tables);
    case NestedJoin(from, to) =>
      assert d.nestedJoinTables + e.nestedJoinTables + [(from, to)]
             == d.nestedJoinTables + (e.nestedJoinTables + [(from, to)]);
    case _ =>
  }

  lemma {:induction false} DraftConcat(a: seq<Clause>, b: seq<Clause>)
    ensures Draft(a + b) == Combine(Draft(a), Draft(b))
  {
    if b == [] {
      assert a + b == a;
      CombineEmpty(Draft(a));
    } else {
      var front := b[..|b| - 1];
      DraftConcat(a, front);
      assert (a + b)[..|a + b| - 1] == a + front;
      AddToCombined(Draft(a), Draft(front), Last(b));
    }
  }

  lemma CombineEmpty(d: QueryDescription)
    ensures Combine(d, EMPTY) == d
  {
  }

  function OnTables(where: seq<Where>): seq<string> {
    if where == [] then []
    else OnTables(where[..|where| - 1]) + if Last(where).On? then [Last(where).table] else []
  }

  lemma DraftSnoc(clauses: seq<Clause>, clause: Clause)
    ensures Draft(clauses + [clause]) == AddClause(Draft(clauses), clause)
  {
    assert (clauses + [clause])[..|clauses|] == clauses;
  }

  lemma {:induction false} DraftOfConditions(where: seq<Where>)
    ensures Draft(Conditions(where)) == EMPTY.(where := where, joinTables := OnTables(where))
  {
    if where == [] {
    } else {
      var front, last := where[..|where| - 1], Last(where);
      DraftOfConditions(front);
      DraftSnoc(Conditions(front), Condition(last));
      assert Conditions(where) == Conditions(front) + [Condition(last)];
      assert OnTables(where) == OnTables(front) + if last.On? then [last.table] else [];
      assert where == front + [last] && OnTables(front) + [] == OnTables(front);
    }
  }

  lemma {:induction false} DraftOfSorts(sortBy: seq<SortBy>)
    ensures Draft(Sorts(sortBy)) == EMPTY.(sortBy := sortBy)
  {
    if sortBy == [] {
    } else {
      DraftOfSorts(sortBy[..|sortBy| - 1]);
      assert Sorts(sortBy)[..|sortBy| - 1] == Sorts(sortBy[..|sortBy| - 1]);
    }
  }

  lemma {:induction false} DraftOfJoins(joins: seq<(string, string)>)
    ensures Draft(Joins(joins)) == EMPTY.(nestedJoinTables := joins)
  {
    if joins == [] {
    } else {
      DraftOfJoins(joins[..|joins| - 1]);
      assert Joins(joins)[..|joins| - 1] == Joins(joins[..|joins| - 1]);
    }
  }

  lemma DraftOfOne(clause: Clause)
    ensures Draft([clause]) == AddClause(EMPTY, clause)
  {
    assert [clause][..0] == [];
  }

  function NonZero(count: Option<int>): Option<int> {
    if Truthy(count) then count else None
  }

  /** The clauses of a description describe it, but for a zero `take` or `skip`, which is lost, and for
      the tables of its `on` conditions, which are joined once more. */
  lemma DraftOfClauses(q: QueryDescription)
    requires q.sql == None
    ensures Draft(Clauses(q)) ==
            q.(joinTables := q.joinTables + OnTables(q.where), take := NonZero(q.take), skip := NonZero(q.skip))
  {
    DraftOfLists(q);
    DraftOfOptions(q);
    DraftConcat(ListClauses(q), OptionClauses(q));
  }

  lemma DraftOfTables(q: QueryDescription)
    ensures Draft([JoinTables(q.joinTables)] + Joins(q.nestedJoinTables)) ==
            EMPTY.(joinTables := q.joinTables, nestedJoinTables := q.nestedJoinTables)
  {
    DraftOfOne(JoinTables(q.joinTables));
    assert EMPTY.joinTables + q.joinTables == q.joinTables;
    DraftOfJoins(q.nestedJoinTables);
    DraftConcat([JoinTables(q.joinTables)], Joins(q.nestedJoinTables));
  }

  lemma DraftOfLists(q: QueryDescription)
    ensures Draft(ListClauses(q)) ==
            EMPTY.(where := q.where, joinTables := q.joinTables + OnTables(q.where),
                   nestedJoinTables := q.nestedJoinTables, sortBy := q.sortBy)
  {
    var tables := [JoinTables(q.joinTables)] + Joins(q.nestedJoinTables);
    var where, sorts := Conditions(q.where), Sorts(q.sortBy);
    DraftOfTables(q);
    DraftConcat(tables, where);
    DraftConcat(tables + where, sorts);
    DraftOfSorts(q.sortBy);
    CombinedLists(q);
  }

  lemma CombinedLists(q: QueryDescription)
    ensures Combine(Combine(EMPTY.(joinTables := q.joinTables, nestedJoinTables := q.nestedJoinTables),
                            Draft(Conditions(q.where))),
                    EMPTY.(sortBy := q.sortBy))
            == EMPTY.(where := q.where, joinTables := q.joinTables + OnTables(q.where),
                      nestedJoinTables := q.nestedJoinTables, sortBy := q.sortBy)
  {
    DraftOfConditions(q.where);
    assert [] + q.where + [] == q.where && [] + q.sortBy == q.sortBy;
    assert q.nestedJoinTables + [] + [] == q.nestedJoinTables;
    assert q.joinTables + OnTables(q.where) + [] == q.joinTables + OnTables(q.where);
  }

  lemma DraftOfOption(q: QueryDescription)
    ensures Draft(TakeClauses(q)) == EMPTY.(take := NonZero(q.take))
    ensures Draft(SkipClauses(q)) == EMPTY.(skip := NonZero(q.skip))
    ensures Draft(TransformClauses(q)) == EMPTY.(lokiTransform := q.lokiTransform)
  {
    if Truthy(q.take) { DraftOfOne(Take(q.take.value)); }
    if Truthy(q.skip) { DraftOfOne(Skip(q.skip.value)); }
    if q.lokiTransform.Some? { DraftOfOne(LokiTransform(q.lokiTransform.value)); }
  }

  lemma DraftOfOptions(q: QueryDescription)
    ensures Draft(OptionClauses(q)) ==
            EMPTY.(take := NonZero(q.take), skip := NonZero(q.skip), lokiTransform := q.lokiTransform)
  {
    DraftOfOption(q);
    DraftConcat(TakeClauses(q), SkipClauses(q));
    DraftConcat(TakeClauses(q) + SkipClauses(q), TransformClauses(q));
  }

  /** The tables of `on` conditions are among the joined ones. */
  lemma {:induction false} OnTablesAreJoined(clauses: seq<Clause>)
    ensures forall t :: t in OnTables(Draft(clauses).where) ==> t in Draft(clauses).joinTables
  {
    if clauses == [] {
    } else {
      var front, last := clauses[..|clauses| - 1], Last(clauses);
      OnTablesAreJoined(front);
      if last.Condition? {
        assert (Draft(front).where + [last.condition])[..|Draft(front).where|] == Draft(front).where;
      }
    }
  }

  function HasSql(clauses: seq<Clause>): bool {
    exists i :: 0 <= i < |clauses| && clauses[i].UnsafeSql?
  }

  function HasTake(clauses: seq<Clause>): bool {
    exists i :: 0 <= i < |clauses| && clauses[i].Take?
  }

  function HasSkip(clauses: seq<Clause>): bool {
    exists i :: 0 <= i < |clauses| && clauses[i].Skip?
  }

  lemma {:induction false} DraftHas(clauses: seq<Clause>)
    ensures Draft(clauses).sql.Some? <==> HasSql(clauses)
    ensures Draft(clauses).take.Some? <==> HasTake(clauses)
    ensures Draft(clauses).skip.Some? <==> HasSkip(clauses)
  {
    if clauses == [] {
    } else {
      var front, last := clauses[..|clauses| - 1], Last(clauses);
      DraftHas(front);
      HasSnoc(front, last);
      assert clauses == front + [last];
    }
  }

  lemma HasSnoc(front: seq<Clause>, last: Clause)
    ensures HasSql(front + [last]) <==> HasSql(front) || last.UnsafeSql?
    ensures HasTake(front + [last]) <==> HasTake(front) || last.Take?
    ensures HasSkip(front + [last]) <==> HasSkip(front) || last.Skip?
    ensures AllAllowed(front + [last]) <==> AllAllowed(front) && AllowedWithSql(last)
  {
    var all := front + [last];
    assert all[|front|] == last;
    assert forall i :: 0 <= i < |front| ==> all[i] == front[i];
  }

  /** A zero `take` or `skip` is lost by extending, unless the extension sets it anew. */
  predicate NothingLost(q: QueryDescription, b: seq<Clause>) {
    (q.take != Some(0) || HasTake(b)) && (q.skip != Some(0) || HasSkip(b))
  }

  lemma ExtendedDraft(a: seq<Clause>, b: seq<Clause>)
    requires !HasSql(a)
    ensures var q := Draft(a).(joinTables := Unique(Draft(a).joinTables));
            var extended := Draft(Clauses(q) + b);
            var together := Draft(a + b);
            && q.sql == None
            && Unique(extended.joinTables) == Unique(together.joinTables)
            && extended.(joinTables := []) ==
               together.(joinTables := [],
                         take := if HasTake(b) then together.take else NonZero(together.take),
                         skip := if HasSkip(b) then together.skip else NonZero(together.skip))
            && (!HasTake(b) ==> together.take == q.take) && (!HasSkip(b) ==> together.skip == q.skip)
  {
    var d, e := Draft(a), Draft(b);
    var q := d.(joinTables := Unique(d.joinTables));
    DraftHas(a);
    DraftHas(b);
    DraftConcat(a, b);
    DraftOfClauses(q);
    DraftConcat(Clauses(q), b);
    OnTablesAreJoined(a);
    UniqueAbsorbs(d.joinTables, OnTables(d.where), e.joinTables);
  }

  /** Extending what was built from `a` by `b` describes the same query as `a + b`, if and only if no zero
      `take` or `skip` of `a` is lost. */
  lemma ExtendIsConcatenation(a: seq<Clause>, b: seq<Clause>)
    requires !HasSql(a) && !HasSql(b)
    ensures Extract(a).Ok? && Extend(Extract(a).value, b).Ok?
    ensures Extract(Extend(Extract(a).value, b).value) == Extract(a + b) <==> NothingLost(Extract(a).value, b)
  {
    var q := Extract(a).value;
    ExtendedDraft(a, b);
    ClausesWithoutSql(q);
    DraftHas(a + b);
    DraftHas(Clauses(q) + b);
    assert Draft(Clauses(q) + b).(joinTables := []).take == Draft(Clauses(q) + b).take;
    assert Draft(Clauses(q) + b).(joinTables := []).skip == Draft(Clauses(q) + b).skip;
    assert SqlIsAlone(a + b) && SqlIsAlone(Clauses(q) + b);
    SameButJoins(Draft(Clauses(q) + b), Draft(a + b));
  }

  lemma SameButJoins(d: QueryDescription, e: QueryDescription)
    requires Unique(d.joinTables) == Unique(e.joinTables)
    ensures d.(joinTables := Unique(d.joinTables)) == e.(joinTables := Unique(e.joinTables))
            <==> d.(joinTables := []) == e.(joinTables := [])
  {
  }

  lemma ClausesWithoutSql(q: QueryDescription)
    requires q.sql == None
    ensures !HasSql(Clauses(q))
  {
    DraftOfClauses(q);
    DraftHas(Clauses(q));
  }

  // ---- Raw queries ----

  predicate OnlyJoins(q: QueryDescription) {
    q.where == [] && q.sortBy == [] && q.take == None && q.skip == None && q.lokiTransform == None
  }

  predicate AllAllowed(clauses: seq<Clause>) {
    forall i :: 0 <= i < |clauses| ==> AllowedWithSql(clauses[i])
  }

  lemma {:induction false} AllAllowedIff(clauses: seq<Clause>)
    ensures AllAllowed(clauses) <==> OnlyJoins(Draft(clauses))
  {
    if clauses == [] {
    } else {
      var front, last := clauses[..|clauses| - 1], Last(clauses);
      AllAllowedIff(front);
      HasSnoc(front, last);
      assert clauses == front + [last];
    }
  }

  lemma DraftsAgree(a: seq<Clause>, b: seq<Clause>)
    requires !HasSql(a) && NothingLost(Extract(a).value, b)
    ensures Draft(Clauses(Extract(a).value) + b).(joinTables := []) == Draft(a + b).(joinTables := [])
  {
    ExtendedDraft(a, b);
  }

  /** With a raw query in the extension the check comes out the same, so that the results agree too. */
  lemma ExtendWithSql(a: seq<Clause>, b: seq<Clause>)
    requires !HasSql(a) && HasSql(b)
    ensures Extract(a).Ok? && Extend(Extract(a).value, b).Ok?
    ensures NothingLost(Extract(a).value, b) ==> Extract(Extend(Extract(a).value, b).value) == Extract(a + b)
  {
    var q := Extract(a).value;
    DraftHas(a);
    if NothingLost(q, b) {
      DraftsAgree(a, b);
      ExtendedDraft(a, b);
      SqlCheckAgrees(Clauses(q), a, b);
      SameButJoins(Draft(Clauses(q) + b), Draft(a + b));
    }
  }

  lemma SqlCheckAgrees(x: seq<Clause>, y: seq<Clause>, b: seq<Clause>)
    requires HasSql(b) && Draft(x + b).(joinTables := []) == Draft(y + b).(joinTables := [])
    ensures SqlIsAlone(x + b) <==> SqlIsAlone(y + b)
  {
    AllAllowedIff(x + b);
    AllAllowedIff(y + b);
    SameOnlyJoins(Draft(x + b), Draft(y + b));
    var i :| 0 <= i < |b| && b[i].UnsafeSql?;
    assert (x + b)[|x| + i].UnsafeSql? && (y + b)[|y| + i].UnsafeSql?;
  }

  lemma SameOnlyJoins(d: QueryDescription, e: QueryDescription)
    requires d.(joinTables := []) == e.(joinTables := [])
    ensures OnlyJoins(d) <==> OnlyJoins(e)
  {
  }

  /** A query extended is the query built from all the clauses, errors included. */
  lemma BuildExtended(a: seq<Clause>, b: seq<Clause>)
    requires !HasSql(a) && NothingLost(Extract(a).value, b)
    ensures Extend(Extract(a).value, b).Ok? && Build(Extend(Extract(a).value, b).value) == Build(a + b)
  {
    if HasSql(b) {
      ExtendWithSql(a, b);
    } else {
      ExtendIsConcatenation(a, b);
    }
  }

  lemma ExtendOnce(a: seq<Clause>, b: seq<Clause>, all: seq<Clause>)
    requires !HasSql(a) && !HasSql(b) && all == a + b
    ensures var once := Extract(a);
            once.Ok? && (Extract(Clauses(once.value) + b) == Extract(all) <==> NothingLost(once.value, b))
  {
    ExtendIsConcatenation(a, b);
  }

  /** Extending `q` by `b` and then by `c` is extending it by `b + c`, under the same condition. */
  lemma ExtendTwice(q: QueryDescription, b: seq<Clause>, c: seq<Clause>)
    requires !HasSql(Clauses(q) + b) && !HasSql(c)
    ensures var once := Extract(Clauses(q) + b);
            && once.Ok?
            && (Extract(Clauses(once.value) + c) == Extract(Clauses(q) + (b + c)) <==> NothingLost(once.value, c))
  {
    assert Clauses(q) + (b + c) == Clauses(q) + b + c;
    ExtendOnce(Clauses(q) + b, c, Clauses(q) + (b + c));
  }

  // ---- When building throws ----

  /** Extracting throws if and only if a raw query stands beside a condition, an order, a limit, an offset or a
      transform. */
  lemma ExtractThrowsIff(clauses: seq<Clause>)
    ensures Extract(clauses).Thrown? <==>
              && (exists i :: 0 <= i < |clauses| && clauses[i].UnsafeSql?)
              && (exists i :: 0 <= i < |clauses|
                              && (clauses[i].Condition? || clauses[i].Sort? || clauses[i].Take? || clauses[i].Skip?
                                  || clauses[i].LokiTransform?))
  {
    forall i | 0 <= i < |clauses|
      ensures !AllowedWithSql(clauses[i]) <==>
                clauses[i].Condition? || clauses[i].Sort? || clauses[i].Take? || clauses[i].Skip?
                || clauses[i].LokiTransform?
    {
    }
  }

  predicate IsLastTake(clauses: seq<Clause>, i: int) {
    0 <= i < |clauses| && clauses[i].Take? && forall j :: i < j < |clauses| ==> !clauses[j].Take?
  }

  predicate IsLastSkip(clauses: seq<Clause>, i: int) {
    0 <= i < |clauses| && clauses[i].Skip? && forall j :: i < j < |clauses| ==> !clauses[j].Skip?
  }

  /** Of several limits, and of several offsets, the last one counts. */
  lemma {:induction false} LastOneCounts(clauses: seq<Clause>, i: int)
    ensures IsLastTake(clauses, i) ==> Draft(clauses).take == Some(clauses[i].count)
    ensures IsLastSkip(clauses, i) ==> Draft(clauses).skip == Some(clauses[i].count)
  {
    if clauses == [] {
    } else {
      LastOneCounts(clauses[..|clauses| - 1], i);
    }
  }

  lemma {:induction false} LastExists(clauses: seq<Clause>)
    ensures Draft(clauses).take.Some? ==> exists i :: IsLastTake(clauses, i)
    ensures Draft(clauses).skip.Some? ==> exists i :: IsLastSkip(clauses, i)
  {
    if clauses == [] {
    } else {
      var front, n := clauses[..|clauses| - 1], |clauses| - 1;
      LastExists(front);
      if clauses[n].Take? {
        assert IsLastTake(clauses, n);
      } else if Draft(front).take.Some? {
        var i :| IsLastTake(front, i);
        assert IsLastTake(clauses, i);
      }
      if clauses[n].Skip? {
        assert IsLastSkip(clauses, n);
      } else if Draft(front).skip.Some? {
        var i :| IsLastSkip(front, i);
        assert IsLastSkip(clauses, i);
      }
    }
  }

  /** Building throws besides if and only if there is an offset that counts without a limit that counts: zeros do
      not. Otherwise it gives what was extracted. */
  lemma BuildThrowsIff(clauses: seq<Clause>)
    ensures Build(clauses).Thrown? <==>
              || Extract(clauses).Thrown?
              || (&& (exists i :: IsLastSkip(clauses, i) && clauses[i].count != 0)
                  && !(exists i :: IsLastTake(clauses, i) && clauses[i].count != 0))
    ensures Build(clauses).Ok? ==> Build(clauses) == Extract(clauses)
  {
    LastExists(clauses);
    forall i
      ensures IsLastTake(clauses, i) ==> Draft(clauses).take == Some(clauses[i].count)
      ensures IsLastSkip(clauses, i) ==> Draft(clauses).skip == Some(clauses[i].count)
    {
      LastOneCounts(clauses, i);
    }
  }

  /** A raw query cannot be extended; any other can. */
  lemma ExtendThrowsIff(built: seq<Clause>, clauses: seq<Clause>)
    requires Extract(built).Ok?
    ensures Extend(Extract(built).value, clauses).Thrown? <==> exists i :: 0 <= i < |built| && built[i].UnsafeSql?
  {
    DraftHas(built);
  }
}
