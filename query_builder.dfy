/**
 * The Eloquent query builder as the service uses it: a list of `where` clauses, each joined to
 * the one before by `and` or `or` (the first one's joiner is dropped), where a clause may be a
 * parenthesised group built by a closure. `Matches` reads the list as SQL does, AND binding
 * tighter than OR.
 */
module QueryBuilder {
  import opened Organization
  import opened PhpText

  datatype Joiner = And | Or

  /** Integer columns compared by `where(column, value)`. */
  datatype Column = GeneralDirectionId | DirectionId | SubdirectorateId | Active

  /** Text columns compared by `where(column, 'like', '%needle%')`. */
  datatype TextColumn = PlantillaId | Name

  datatype Cond =
    | Equals(column: Column, value: int)
    | NumberIn(numbers: seq<int>)
    | NumberNotIn(numbers: seq<int>)
    | Like(textColumn: TextColumn, needle: string)
    | Nested(wheres: seq<Where>)

  datatype Where = Where(joiner: Joiner, cond: Cond)

  function ColumnValue(employee: Employee, column: Column): int {
    match column
    case GeneralDirectionId => employee.generalDirectionId
    case DirectionId => employee.directionId
    case SubdirectorateId => employee.subdirectorateId
    case Active => employee.active
  }

  function TextValue(employee: Employee, column: TextColumn): string {
    match column
    case PlantillaId => employee.plantillaId
    case Name => employee.name
  }

  /** Whether one clause holds of one row. */
  predicate Eval(c: Cond, employee: Employee)
    decreases c, 1
  {
    match c
    case Equals(column, value) => ColumnValue(employee, column) == value
    case NumberIn(numbers) => employee.employeeNumber in numbers
    case NumberNotIn(numbers) => employee.employeeNumber !in numbers
    case Like(column, needle) => Contains(TextValue(employee, column), needle)
    case Nested(wheres) => var s := Fold(c, |wheres|, employee); s.done || s.open
  }

  /** Reading the first n clauses of a group left to right: `done` is the OR of the finished
      AND-runs, `open` the AND-run still being extended. */
  datatype FoldState = FoldState(done: bool, open: bool)

  function Fold(c: Cond, n: nat, employee: Employee): FoldState
    requires c.Nested? && n <= |c.wheres|
    decreases c, 0, n
  {
    if n == 0 then FoldState(false, true)
    else
      var w := c.wheres[n - 1];
      var prev := Fold(c, n - 1, employee);
      var v := Eval(w.cond, employee);
      Step(prev, w.joiner, v, n == 1)
  }

  /** Reading one more clause of value v. */
  function Step(prev: FoldState, joiner: Joiner, v: bool, first: bool): FoldState {
    if first then FoldState(false, v)
    else if joiner == And then FoldState(prev.done, prev.open && v)
    else FoldState(prev.done || prev.open, v)
  }

  /** Whether a row satisfies a whole `where` list; the empty list admits every row. */
  predicate Matches(wheres: seq<Where>, employee: Employee) {
    Eval(Nested(wheres), employee)
  }

  function State(wheres: seq<Where>, employee: Employee): FoldState {
    Fold(Nested(wheres), |wheres|, employee)
  }

  lemma {:induction false} FoldPrefix(c: Cond, d: Cond, n: nat, employee: Employee)
    requires c.Nested? && d.Nested? && n <= |c.wheres| && n <= |d.wheres|
    requires c.wheres[..n] == d.wheres[..n]
    ensures Fold(c, n, employee) == Fold(d, n, employee)
  {
    if n > 0 {
      assert c.wheres[..n - 1] == c.wheres[..n][..n - 1];
      assert d.wheres[..n - 1] == d.wheres[..n][..n - 1];
      assert c.wheres[n - 1] == c.wheres[..n][n - 1];
      assert d.wheres[n - 1] == d.wheres[..n][n - 1];
      FoldPrefix(c, d, n - 1, employee);
    }
  }

  /** Appending a clause advances the reading by exactly one step. */
  lemma StateSnoc(wheres: seq<Where>, w: Where, employee: Employee)
    ensures State(wheres + [w], employee) ==
            Step(State(wheres, employee), w.joiner, Eval(w.cond, employee), wheres == [])
  {
    var ext := wheres + [w];
    assert ext[..|wheres|] == wheres[..|wheres|];
    FoldPrefix(Nested(ext), Nested(wheres), |wheres|, employee);
    assert ext[|ext| - 1] == w;
  }

  lemma MatchesEmpty(employee: Employee)
    ensures Matches([], employee)
  {
  }

  /** A list whose clauses after the first are all joined by `and`: what the service's top-level
      `$query` always is. */
  predicate Conjunctive(wheres: seq<Where>) {
    forall i :: 1 <= i < |wheres| ==> wheres[i].joiner == And
  }

  /** On a conjunctive list nothing is ever finished: the list holds iff its open run does. */
  lemma {:induction false} ConjunctiveState(wheres: seq<Where>, employee: Employee)
    requires Conjunctive(wheres)
    ensures !State(wheres, employee).done
  {
    if wheres != [] {
      var init := wheres[..|wheres| - 1];
      assert init + [wheres[|wheres| - 1]] == wheres;
      ConjunctiveState(init, employee);
      StateSnoc(init, wheres[|wheres| - 1], employee);
    }
  }

  /** `where` keeps a list conjunctive. */
  lemma StaysConjunctive(wheres: seq<Where>, c: Cond)
    requires Conjunctive(wheres)
    ensures Conjunctive(wheres + [Where(And, c)])
  {
  }

  /** `where` on a conjunctive list: the new list holds iff the old one and the new clause do. */
  lemma AndWhereMeaning(wheres: seq<Where>, c: Cond, employee: Employee)
    requires Conjunctive(wheres)
    ensures Matches(wheres + [Where(And, c)], employee) == (Matches(wheres, employee) && Eval(c, employee))
  {
    ConjunctiveState(wheres, employee);
    StateSnoc(wheres, Where(And, c), employee);
  }

  /** AndWhereMeaning for a `like` clause. */
  lemma AndWhereLike(wheres: seq<Where>, column: TextColumn, needle: string, employee: Employee)
    requires Conjunctive(wheres)
    ensures Matches(wheres + [Where(And, Like(column, needle))], employee) ==
            (Matches(wheres, employee) && Contains(TextValue(employee, column), needle))
  {
    AndWhereMeaning(wheres, Like(column, needle), employee);
  }

  /** `where column = value` on a conjunctive list, for every row at once. */
  lemma AndWhereEqualsAll(wheres: seq<Where>, column: Column, value: int)
    requires Conjunctive(wheres)
    ensures Conjunctive(wheres + [Where(And, Equals(column, value))])
    ensures forall e :: Matches(wheres + [Where(And, Equals(column, value))], e) ==
                        (Matches(wheres, e) && ColumnValue(e, column) == value)
  {
    StaysConjunctive(wheres, Equals(column, value));
    forall e ensures Matches(wheres + [Where(And, Equals(column, value))], e) ==
                     (Matches(wheres, e) && ColumnValue(e, column) == value) {
      AndWhereMeaning(wheres, Equals(column, value), e);
    }
  }

  /** A parenthesised group ANDed onto a conjunctive list, for every row at once. */
  lemma AndWhereGroupAll(wheres: seq<Where>, group: seq<Where>)
    requires Conjunctive(wheres)
    ensures Conjunctive(wheres + [Where(And, Nested(group))])
    ensures forall e :: Matches(wheres + [Where(And, Nested(group))], e) ==
                        (Matches(wheres, e) && Matches(group, e))
  {
    StaysConjunctive(wheres, Nested(group));
    forall e ensures Matches(wheres + [Where(And, Nested(group))], e) ==
                     (Matches(wheres, e) && Matches(group, e)) {
      AndWhereMeaning(wheres, Nested(group), e);
    }
  }

  /** `orWhere` on a non-empty list: the new list holds iff the old one or the new clause does. */
  lemma OrWhereMeaning(wheres: seq<Where>, c: Cond, employee: Employee)
    requires wheres != []
    ensures Matches(wheres + [Where(Or, c)], employee) == (Matches(wheres, employee) || Eval(c, employee))
  {
    StateSnoc(wheres, Where(Or, c), employee);
  }

  /** A one-clause list is that clause, whatever its joiner. */
  lemma FirstWhere(joiner: Joiner, c: Cond, employee: Employee)
    ensures Matches([Where(joiner, c)], employee) == Eval(c, employee)
  {
    assert [] + [Where(joiner, c)] == [Where(joiner, c)];
    StateSnoc([], Where(joiner, c), employee);
  }

  /** OrWhereMeaning for a `like` clause. */
  lemma OrWhereLike(wheres: seq<Where>, column: TextColumn, needle: string, employee: Employee)
    requires wheres != []
    ensures Matches(wheres + [Where(Or, Like(column, needle))], employee) ==
            (Matches(wheres, employee) || Contains(TextValue(employee, column), needle))
  {
    OrWhereMeaning(wheres, Like(column, needle), employee);
  }

  /** FirstWhere for a `like` clause. */
  lemma FirstWhereLike(joiner: Joiner, column: TextColumn, needle: string, employee: Employee)
    ensures Matches([Where(joiner, Like(column, needle))], employee) == Contains(TextValue(employee, column), needle)
  {
    FirstWhere(joiner, Like(column, needle), employee);
  }

  /** The mutable builder: `wheres` is the clause list that `where`/`orWhere` calls extend. */
  class Builder {
    var wheres: seq<Where>

    /** `Employee::query()` or the fresh builder a closure receives. */
    constructor ()
      ensures wheres == []
    {
      wheres := [];
    }

    /** `->where(...)`, `->whereNotIn(...)`, `->where(function ...)`. */
    method AndWhere(c: Cond)
      modifies this
      ensures wheres == old(wheres) + [Where(And, c)]
    {
      wheres := wheres + [Where(And, c)];
    }

    /** `->orWhere(...)`, `->orWhereIn(...)`. */
    method OrWhere(c: Cond)
      modifies this
      ensures wheres == old(wheres) + [Where(Or, c)]
    {
      wheres := wheres + [Where(Or, c)];
    }
  }
}
