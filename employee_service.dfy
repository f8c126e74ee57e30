/**
 * The listing and lookup side of the visibility rule. Each operation builds its query step by
 * step on a Builder, the way the service mutates `$query`; a table of employees stands in for
 * the database, and the authenticated user is a parameter.
 */
module EmployeeService {
  import opened Wrappers
  import opened Organization
  import opened PhpText
  import opened Rows
  import opened ValidateAccessEmployee
  import opened QueryBuilder

  // ---------------------------------------------------------------------------------------
  // applyGeneralDirectionRules
  // ---------------------------------------------------------------------------------------

  /** `applyGeneralDirectionRules($query, $gd)`: the query gains exactly the general-direction
      check that the access helper applies for a user of general direction gd. */
  method ApplyGeneralDirectionRules(query: Builder, gd: int)
    requires Conjunctive(query.wheres)
    modifies query
    ensures Conjunctive(query.wheres)
    ensures forall e :: Matches(query.wheres, e) ==
                        (Matches(old(query.wheres), e) && ValidateGeneralDirection(gd, e))
  {
    ghost var before := query.wheres;
    if gd == 18 {
      query.AndWhere(Equals(GeneralDirectionId, 18));
      query.AndWhere(NumberNotIn(SpecialEmployeeNumbers));
      forall e ensures Matches(query.wheres, e) == (Matches(before, e) && ValidateGeneralDirection(gd, e)) {
        AndWhereMeaning(before, Equals(GeneralDirectionId, 18), e);
        AndWhereMeaning(before + [Where(And, Equals(GeneralDirectionId, 18))], NumberNotIn(SpecialEmployeeNumbers), e);
      }
      StaysConjunctive(before, Equals(GeneralDirectionId, 18));
      StaysConjunctive(before + [Where(And, Equals(GeneralDirectionId, 18))], NumberNotIn(SpecialEmployeeNumbers));
    } else if gd == 28 {
      var group := new Builder();
      group.AndWhere(Equals(GeneralDirectionId, 28));
      group.OrWhere(NumberIn(SpecialEmployeeNumbers));
      assert group.wheres == [Where(And, Equals(GeneralDirectionId, 28))] + [Where(Or, NumberIn(SpecialEmployeeNumbers))];
      query.AndWhere(Nested(group.wheres));
      forall e ensures Matches(query.wheres, e) == (Matches(before, e) && ValidateGeneralDirection(gd, e)) {
        FirstWhere(And, Equals(GeneralDirectionId, 28), e);
        OrWhereMeaning([Where(And, Equals(GeneralDirectionId, 28))], NumberIn(SpecialEmployeeNumbers), e);
        AndWhereMeaning(before, Nested(group.wheres), e);
      }
      StaysConjunctive(before, Nested(group.wheres));
    } else {
      query.AndWhere(Equals(GeneralDirectionId, gd));
      forall e ensures Matches(query.wheres, e) == (Matches(before, e) && ValidateGeneralDirection(gd, e)) {
        AndWhereMeaning(before, Equals(GeneralDirectionId, gd), e);
      }
      StaysConjunctive(before, Equals(GeneralDirectionId, gd));
    }
  }

  // ---------------------------------------------------------------------------------------
  // applyAdvancedSearch
  // ---------------------------------------------------------------------------------------

  /** The pieces of `explode(' ', $term)` that survive the filter: non-empty after trimming and
      longer than one character. */
  function SearchWords(term: string): (words: seq<string>)
  {
    Filter(Explode(term), KeepsWord)
  }

  /** The `array_filter` callback. */
  predicate KeepsWord(word: string) {
    !IsEmpty(Trim(word)) && |Trim(word)| > 1
  }

  predicate AllWords(words: seq<string>, employee: Employee) {
    forall j :: 0 <= j < |words| ==> Contains(employee.name, Trim(words[j]))
  }

  predicate AnyWord(words: seq<string>, employee: Employee) {
    exists j :: 0 <= j < |words| && Contains(employee.name, Trim(words[j]))
  }

  /** What the search clause for a non-blank trimmed term admits, with the subsumed clauses
      taken out: the whole term in the name, some kept word in the name, or the term in the
      plantilla id when the term is numeric or no word was kept. */
  predicate SearchMeaning(term: string, employee: Employee) {
    SearchMeaningWith(term, SearchWords(term), employee)
  }

  predicate SearchMeaningWith(term: string, words: seq<string>, employee: Employee) {
    || (Contains(employee.plantillaId, term) && (IsNumeric(term) || |words| == 0))
    || AnyWord(words, employee)
    || Contains(employee.name, term)
  }

  /** Taking one more word into the AND group adds one conjunct. */
  lemma AllWordsPrefix(words: seq<string>, i: nat, employee: Employee)
    requires i < |words|
    ensures AllWords(words[..i + 1], employee) ==
            (AllWords(words[..i], employee) && Contains(employee.name, Trim(words[i])))
  {
    var ext := words[..i + 1];
    var pre := words[..i];
    assert ext[i] == words[i];
    if AllWords(ext, employee) {
      forall j | 0 <= j < |pre| ensures Contains(employee.name, Trim(pre[j])) {
        assert pre[j] == ext[j];
      }
    }
    if AllWords(pre, employee) && Contains(employee.name, Trim(words[i])) {
      forall j | 0 <= j < |ext| ensures Contains(employee.name, Trim(ext[j])) {
        if j < i {
          assert ext[j] == pre[j];
        }
      }
    }
  }

  /** Taking one more word into the OR group adds one disjunct. */
  lemma AnyWordPrefix(words: seq<string>, i: nat, employee: Employee)
    requires i < |words|
    ensures AnyWord(words[..i + 1], employee) ==
            (AnyWord(words[..i], employee) || Contains(employee.name, Trim(words[i])))
  {
    var ext := words[..i + 1];
    assert ext[i] == words[i];
    assert forall j :: 0 <= j < i ==> ext[j] == words[..i][j];
  }

  /** Every kept word in the name implies some kept word in the name, when there is one. */
  lemma AllWordsAnyWord(words: seq<string>, employee: Employee)
    requires |words| > 0 && AllWords(words, employee)
    ensures AnyWord(words, employee)
  {
    assert Contains(employee.name, Trim(words[0]));
  }

  /** The search constraint for a raw search string: a blank term admits everything. */
  predicate SearchAdmits(searchTerm: string, employee: Employee) {
    var term := Trim(searchTerm);
    IsEmpty(term) || SearchMeaning(term, employee)
  }

  /** `applyAdvancedSearch($query, $searchTerm)`: one parenthesised group of `like` clauses,
      ANDed onto the query, that admits exactly what SearchAdmits describes. */
  method ApplyAdvancedSearch(query: Builder, searchTerm: string)
    requires Conjunctive(query.wheres)
    modifies query
    ensures Conjunctive(query.wheres)
    ensures IsEmpty(Trim(searchTerm)) ==> query.wheres == old(query.wheres)
    ensures forall e :: Matches(query.wheres, e) ==
                        (Matches(old(query.wheres), e) && SearchAdmits(searchTerm, e))
  {
    var term := Trim(searchTerm);
    if IsEmpty(term) {
      return;
    }
    ghost var before := query.wheres;
    var group := SearchGroup(term);
    query.AndWhere(Nested(group.wheres));
    AndWhereGroupAll(before, group.wheres);
  }

  /** The closure passed to `$query->where(...)` in `applyAdvancedSearch`: the plantilla clauses,
      the two name groups when words were kept, and the whole-term name clause. */
  method SearchGroup(term: string) returns (group: Builder)
    ensures fresh(group)
    ensures forall e :: Matches(group.wheres, e) == SearchMeaning(term, e)
  {
    var words := SearchWords(term);
    group := new Builder();
    group.AndWhere(Like(PlantillaId, term));
    assert group.wheres == [Where(And, Like(PlantillaId, term))];
    if IsNumeric(term) {
      group.OrWhere(Like(PlantillaId, "1" + term));
    }
    assert group.wheres == PlantillaClauses(term);
    ghost var allWordsWheres: seq<Where> := [];
    ghost var anyWordWheres: seq<Where> := [];
    if |words| > 0 {
      allWordsWheres, anyWordWheres := AddNameGroups(group, words);
    }
    group.OrWhere(Like(Name, term));
    assert group.wheres == SearchClauses(term, |words| > 0, allWordsWheres, anyWordWheres);
    SearchGroupMeaning(term, words, allWordsWheres, anyWordWheres);
  }

  /** The `if (!empty($searchWords))` block of `applyAdvancedSearch`: the all-words group ANDed,
      then the any-word group ORed. */
  method AddNameGroups(group: Builder, words: seq<string>) returns (ghost allWords: seq<Where>, ghost anyWord: seq<Where>)
    requires |words| > 0
    modifies group
    ensures group.wheres == old(group.wheres) + [Where(And, Nested(allWords))] + [Where(Or, Nested(anyWord))]
    ensures forall e :: Matches(allWords, e) == AllWords(words, e)
    ensures forall e :: Matches(anyWord, e) == AnyWord(words, e)
  {
    var allWordsQuery := AllWordsGroup(words);
    allWords := allWordsQuery.wheres;
    group.AndWhere(Nested(allWordsQuery.wheres));
    var anyWordQuery := AnyWordGroup(words);
    anyWord := anyWordQuery.wheres;
    group.OrWhere(Nested(anyWordQuery.wheres));
  }

  /** The first name closure: one `where name like '%word%'` per kept word, all ANDed. */
  method AllWordsGroup(words: seq<string>) returns (nameQuery: Builder)
    ensures fresh(nameQuery)
    ensures Conjunctive(nameQuery.wheres)
    ensures forall e :: Matches(nameQuery.wheres, e) == AllWords(words, e)
  {
    nameQuery := new Builder();
    forall e ensures Matches(nameQuery.wheres, e) == AllWords(words[..0], e) {
      MatchesEmpty(e);
    }
    for i := 0 to |words|
      modifies nameQuery
      invariant Conjunctive(nameQuery.wheres)
      invariant forall e :: Matches(nameQuery.wheres, e) == AllWords(words[..i], e)
    {
      ghost var prev := nameQuery.wheres;
      nameQuery.AndWhere(Like(Name, Trim(words[i])));
      AllWordsStep(prev, words, i);
    }
    assert words[..|words|] == words;
  }

  /** One pass of the first closure's loop: ANDing the next word's clause. */
  lemma AllWordsStep(prev: seq<Where>, words: seq<string>, i: nat)
    requires i < |words|
    requires Conjunctive(prev)
    requires forall e :: Matches(prev, e) == AllWords(words[..i], e)
    ensures Conjunctive(prev + [Where(And, Like(Name, Trim(words[i])))])
    ensures forall e :: Matches(prev + [Where(And, Like(Name, Trim(words[i])))], e) == AllWords(words[..i + 1], e)
  {
    var c := Like(Name, Trim(words[i]));
    StaysConjunctive(prev, c);
    forall e ensures Matches(prev + [Where(And, c)], e) == AllWords(words[..i + 1], e) {
      AllWordsStepAt(prev, words, i, e);
    }
  }

  lemma AllWordsStepAt(prev: seq<Where>, words: seq<string>, i: nat, e: Employee)
    requires i < |words|
    requires Conjunctive(prev)
    requires Matches(prev, e) == AllWords(words[..i], e)
    ensures Matches(prev + [Where(And, Like(Name, Trim(words[i])))], e) == AllWords(words[..i + 1], e)
  {
    AndWhereLike(prev, Name, Trim(words[i]), e);
    AllWordsPrefix(words, i, e);
  }

  /** The second name closure: one `orWhere name like '%word%'` per kept word. */
  method AnyWordGroup(words: seq<string>) returns (nameQuery: Builder)
    requires |words| > 0
    ensures fresh(nameQuery)
    ensures forall e :: Matches(nameQuery.wheres, e) == AnyWord(words, e)
  {
    nameQuery := new Builder();
    for i := 0 to |words|
      modifies nameQuery
      invariant i == 0 ==> nameQuery.wheres == []
      invariant i > 0 ==> nameQuery.wheres != [] &&
                          forall e :: Matches(nameQuery.wheres, e) == AnyWord(words[..i], e)
    {
      ghost var prev := nameQuery.wheres;
      nameQuery.OrWhere(Like(Name, Trim(words[i])));
      AnyWordStep(prev, words, i);
    }
    assert words[..|words|] == words;
  }

  /** One pass of the second closure's loop: ORing the next word's clause. */
  lemma AnyWordStep(prev: seq<Where>, words: seq<string>, i: nat)
    requires i < |words|
    requires i == 0 ==> prev == []
    requires i > 0 ==> prev != [] && forall e :: Matches(prev, e) == AnyWord(words[..i], e)
    ensures forall e :: Matches(prev + [Where(Or, Like(Name, Trim(words[i])))], e) == AnyWord(words[..i + 1], e)
  {
    var c := Like(Name, Trim(words[i]));
    forall e ensures Matches(prev + [Where(Or, c)], e) == AnyWord(words[..i + 1], e) {
      AnyWordStepAt(prev, words, i, e);
    }
  }

  lemma AnyWordStepAt(prev: seq<Where>, words: seq<string>, i: nat, e: Employee)
    requires i < |words|
    requires i == 0 ==> prev == []
    requires i > 0 ==> prev != [] && Matches(prev, e) == AnyWord(words[..i], e)
    ensures Matches(prev + [Where(Or, Like(Name, Trim(words[i])))], e) == AnyWord(words[..i + 1], e)
  {
    var w := Trim(words[i]);
    AnyWordPrefix(words, i, e);
    if i == 0 {
      assert words[..0] == [];
      assert !AnyWord(words[..0], e);
      assert prev + [Where(Or, Like(Name, w))] == [Where(Or, Like(Name, w))];
      FirstWhereLike(Or, Name, w, e);
    } else {
      OrWhereLike(prev, Name, w, e);
    }
  }

  /** The plantilla clauses that open the search group in `applyAdvancedSearch`. */
  function PlantillaClauses(term: string): seq<Where> {
    [Where(And, Like(PlantillaId, term))] +
    (if IsNumeric(term) then [Where(Or, Like(PlantillaId, "1" + term))] else [])
  }

  /** The clause list of the search group, given the lists the two name closures built. */
  function SearchClauses(term: string, hasWords: bool, allWords: seq<Where>, anyWord: seq<Where>): seq<Where> {
    (if hasWords then PlantillaClauses(term) + [Where(And, Nested(allWords))] + [Where(Or, Nested(anyWord))]
     else PlantillaClauses(term))
    + [Where(Or, Like(Name, term))]
  }

  /** The clause list applyAdvancedSearch builds, read with SQL precedence, is SearchMeaning. */
  lemma SearchGroupMeaning(term: string, words: seq<string>, allWords: seq<Where>, anyWord: seq<Where>)
    requires |words| > 0 ==> forall e :: Matches(allWords, e) == AllWords(words, e)
    requires |words| > 0 ==> forall e :: Matches(anyWord, e) == AnyWord(words, e)
    ensures forall e :: Matches(SearchClauses(term, |words| > 0, allWords, anyWord), e) == SearchMeaningWith(term, words, e)
  {
    forall e ensures Matches(SearchClauses(term, |words| > 0, allWords, anyWord), e) == SearchMeaningWith(term, words, e) {
      SearchGroupAt(term, words, allWords, anyWord, e);
    }
  }

  lemma SearchGroupAt(term: string, words: seq<string>, allWords: seq<Where>, anyWord: seq<Where>, e: Employee)
    requires |words| > 0 ==> Matches(allWords, e) == AllWords(words, e)
    requires |words| > 0 ==> Matches(anyWord, e) == AnyWord(words, e)
    ensures Matches(SearchClauses(term, |words| > 0, allWords, anyWord), e) == SearchMeaningWith(term, words, e)
  {
    var p := Contains(e.plantillaId, term);
    var p1 := Contains(e.plantillaId, "1" + term);
    if p1 {
      ContainsDropPrefix(e.plantillaId, "1", term);
    }
    var body := if |words| > 0 then PlantillaClauses(term) + [Where(And, Nested(allWords))] + [Where(Or, Nested(anyWord))]
                else PlantillaClauses(term);
    assert body != [];
    StateSnoc(body, Where(Or, Like(Name, term)), e);
    var st := State(body, e);
    assert Matches(SearchClauses(term, |words| > 0, allWords, anyWord), e) == (st.done || st.open || Contains(e.name, term));
    if |words| == 0 {
      HeadState(term, e);
      assert !AnyWord(words, e);
    } else {
      WordsState(term, words, allWords, anyWord, e);
      if AllWords(words, e) {
        AllWordsAnyWord(words, e);
      }
    }
    SearchCases(IsNumeric(term), |words| > 0, p, p1, AllWords(words, e), AnyWord(words, e),
                Contains(e.name, term), st.done, st.open);
  }

  /** The propositional core of the search group: how the evaluation state after the plantilla
      and word clauses, ORed with the whole-term name clause, reduces to SearchMeaningWith. */
  lemma SearchCases(numeric: bool, hasWords: bool, p: bool, p1: bool, all: bool, any: bool, n: bool,
                    done: bool, open: bool)
    requires p1 ==> p
    requires hasWords && all ==> any
    requires !hasWords ==> !any
    requires !hasWords ==> if numeric then done == p && open == p1 else !done && open == p
    requires hasWords ==> open == any && done == if numeric then p || (p1 && all) else p && all
    ensures (done || open || n) == ((p && (numeric || !hasWords)) || any || n)
  {
  }

  /** The state after the two name groups of the search clause. */
  lemma WordsState(term: string, words: seq<string>, allWords: seq<Where>, anyWord: seq<Where>, e: Employee)
    requires Matches(allWords, e) == AllWords(words, e)
    requires Matches(anyWord, e) == AnyWord(words, e)
    ensures var s := State(PlantillaClauses(term) + [Where(And, Nested(allWords))] + [Where(Or, Nested(anyWord))], e);
      && s.open == AnyWord(words, e)
      && s.done == if IsNumeric(term)
                   then Contains(e.plantillaId, term) || (Contains(e.plantillaId, "1" + term) && AllWords(words, e))
                   else Contains(e.plantillaId, term) && AllWords(words, e)
  {
    var head := PlantillaClauses(term);
    HeadState(term, e);
    var mid := head + [Where(And, Nested(allWords))];
    StateSnoc(head, Where(And, Nested(allWords)), e);
    StateSnoc(mid, Where(Or, Nested(anyWord)), e);
  }

  /** The state after the plantilla clauses of the search group. */
  lemma HeadState(term: string, e: Employee)
    ensures State(PlantillaClauses(term), e) ==
      if IsNumeric(term) then FoldState(Contains(e.plantillaId, term), Contains(e.plantillaId, "1" + term))
      else FoldState(false, Contains(e.plantillaId, term))
  {
    var first := [Where(And, Like(PlantillaId, term))];
    assert [] + first == first;
    StateSnoc([], first[0], e);
    if IsNumeric(term) {
      StateSnoc(first, Where(Or, Like(PlantillaId, "1" + term)), e);
    } else {
      assert PlantillaClauses(term) == first;
    }
  }

  // ---------------------------------------------------------------------------------------
  // getEmployees
  // ---------------------------------------------------------------------------------------

  /** The caller's `$filters`; `None` is a key that is absent or null. */
  datatype Filters = Filters(
    generalDirectionId: Option<int>,
    directionId: Option<int>,
    subdirectorateId: Option<int>,
    search: Option<string>,
    active: Option<int>)

  const NoFilters: Filters := Filters(None, None, None, None, None)

  /** `!empty($filters[key])` on an integer filter: present and not 0. */
  predicate Given(filter: Option<int>) {
    filter.Some? && filter.value != 0
  }

  /** `!empty($filters['search'])`. */
  predicate SearchGiven(filters: Filters) {
    filters.search.Some? && !IsEmpty(filters.search.value)
  }

  /** Non-administrator general-direction step: the user's own GD forced above level 2,
      otherwise the caller's GD filter, through the same 18/28 expansion. */
  predicate GdStepAdmits(user: User, filters: Filters, e: Employee) {
    if user.level > 2 then ValidateGeneralDirection(user.generalDirectionId, e)
    else Given(filters.generalDirectionId) ==> ValidateGeneralDirection(filters.generalDirectionId.value, e)
  }

  /** Non-administrator direction step: forced above level 3, otherwise the caller's filter as given. */
  predicate DirectionStepAdmits(user: User, filters: Filters, e: Employee) {
    if user.level > 3 then e.directionId == user.directionId
    else Given(filters.directionId) ==> e.directionId == filters.directionId.value
  }

  /** Non-administrator subdirectorate step: forced above level 4, otherwise the caller's filter as given. */
  predicate SubdirectorateStepAdmits(user: User, filters: Filters, e: Employee) {
    if user.level > 4 then e.subdirectorateId == user.subdirectorateId
    else Given(filters.subdirectorateId) ==> e.subdirectorateId == filters.subdirectorateId.value
  }

  /** The hierarchy part of getEmployees. The administrator only has the optional GD filter;
      direction and subdirectorate filters are not read for level 1. */
  predicate HierarchyAdmits(user: User, filters: Filters, e: Employee) {
    if user.level == 1 then
      Given(filters.generalDirectionId) ==> ValidateGeneralDirection(filters.generalDirectionId.value, e)
    else
      GdStepAdmits(user, filters, e) && DirectionStepAdmits(user, filters, e) && SubdirectorateStepAdmits(user, filters, e)
  }

  /** Everything getEmployees ANDs together: hierarchy, then search, then `active`
      (`isset`, so an `active` of 0 is applied). */
  predicate ListingAdmits(user: User, filters: Filters, e: Employee) {
    && HierarchyAdmits(user, filters, e)
    && (SearchGiven(filters) ==> SearchAdmits(filters.search.value, e))
    && (filters.active.Some? ==> e.active == filters.active.value)
  }

  /** The rows the listing query selects, before ordering and pagination. */
  function ListingRows(user: User, filters: Filters, table: seq<Employee>): seq<Employee> {
    Filter(table, e => ListingAdmits(user, filters, e))
  }

  /** The hierarchy part of `getEmployees`, on a query with no clause yet. */
  method ApplyHierarchyRules(query: Builder, user: User, filters: Filters)
    requires query.wheres == []
    modifies query
    ensures Conjunctive(query.wheres)
    ensures forall e :: Matches(query.wheres, e) == HierarchyAdmits(user, filters, e)
  {
    forall e ensures Matches(query.wheres, e) {
      MatchesEmpty(e);
    }
    if user.level == 1 {
      if Given(filters.generalDirectionId) {
        ApplyGeneralDirectionRules(query, filters.generalDirectionId.value);
      }
      return;
    }
    if user.level > 2 {
      ApplyGeneralDirectionRules(query, user.generalDirectionId);
    } else if Given(filters.generalDirectionId) {
      ApplyGeneralDirectionRules(query, filters.generalDirectionId.value);
    }
    assert forall e :: Matches(query.wheres, e) == GdStepAdmits(user, filters, e);

    ghost var afterGd := query.wheres;
    if user.level > 3 {
      query.AndWhere(Equals(DirectionId, user.directionId));
      AndWhereEqualsAll(afterGd, DirectionId, user.directionId);
    } else if Given(filters.directionId) {
      query.AndWhere(Equals(DirectionId, filters.directionId.value));
      AndWhereEqualsAll(afterGd, DirectionId, filters.directionId.value);
    }
    assert forall e :: Matches(query.wheres, e) == (GdStepAdmits(user, filters, e) && DirectionStepAdmits(user, filters, e));

    ghost var afterDirection := query.wheres;
    if user.level > 4 {
      query.AndWhere(Equals(SubdirectorateId, user.subdirectorateId));
      AndWhereEqualsAll(afterDirection, SubdirectorateId, user.subdirectorateId);
    } else if Given(filters.subdirectorateId) {
      query.AndWhere(Equals(SubdirectorateId, filters.subdirectorateId.value));
      AndWhereEqualsAll(afterDirection, SubdirectorateId, filters.subdirectorateId.value);
    }
  }

  /** The `$query` that `getEmployees` builds before counting and paging. */
  method BuildListingQuery(user: User, filters: Filters) returns (query: Builder)
    ensures fresh(query)
    ensures Conjunctive(query.wheres)
    ensures forall e :: Matches(query.wheres, e) == ListingAdmits(user, filters, e)
  {
    query := new Builder();
    ApplyHierarchyRules(query, user, filters);
    ApplySearchFilter(query, filters);
    ApplyActiveFilter(query, filters);
  }

  /** The search filter of `getEmployees`: applied only to a non-empty search, after trimming. */
  method ApplySearchFilter(query: Builder, filters: Filters)
    requires Conjunctive(query.wheres)
    modifies query
    ensures Conjunctive(query.wheres)
    ensures forall e :: Matches(query.wheres, e) ==
                        (Matches(old(query.wheres), e) && (SearchGiven(filters) ==> SearchAdmits(filters.search.value, e)))
  {
    if SearchGiven(filters) {
      ApplyAdvancedSearch(query, Trim(filters.search.value));
      TrimIdempotent(filters.search.value);
    }
  }

  /** The `active` filter of `getEmployees`: `isset`, so an `active` of 0 is applied. */
  method ApplyActiveFilter(query: Builder, filters: Filters)
    requires Conjunctive(query.wheres)
    modifies query
    ensures Conjunctive(query.wheres)
    ensures forall e :: Matches(query.wheres, e) ==
                        (Matches(old(query.wheres), e) && (filters.active.Some? ==> e.active == filters.active.value))
  {
    if filters.active.Some? {
      ghost var before := query.wheres;
      query.AndWhere(Equals(Active, filters.active.value));
      AndWhereEqualsAll(before, Active, filters.active.value);
    }
  }

  /** Running the listing query over the table selects exactly ListingRows. */
  lemma SelectsListingRows(wheres: seq<Where>, user: User, filters: Filters, table: seq<Employee>)
    requires forall e :: Matches(wheres, e) == ListingAdmits(user, filters, e)
    ensures Filter(table, e => Matches(wheres, e)) == ListingRows(user, filters, table)
  {
    FilterAgrees(table, e => Matches(wheres, e), e => ListingAdmits(user, filters, e));
  }

  /** The `foreach` that pushes each fetched row onto the result in `getEmployees`. */
  method CollectRows(fetched: seq<Employee>) returns (rows: seq<Employee>)
    ensures rows == fetched
  {
    rows := [];
    for i := 0 to |fetched|
      invariant rows == fetched[..i]
    {
      rows := rows + [fetched[i]];
    }
    assert fetched[..|fetched|] == fetched;
  }

  /** `getEmployees($take, $skip, $filters, &$total)`: `total` counts every selected row whatever
      the page; with take > 0 the rows are the name-ordered page, otherwise all selected rows. */
  method GetEmployees(user: User, take: int, skip: nat, filters: Filters, table: seq<Employee>)
    returns (rows: seq<Employee>, total: int)
    ensures total == |ListingRows(user, filters, table)|
    ensures take > 0 ==> rows == Page(SortByName(ListingRows(user, filters, table)), skip, take)
    ensures take > 0 ==> |rows| <= take && SortedByName(rows)
    ensures take <= 0 ==> rows == ListingRows(user, filters, table)
    ensures forall e :: e in rows ==> e in table && ListingAdmits(user, filters, e)
  {
    var query := BuildListingQuery(user, filters);
    var wheres := query.wheres;
    var selected := Filter(table, e => Matches(wheres, e));
    SelectsListingRows(wheres, user, filters, table);
    total := |selected|;
    var fetched := selected;
    if take > 0 {
      fetched := Page(SortByName(selected), skip, take);
      OrderedPage(selected, skip, take);
    }
    rows := CollectRows(fetched);
  }

  // ---------------------------------------------------------------------------------------
  // getEmployeesOfUser
  // ---------------------------------------------------------------------------------------

  /** `getEmployeesOfUser()`: every employee the access helper lets the user see, by name;
      the query is built with the helper's own `>=` thresholds. */
  method GetEmployeesOfUser(user: User, table: seq<Employee>) returns (rows: seq<Employee>)
    ensures rows == SortByName(Filter(table, e => ValidateUser(user, e)))
    ensures forall e :: e in rows <==> e in table && ValidateUser(user, e)
    ensures SortedByName(rows)
  {
    var query := new Builder();
    forall e ensures Matches(query.wheres, e) {
      MatchesEmpty(e);
    }
    if user.level > 1 {
      if user.level >= 2 {
        ApplyGeneralDirectionRules(query, user.generalDirectionId);
      }
      ghost var afterGd := query.wheres;
      if user.level >= 3 {
        query.AndWhere(Equals(DirectionId, user.directionId));
        AndWhereEqualsAll(afterGd, DirectionId, user.directionId);
      }
      ghost var afterDirection := query.wheres;
      if user.level >= 4 {
        query.AndWhere(Equals(SubdirectorateId, user.subdirectorateId));
        AndWhereEqualsAll(afterDirection, SubdirectorateId, user.subdirectorateId);
      }
    }
    assert forall e :: Matches(query.wheres, e) == ValidateUser(user, e);
    var wheres := query.wheres;
    FilterAgrees(table, e => Matches(wheres, e), e => ValidateUser(user, e));
    rows := SortByName(Filter(table, e => Matches(wheres, e)));
    OrderedSelection(table, e => ValidateUser(user, e));
  }

  // ---------------------------------------------------------------------------------------
  // getEmployee
  // ---------------------------------------------------------------------------------------

  /** The two exceptions the single-record operations throw. */
  datatype ServiceError = ModelNotFound | Unauthorized

  /** The key the service looks an employee up by: the number with a "1" in front. */
  function PlantillaKey(employeeNumber: string): string {
    "1" + employeeNumber
  }

  /** `Employee::where('plantilla_id', $key)->first()`: the index of the first row with that key. */
  function FindByPlantilla(table: seq<Employee>, key: string): (found: Option<nat>)
    ensures found.None? <==> forall e :: e in table ==> e.plantillaId != key
    ensures found.Some? ==>
      && found.value < |table|
      && table[found.value].plantillaId == key
      && forall j :: 0 <= j < found.value ==> table[j].plantillaId != key
  {
    if table == [] then None
    else if table[0].plantillaId == key then Some(0)
    else match FindByPlantilla(table[1..], key) {
      case None => None
      case Some(i) => Some(i + 1)
    }
  }

  /** `getEmployee($employeeNumber)`: not found, or found and checked with validateUser unless the
      user is an administrator (level 1 or below skips the check). */
  function GetEmployee(user: User, employeeNumber: string, table: seq<Employee>): (r: Result<Employee, ServiceError>)
    ensures r == Failure(ModelNotFound) <==> forall e :: e in table ==> e.plantillaId != PlantillaKey(employeeNumber)
    ensures r.Success? ==>
      && r.value in table
      && r.value.plantillaId == PlantillaKey(employeeNumber)
      && ValidateUser(user, r.value)
    ensures r == Failure(Unauthorized) ==>
      exists e :: e in table && e.plantillaId == PlantillaKey(employeeNumber) && !ValidateUser(user, e)
  {
    match FindByPlantilla(table, PlantillaKey(employeeNumber)) {
      case None => Failure(ModelNotFound)
      case Some(i) =>
        var employee := table[i];
        var hasAccess := if user.level > 1 then ValidateUser(user, employee) else true;
        if !hasAccess then Failure(Unauthorized) else Success(employee)
    }
  }

  // ---------------------------------------------------------------------------------------
  // updateEmployee
  // ---------------------------------------------------------------------------------------

  /** The `$data` of updateEmployee; `None` is a key for which `isset` is false. */
  datatype UpdateRequest = UpdateRequest(
    generalDirectionId: int,
    directionId: Option<int>,
    subdirectorateId: Option<int>,
    departmentId: Option<int>,
    name: Option<string>,
    canCheck: Option<int>,
    statusId: Option<int>)

  /** `isset($data[key]) ? $data[key] : 1`. */
  function OrOne(value: Option<int>): int {
    if value.Some? then value.value else 1
  }

  /** The record updateEmployee saves: the placement is replaced, an absent direction,
      subdirectorate or department becoming 1; name, `canCheck` (stored as status_id) and
      `status_id` (stored as active) are replaced only when given. */
  function ApplyUpdate(employee: Employee, data: UpdateRequest): Employee {
    employee.(
      generalDirectionId := data.generalDirectionId,
      directionId := OrOne(data.directionId),
      subdirectorateId := OrOne(data.subdirectorateId),
      departmentId := OrOne(data.departmentId),
      name := if data.name.Some? then data.name.value else employee.name,
      statusId := if data.canCheck.Some? then data.canCheck.value else employee.statusId,
      active := if data.statusId.Some? then data.statusId.value else employee.active)
  }

  /** `updateEmployee($employeeNumber, $data)`: the fields are assigned one at a time and the
      record is saved back in place; the new table is returned. */
  method UpdateEmployee(employeeNumber: string, data: UpdateRequest, table: seq<Employee>)
    returns (r: Result<seq<Employee>, ServiceError>)
    ensures r.Failure? <==> forall e :: e in table ==> e.plantillaId != PlantillaKey(employeeNumber)
    ensures r.Failure? ==> r.error == ModelNotFound
    ensures r.Success? ==>
      var i := FindByPlantilla(table, PlantillaKey(employeeNumber)).value;
      && |r.value| == |table|
      && r.value[i] == ApplyUpdate(table[i], data)
      && forall j :: 0 <= j < |table| && j != i ==> r.value[j] == table[j]
  {
    var found := FindByPlantilla(table, PlantillaKey(employeeNumber));
    if found.None? {
      return Failure(ModelNotFound);
    }
    var i := found.value;
    var employee := table[i];
    employee := employee.(generalDirectionId := data.generalDirectionId);
    employee := employee.(directionId := if data.directionId.Some? then data.directionId.value else 1);
    employee := employee.(subdirectorateId := if data.subdirectorateId.Some? then data.subdirectorateId.value else 1);
    employee := employee.(departmentId := if data.departmentId.Some? then data.departmentId.value else 1);
    if data.name.Some? {
      employee := employee.(name := data.name.value);
    }
    if data.canCheck.Some? {
      employee := employee.(statusId := data.canCheck.value);
    }
    if data.statusId.Some? {
      employee := employee.(active := data.statusId.value);
    }
    r := Success(table[i := employee]);
  }
}
