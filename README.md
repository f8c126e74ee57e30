# Employee visibility rule of the attendance checker

The checker decides which employee records a signed-in user may see. The decision depends on
the user's level and on the user's place in the hierarchy: general direction (GD), then
direction, then subdirectorate. The rule is implemented twice:

- **Per record.** `ValidateAccessEmployee::validateUser` and `validateGeneralDirection` answer
  yes or no for one user and one employee.
  - Level 1 (administrator) always passes.
  - From level 2 the GD must agree, from level 3 the direction, from level 4 the subdirectorate.
  - GDs 18 and 28 have a special rule over a fixed list of twelve employee numbers.
- **Listing.** `EmployeeService` builds an Eloquent query out of successive `where`/`orWhere`
  calls. The query is used by `getEmployees` (with caller filters, free-text search, an
  `active` filter, a count and pagination) and by `getEmployeesOfUser`.
  - `getEmployee` looks one record up by `"1" + number` and, for a user above level 1, then
    applies `validateUser`.
  - `updateEmployee` rewrites the placement fields of one record, and also its name, `status_id`
    and `active` when the request gives them.

The model has these modules:

- `Organization`: users, employees and the special list.
- `ValidateAccessEmployee`: the per-record rule, as pure predicates and lemmas.
- `QueryBuilder`: the query builder. It is a class whose `wheres` field is the list of
  `(joiner, condition)` clauses. `AndWhere`/`OrWhere` append to that list. A closure passed to
  `where` becomes a nested group. `Matches` evaluates the list under SQL precedence: AND binds
  tighter than OR, and the first clause's joiner is dropped.
- `PhpText`: the PHP string functions used: `trim`, `empty`, `is_numeric`, `explode`, and
  `LIKE '%x%'`.
- `Rows`: filtering an in-memory table, ordering by name, and `skip`/`take`.
- `EmployeeService`: the service.
  - Each query-building method appends clauses to a `Builder`.
  - Each method is proved to admit exactly the rows of a predicate stated separately
    (`ValidateGeneralDirection`, `SearchAdmits`, `ListingAdmits`, `ValidateUser`).
  - `GetEmployees` and `GetEmployeesOfUser` run the built query over a `seq<Employee>`.
- `Visibility`: theorems that relate the two implementations, the filters, the search and the
  single-record operations.

Assumptions and approximations:

- **One subdirectorate attribute.** The service reads the user's `subdirectorates_id`, while
  the helper reads `subdirectorate_id`. The model has one attribute, `User.subdirectorateId`,
  and so assumes both hold the same value.
- **Integer ids.** Every id is an `int`, and the `(int)` casts are identities.
  - A GD filter of 0 counts as absent (`!empty`).
  - An `active` filter of 0 is still applied (`isset`).
- **`is_numeric`** is narrowed to a non-empty run of decimal digits.
- **`LIKE '%x%'`** is exact substring containment: no case-folding, and no special meaning
  for `%` or `_` inside the term.
- **`strlen`** counts characters instead of bytes.
- **`ORDER BY name`** compares characters by code point. The order of rows with equal names,
  and the row order when `take <= 0`, follow the table's order here; the database fixes
  neither.
- **Outside calls are parameters.**
  - The signed-in user (`Auth::user()`) is passed in.
  - The database table is passed in as a `seq<Employee>`.
  - The update returns the new table instead of saving it.
- **Outcomes.** The exceptions `ModelNotFoundException` and `UnauthorizedException` are the
  `ServiceError` values of a `Result`.

`updateEmployee` checks no access: any caller can update any employee that exists, and the
model keeps it that way.

## Model

| member | source | states |
|---|---|---|
| Organization.IsSpecial | app/Helpers/ValidateAccessEmployee.php:87-99 | definition: `in_array($employee->employee_number, $specialEmployeeNumbers)`, membership in the twelve-number list |
| Organization.SpecialListShape | app/Helpers/ValidateAccessEmployee.php:13-26 | the special list has exactly twelve numbers, all distinct (the same list as app/Services/EmployeeService.php:25-38) |
| ValidateAccessEmployee.ValidateGeneralDirection | app/Helpers/ValidateAccessEmployee.php:80-104 | definition: GD 18 denies the special numbers and otherwise needs employee GD 18; GD 28 needs employee GD 28 or a special number; any other GD needs equal ids |
| ValidateAccessEmployee.ValidateUser | app/Helpers/ValidateAccessEmployee.php:31-75 | definition: level 1 grants; otherwise denial at the first failing check of GD (level >= 2), direction (level >= 3) and subdirectorate (level >= 4), else grant |
| ValidateAccessEmployee.AdminSeesEveryone | app/Helpers/ValidateAccessEmployee.php:34-36 | a level-1 user may see every employee |
| ValidateAccessEmployee.ValidateUserIsConjunction | app/Helpers/ValidateAccessEmployee.php:38-74 | for any other level, access holds iff the GD rule holds when level >= 2, the directions agree when level >= 3, and the subdirectorates agree when level >= 4 |
| ValidateAccessEmployee.NarrowingIsMonotonic | app/Helpers/ValidateAccessEmployee.php:45-72 | raising the level, all else equal, never turns a denial into a grant |
| ValidateAccessEmployee.Gd18Rule | app/Helpers/ValidateAccessEmployee.php:86-92 | a GD-18 user is denied every special employee, even one in GD 18; otherwise access iff the employee's GD is 18 |
| ValidateAccessEmployee.Gd28Rule | app/Helpers/ValidateAccessEmployee.php:97-100 | a GD-28 user is granted access iff the employee's GD is 28 or the employee is special, whatever the actual GD |
| ValidateAccessEmployee.OtherGdRule | app/Helpers/ValidateAccessEmployee.php:82-103 | for any other user GD, the GD rule is equality of the two ids |
| ValidateAccessEmployee.Gd18And28Disjoint | app/Helpers/ValidateAccessEmployee.php:86-100 | no employee passes the GD rule for both GD 18 and GD 28 |
| ValidateAccessEmployee.SpecialEmployeeScenario | app/Helpers/ValidateAccessEmployee.php:14-99 | employee 20902 in GD 18 is denied to a level-2 GD-18 user and granted to a level-2 GD-28 user |
| ValidateAccessEmployee.SubdirectorateScenario | app/Helpers/ValidateAccessEmployee.php:68-74 | a level-4 user matching GD, direction and subdirectorate is granted access; changing only the subdirectorate denies it |
| PhpText.Trim | app/Services/EmployeeService.php:433 | definition: `trim`, the right trim of the left trim, over the characters space, tab, newline, carriage return, NUL and vertical tab |
| PhpText.IsEmpty | app/Services/EmployeeService.php:435 | definition: `empty` on a string, true for "" and "0" |
| PhpText.IsNumeric | app/Services/EmployeeService.php:444 | definition: `is_numeric`, narrowed to a non-empty run of decimal digits |
| PhpText.Contains | app/Services/EmployeeService.php:441 | definition: `LIKE '%needle%'`, the needle is a prefix of some suffix of the text |
| PhpText.TrimLeft | app/Services/EmployeeService.php:433 | the result is a suffix of the input, and does not start with a character `trim` strips |
| PhpText.TrimRight | app/Services/EmployeeService.php:433 | the result is a prefix of the input, and does not end with a character `trim` strips |
| PhpText.TrimLeftCuts | app/Services/EmployeeService.php:433 | every character the left trim removes is one `trim` strips |
| PhpText.TrimRightCuts | app/Services/EmployeeService.php:433 | every character the right trim removes is one `trim` strips |
| PhpText.TrimCutsOnlyTrimCharacters | app/Services/EmployeeService.php:433 | everything `trim` cuts off before and after the piece it returns is a trim character |
| PhpText.TrimShape | app/Services/EmployeeService.php:433 | `trim` returns a contiguous piece of its input with nothing left to strip at either end |
| PhpText.TrimIdempotent | app/Services/EmployeeService.php:118 | trimming twice (the caller trims and so does applyAdvancedSearch) is the same as trimming once |
| PhpText.ContainsAt | app/Services/EmployeeService.php:441 | `LIKE '%x%'` holds iff x occurs at some position of the column |
| PhpText.ContainsDropPrefix | app/Services/EmployeeService.php:441-446 | text containing p + t contains t |
| PhpText.Explode | app/Services/EmployeeService.php:449 | `explode(' ')` yields at least one piece, and no piece contains a space |
| PhpText.ExplodeWithoutSpace | app/Services/EmployeeService.php:449 | text without a space explodes into itself alone |
| PhpText.ImplodeExplode | app/Services/EmployeeService.php:449 | joining the pieces with single spaces gives back the exploded text |
| Rows.Filter | app/Services/EmployeeService.php:145 | a row is selected iff it is in the table and satisfies the condition, and no more rows than the table has are selected |
| Rows.FilterCount | app/Services/EmployeeService.php:131-145 | every copy of an admitted row is kept and no copy of another row, so the count of selected rows is exact |
| Rows.FilterConcat | app/Services/EmployeeService.php:145 | selection keeps table order: selecting from two tables laid end to end gives the two selections end to end |
| Rows.FilterAgrees | app/Services/EmployeeService.php:131-145 | two conditions that agree on every row select the same rows in the same order |
| Rows.NameLe | app/Services/EmployeeService.php:140 | definition: `ORDER BY name ASC`, character-by-character comparison where a prefix comes first |
| Rows.NameLeTotal | app/Services/EmployeeService.php:140 | any two names are ordered one way or the other |
| Rows.NameLeTransitive | app/Services/EmployeeService.php:140 | the name order is transitive |
| Rows.InsertByName | app/Services/EmployeeService.php:140 | inserting into a name-ordered list keeps it ordered and adds exactly that row |
| Rows.SortByName | app/Services/EmployeeService.php:140 | `ORDER BY name ASC` gives a name-ordered permutation of the rows |
| Rows.Page | app/Services/EmployeeService.php:141-142 | `skip`/`take` give exactly min(take, rows left after skip) rows, none when skip passes the end, each the row skip + i of the input |
| Rows.PageOfSorted | app/Services/EmployeeService.php:139-143 | a page of a name-ordered result is name-ordered and holds only rows of that result |
| Rows.OrderedPage | app/Services/EmployeeService.php:139-145 | a page of the ordered selection is name-ordered and holds only selected rows |
| Rows.OrderedSelection | app/Services/EmployeeService.php:183 | ordering the selected rows neither adds nor drops any |
| QueryBuilder.Eval | app/Services/EmployeeService.php:41-49 | definition: one clause on one row: a column equal to a value, the employee number in or not in a list, a text column containing a needle, or a parenthesised group read with AND before OR |
| QueryBuilder.Matches | app/Services/EmployeeService.php:62-123 | definition: a whole clause list as the group it forms, the first clause's joiner ignored |
| QueryBuilder.Builder.constructor | app/Services/EmployeeService.php:62 | `Employee::query()` starts with no clause |
| QueryBuilder.Builder.AndWhere | app/Services/EmployeeService.php:41-49 | `where` appends one clause joined with AND and changes nothing else |
| QueryBuilder.Builder.OrWhere | app/Services/EmployeeService.php:46 | `orWhere`/`orWhereIn` appends one clause joined with OR and changes nothing else |
| QueryBuilder.MatchesEmpty | app/Services/EmployeeService.php:62 | a query without clauses admits every row |
| QueryBuilder.FoldPrefix | app/Services/EmployeeService.php:439-472 | two clause lists that share their first n clauses are in the same evaluation state after those n |
| QueryBuilder.StateSnoc | app/Services/EmployeeService.php:439-472 | appending a clause updates the evaluation state by one AND or OR step, with the first clause's joiner ignored |
| QueryBuilder.ConjunctiveState | app/Services/EmployeeService.php:41-49 | a list of AND clauses never closes an AND-run, so its value is that of its single open run |
| QueryBuilder.StaysConjunctive | app/Services/EmployeeService.php:41-49 | appending an AND clause to a list of AND clauses keeps it one |
| QueryBuilder.AndWhereMeaning | app/Services/EmployeeService.php:99-122 | on a list of AND clauses, `where(c)` admits exactly the rows admitted before that also satisfy c |
| QueryBuilder.AndWhereEqualsAll | app/Services/EmployeeService.php:99-122 | ANDing `column = value` onto a conjunctive list admits, for every row, exactly the rows the old list admits whose column has that value; the list stays conjunctive |
| QueryBuilder.AndWhereGroupAll | app/Services/EmployeeService.php:439-473 | ANDing a parenthesised group onto a conjunctive list admits, for every row, exactly the rows both admit; the list stays conjunctive |
| QueryBuilder.AndWhereLike | app/Services/EmployeeService.php:455-458 | ANDing a `like` clause onto a conjunctive list admits exactly the rows the old list admits whose column contains the needle |
| QueryBuilder.OrWhereMeaning | app/Services/EmployeeService.php:445-472 | on a non-empty list, `orWhere(c)` admits exactly the rows admitted before plus those satisfying c |
| QueryBuilder.FirstWhere | app/Services/EmployeeService.php:441 | a single clause admits exactly what its condition admits, whatever its joiner |
| EmployeeService.KeepsWord | app/Services/EmployeeService.php:450-452 | definition: the `array_filter` callback, a word that is not empty once trimmed and longer than one character once trimmed |
| EmployeeService.SearchWords | app/Services/EmployeeService.php:449-452 | definition: the pieces of `explode(' ', term)` that KeepsWord keeps, in order |
| EmployeeService.SearchAdmits | app/Services/EmployeeService.php:431-473 | definition: a term blank after trimming admits every row; otherwise SearchMeaning of the trimmed term |
| EmployeeService.Given | app/Services/EmployeeService.php:76-106 | definition: `!empty` on an integer filter, present and not 0 |
| EmployeeService.SearchGiven | app/Services/EmployeeService.php:117 | definition: `!empty($filters['search'])` on the untrimmed value |
| EmployeeService.HierarchyAdmits | app/Services/EmployeeService.php:73-109 | definition: for an administrator only the GD filter through the 18/28 rule; otherwise the GD, direction and subdirectorate steps, each the user's own above its strict threshold and the caller's non-empty filter below it |
| EmployeeService.ListingAdmits | app/Services/EmployeeService.php:62-123 | definition: HierarchyAdmits, and the search when given, and the `active` value when set |
| EmployeeService.ApplyGeneralDirectionRules | app/Services/EmployeeService.php:23-53 | the query now admits exactly what it admitted before and also passes `validateGeneralDirection` for that GD: GD 18 and not special, GD 28 or special, or plain equality |
| EmployeeService.AllWordsPrefix | app/Services/EmployeeService.php:456-459 | one more word in the AND group adds one conjunct |
| EmployeeService.AnyWordPrefix | app/Services/EmployeeService.php:464-467 | one more word in the OR group adds one disjunct |
| EmployeeService.AllWordsAnyWord | app/Services/EmployeeService.php:453-468 | when there are kept words and the name contains all of them, it contains one of them |
| EmployeeService.AllWordsStep | app/Services/EmployeeService.php:456-459 | one more pass of the first closure's loop keeps the group conjunctive and extends what it admits by one more word |
| EmployeeService.AnyWordStep | app/Services/EmployeeService.php:464-467 | one more pass of the second closure's loop extends what the group admits by one more word |
| EmployeeService.AllWordsGroup | app/Services/EmployeeService.php:454-460 | the first name closure admits exactly the rows whose name contains every kept word |
| EmployeeService.AnyWordGroup | app/Services/EmployeeService.php:463-468 | the second name closure admits exactly the rows whose name contains at least one kept word |
| EmployeeService.AddNameGroups | app/Services/EmployeeService.php:453-469 | with kept words, the query gains the all-words group ANDed and then the any-word group ORed, and the two groups admit exactly the rows whose name contains every kept word and some kept word |
| EmployeeService.SearchGroup | app/Services/EmployeeService.php:439-472 | the closure's group admits exactly the rows SearchMeaning describes |
| EmployeeService.HeadState | app/Services/EmployeeService.php:441-446 | after the plantilla clauses, the evaluation state is (plantilla contains t, plantilla contains "1" + t) for a numeric t and (nothing closed, plantilla contains t) otherwise |
| EmployeeService.WordsState | app/Services/EmployeeService.php:453-468 | after the two name groups the AND-run holding the plantilla clause has been closed with the all-words group and the open run is the any-word group |
| EmployeeService.SearchGroupAt | app/Services/EmployeeService.php:439-472 | for one row, the search group admits it iff the plantilla contains the term and the term is numeric or has no kept word, or its name contains a kept word, or its name contains the whole term |
| EmployeeService.SearchGroupMeaning | app/Services/EmployeeService.php:439-472 | the same for every row |
| EmployeeService.ApplyAdvancedSearch | app/Services/EmployeeService.php:431-473 | a blank term after trimming leaves the query unchanged; otherwise the query admits what it admitted before and also passes the search |
| EmployeeService.ApplyHierarchyRules | app/Services/EmployeeService.php:73-109 | starting from an empty query, the clauses added for the user's level admit exactly HierarchyAdmits: only the GD filter for an administrator, otherwise the user's own GD, direction and subdirectorate above levels 2, 3 and 4 and the caller's non-zero filters below them |
| EmployeeService.ApplySearchFilter | app/Services/EmployeeService.php:117-119 | a non-empty search narrows the query to the rows that pass the trimmed search; otherwise the query admits what it did |
| EmployeeService.ApplyActiveFilter | app/Services/EmployeeService.php:121-123 | a set `active` filter, 0 included, narrows the query to the rows with that value; otherwise the query admits what it did |
| EmployeeService.BuildListingQuery | app/Services/EmployeeService.php:62-123 | the built query admits exactly the rows passing the hierarchy constraints, then the search when given, then `active` when set |
| EmployeeService.SelectsListingRows | app/Services/EmployeeService.php:131-145 | running the built query over the table selects exactly the listing rows |
| EmployeeService.CollectRows | app/Services/EmployeeService.php:147-149 | the `foreach` returns the fetched rows in order |
| EmployeeService.GetEmployees | app/Services/EmployeeService.php:59-152 | `total` is the number of selected rows whatever take and skip are; with take > 0 the result is the skip/take page of the name-ordered selection, at most take rows, ordered; with take <= 0 it is every selected row; every row returned is in the table and passes the listing rule |
| EmployeeService.GetEmployeesOfUser | app/Services/EmployeeService.php:158-184 | the result is the name-ordered list of exactly the employees `validateUser` grants the user |
| EmployeeService.PlantillaKey | app/Services/EmployeeService.php:198 | definition: the plantilla id looked up for an employee number, `'1' . $employeeNumber`, the same key updateEmployee uses |
| EmployeeService.FindByPlantilla | app/Services/EmployeeService.php:198 | `->first()` finds nothing iff no row has the key, and otherwise the first row that has it |
| EmployeeService.GetEmployee | app/Services/EmployeeService.php:195-225 | not found iff no row has the key "1" + number; a returned record has that key and is granted by `validateUser`; an Unauthorized answer means a record with the key exists and is denied |
| EmployeeService.ApplyUpdate | app/Services/EmployeeService.php:247-265 | definition: the saved record: GD replaced; direction, subdirectorate and department replaced or set to 1 when absent; name replaced when given; `canCheck` stored as status_id and `status_id` stored as active when given |
| EmployeeService.UpdateEmployee | app/Services/EmployeeService.php:237-278 | fails with not found iff no row has the key; otherwise only the first row with the key changes, and it becomes the mapped record, with absent direction, subdirectorate and department set to 1 and name, status and active kept unless given |
| Visibility.ListingShowsEveryVisible | app/Services/EmployeeService.php:73-109 | with no caller filters, every employee `validateUser` grants passes the listing rule |
| Visibility.ListingRowsContainVisible | app/Services/EmployeeService.php:59-152 | with no caller filters, every visible row of the table is selected |
| Visibility.ListingExactOutsideMiddleLevels | app/Services/EmployeeService.php:73-109 | below level 2 and from level 5 on, the unfiltered listing rule and `validateUser` agree exactly |
| Visibility.ListingWiderAtMiddleLevels | app/Services/EmployeeService.php:86-108 | at levels 2, 3 and 4 the strict thresholds let through an employee that `validateUser` denies |
| Visibility.AdminGd18FilterHidesSpecial | app/Services/EmployeeService.php:76-81 | an administrator filtering on GD 18 only sees GD-18 employees, and none on the special list |
| Visibility.AdminIgnoresPlacementFilters | app/Services/EmployeeService.php:73-81 | for an administrator the direction and subdirectorate filters change nothing, and without a GD filter the hierarchy admits everyone |
| Visibility.GdFilterIgnoredAboveLevel2 | app/Services/EmployeeService.php:86-96 | above level 2 the caller's GD filter is ignored and the user's own GD rule is enforced |
| Visibility.DirectionFilterIgnoredAboveLevel3 | app/Services/EmployeeService.php:98-102 | above level 3 the caller's direction filter is ignored and the user's own direction is enforced |
| Visibility.SubdirectorateFilterIgnoredAboveLevel4 | app/Services/EmployeeService.php:104-108 | above level 4 the caller's subdirectorate filter is ignored and the user's own subdirectorate is enforced |
| Visibility.FiltersAppliedBelowThresholds | app/Services/EmployeeService.php:91-107 | below each threshold a non-administrator's non-empty filter is applied as given |
| Visibility.ZeroIdFiltersIgnored | app/Services/EmployeeService.php:76-107 | a GD, direction or subdirectorate filter of 0 is the same as none |
| Visibility.ActiveZeroApplied | app/Services/EmployeeService.php:121-123 | an `active` filter of 0 is applied |
| Visibility.BlankSearchIgnored | app/Services/EmployeeService.php:117-118 | a search that is blank once trimmed narrows nothing |
| Visibility.NameContainingTermMatches | app/Services/EmployeeService.php:472 | a name containing the whole trimmed term matches |
| Visibility.NameContainingWordMatches | app/Services/EmployeeService.php:449-468 | a name containing one of the kept words matches |
| Visibility.NumericPlantillaMatches | app/Services/EmployeeService.php:441-446 | for a numeric term, a plantilla id containing the term matches |
| Visibility.PrefixedClauseSubsumed | app/Services/EmployeeService.php:441-446 | the `"%1" + term + "%"` clause admits nothing the `"%" + term + "%"` clause does not |
| Visibility.NonNumericPlantillaAloneRejected | app/Services/EmployeeService.php:441-458 | for the non-numeric term "ab", a row whose plantilla id contains it but whose name does not is rejected, because the plantilla clause is ANDed with the all-words group |
| Visibility.LookupWithinOwnList | app/Services/EmployeeService.php:195-225 | a record getEmployee returns is in the user's own list and in the unfiltered listing |
| Visibility.LookupGrantedIffVisible | app/Services/EmployeeService.php:204-224 | when a record with the key exists, getEmployee returns the first one iff `validateUser` grants it, and answers Unauthorized otherwise |
| Visibility.AdminNeverUnauthorized | app/Services/EmployeeService.php:206 | an administrator is never refused an existing record |
| Visibility.UpdateIdempotent | app/Services/EmployeeService.php:245-265 | applying the same update twice stores the same record as applying it once |
| Visibility.UpdateKeepsLookup | app/Services/EmployeeService.php:240-267 | the update keeps the employee number and the key, so the same number finds the updated record in the same place |

## Left out

- `Auth::user()`, the database and `save()` are parameters or return values, as said above.
- `Log::error`/`Log::notice` and the `try`/`catch` blocks that only log and rethrow are not modelled.
- `EmployeeViewModel::fromEmployeeModel` shapes a record for display. The model returns the `Employee` itself.
- `updateEmployeeStatus`, `getNewEmployees` and `updateEmployeeSchedule` are not modelled. They are record plumbing, an unrelated listing, and persistence inside transactions.
- GetEmployees: `skip` is a natural number; a negative skip is not modelled.
- GetEmployees: the database leaves open the order of rows with equal names, and the order of all rows when take <= 0. The model fixes table order in both cases, and its contract states that order, so there it promises more than the query does.
- FindByPlantilla: `->first()` in getEmployee and updateEmployee has no `ORDER BY`, so the database may return any row with the key. The model returns the first one in table order, and GetEmployee and UpdateEmployee inherit that choice.
- UpdateEmployee: a missing `general_direction_id` key (PHP would store null) is not modelled. The request always carries an integer.
- UpdateEmployee: the exceptions `save()` can throw are not modelled.
