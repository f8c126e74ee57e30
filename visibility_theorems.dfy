/**
 * How the two implementations of the visibility rule relate: the per-record predicate
 * `ValidateUser` and the listing query that `getEmployees` builds, plus the search clause,
 * the single-record lookup and the update.
 */
module Visibility {
  import opened Wrappers
  import opened Organization
  import opened PhpText
  import opened Rows
  import opened ValidateAccessEmployee
  import opened EmployeeService

  // ---------------------------------------------------------------------------------------
  // getEmployees against validateUser
  // ---------------------------------------------------------------------------------------

  /** With no caller filters the listing shows at least every employee validateUser grants. */
  lemma ListingShowsEveryVisible(user: User, e: Employee)
    requires ValidateUser(user, e)
    ensures ListingAdmits(user, NoFilters, e)
  {
    if user.level != 1 {
      ValidateUserIsConjunction(user, e);
    }
  }

  /** The same, on rows: every visible row of the table is selected. */
  lemma ListingRowsContainVisible(user: User, table: seq<Employee>)
    ensures forall e :: e in table && ValidateUser(user, e) ==> e in ListingRows(user, NoFilters, table)
  {
    forall e | e in table && ValidateUser(user, e) ensures e in ListingRows(user, NoFilters, table) {
      ListingShowsEveryVisible(user, e);
    }
  }

  /** Below level 2 and from level 5 on, the unfiltered listing and validateUser agree exactly. */
  lemma ListingExactOutsideMiddleLevels(user: User, e: Employee)
    requires user.level <= 1 || user.level >= 5
    ensures ListingAdmits(user, NoFilters, e) <==> ValidateUser(user, e)
  {
    if user.level != 1 {
      ValidateUserIsConjunction(user, e);
    }
  }

  /** At levels 2, 3 and 4 the strict thresholds of getEmployees let through an employee
      that validateUser denies. */
  lemma ListingWiderAtMiddleLevels(user: User)
    requires 2 <= user.level <= 4
    ensures exists e :: ListingAdmits(user, NoFilters, e) && !ValidateUser(user, e)
  {
    var e := MiddleLevelWitness(user);
    ValidateUserIsConjunction(user, e);
    assert HierarchyAdmits(user, NoFilters, e);
    assert ListingAdmits(user, NoFilters, e);
  }

  /** A non-special employee that agrees with the user everywhere except at the level's own step. */
  function MiddleLevelWitness(user: User): (e: Employee)
    requires 2 <= user.level <= 4
    ensures !IsSpecial(e.employeeNumber)
    ensures user.level == 2 ==> !ValidateGeneralDirection(user.generalDirectionId, e)
    ensures user.level > 2 ==> ValidateGeneralDirection(user.generalDirectionId, e)
    ensures user.level == 3 ==> e.directionId != user.directionId
    ensures user.level == 4 ==> e.directionId == user.directionId && e.subdirectorateId != user.subdirectorateId
  {
    assert !IsSpecial(0);
    if user.level == 2 then
      Employee(0, "", "", user.generalDirectionId + 1, user.directionId, user.subdirectorateId, 1, 1, 1)
    else if user.level == 3 then
      Employee(0, "", "", user.generalDirectionId, user.directionId + 1, user.subdirectorateId, 1, 1, 1)
    else
      Employee(0, "", "", user.generalDirectionId, user.directionId, user.subdirectorateId + 1, 1, 1, 1)
  }

  // ---------------------------------------------------------------------------------------
  // getEmployees: the caller's filters
  // ---------------------------------------------------------------------------------------

  /** An administrator filtering on GD 18 still never sees an employee of the special list. */
  lemma AdminGd18FilterHidesSpecial(user: User, filters: Filters, e: Employee)
    requires user.level == 1 && filters.generalDirectionId == Some(18)
    requires ListingAdmits(user, filters, e)
    ensures e.generalDirectionId == 18 && !IsSpecial(e.employeeNumber)
  {
    Gd18Rule(e);
  }

  /** An administrator without a GD filter is not narrowed by the hierarchy at all, and
      direction and subdirectorate filters are not read for level 1. */
  lemma AdminIgnoresPlacementFilters(user: User, filters: Filters, e: Employee, direction: Option<int>, subdirectorate: Option<int>)
    requires user.level == 1
    ensures HierarchyAdmits(user, filters, e) ==
            HierarchyAdmits(user, filters.(directionId := direction, subdirectorateId := subdirectorate), e)
    ensures !Given(filters.generalDirectionId) ==> HierarchyAdmits(user, filters, e)
  {
  }

  /** Above level 2 the user's own GD is forced and the caller's GD filter is ignored. */
  lemma GdFilterIgnoredAboveLevel2(user: User, filters: Filters, e: Employee, gd: Option<int>)
    requires user.level > 2
    ensures ListingAdmits(user, filters, e) == ListingAdmits(user, filters.(generalDirectionId := gd), e)
    ensures ListingAdmits(user, filters, e) ==> ValidateGeneralDirection(user.generalDirectionId, e)
  {
  }

  /** Above level 3 the user's own direction is forced and the caller's direction filter is ignored. */
  lemma DirectionFilterIgnoredAboveLevel3(user: User, filters: Filters, e: Employee, direction: Option<int>)
    requires user.level > 3
    ensures ListingAdmits(user, filters, e) == ListingAdmits(user, filters.(directionId := direction), e)
    ensures ListingAdmits(user, filters, e) ==> e.directionId == user.directionId
  {
  }

  /** Above level 4 the user's own subdirectorate is forced and the caller's filter is ignored. */
  lemma SubdirectorateFilterIgnoredAboveLevel4(user: User, filters: Filters, e: Employee, subdirectorate: Option<int>)
    requires user.level > 4
    ensures ListingAdmits(user, filters, e) == ListingAdmits(user, filters.(subdirectorateId := subdirectorate), e)
    ensures ListingAdmits(user, filters, e) ==> e.subdirectorateId == user.subdirectorateId
  {
  }

  /** Below each threshold a non-administrator's non-empty filter is applied as given. */
  lemma FiltersAppliedBelowThresholds(user: User, filters: Filters, e: Employee)
    requires user.level != 1
    requires ListingAdmits(user, filters, e)
    ensures user.level <= 2 && Given(filters.generalDirectionId) ==>
              ValidateGeneralDirection(filters.generalDirectionId.value, e)
    ensures user.level <= 3 && Given(filters.directionId) ==> e.directionId == filters.directionId.value
    ensures user.level <= 4 && Given(filters.subdirectorateId) ==> e.subdirectorateId == filters.subdirectorateId.value
  {
  }

  /** `!empty`: an id filter of 0 is the same as no filter. */
  lemma ZeroIdFiltersIgnored(user: User, filters: Filters, e: Employee)
    ensures ListingAdmits(user, filters.(generalDirectionId := Some(0)), e) ==
            ListingAdmits(user, filters.(generalDirectionId := None), e)
    ensures ListingAdmits(user, filters.(directionId := Some(0)), e) ==
            ListingAdmits(user, filters.(directionId := None), e)
    ensures ListingAdmits(user, filters.(subdirectorateId := Some(0)), e) ==
            ListingAdmits(user, filters.(subdirectorateId := None), e)
  {
  }

  /** `isset`: an `active` filter of 0 is applied, and only employees with active 0 remain. */
  lemma ActiveZeroApplied(user: User, filters: Filters, e: Employee)
    requires filters.active == Some(0)
    requires ListingAdmits(user, filters, e)
    ensures e.active == 0
  {
  }

  // ---------------------------------------------------------------------------------------
  // applyAdvancedSearch
  // ---------------------------------------------------------------------------------------

  /** A blank search (spaces, "" or "0" once trimmed) narrows nothing. */
  lemma BlankSearchIgnored(user: User, filters: Filters, e: Employee, search: string)
    requires IsEmpty(Trim(search))
    ensures ListingAdmits(user, filters.(search := Some(search)), e) == ListingAdmits(user, filters.(search := None), e)
  {
  }

  /** An employee whose name contains the whole trimmed term matches the search. */
  lemma NameContainingTermMatches(search: string, e: Employee)
    requires Contains(e.name, Trim(search))
    ensures SearchAdmits(search, e)
  {
  }

  /** An employee whose name contains one of the kept words of the term matches the search. */
  lemma NameContainingWordMatches(search: string, e: Employee, j: int)
    requires 0 <= j < |SearchWords(Trim(search))|
    requires Contains(e.name, Trim(SearchWords(Trim(search))[j]))
    ensures SearchAdmits(search, e)
  {
  }

  /** For a numeric term, a plantilla id containing the term matches whatever the name. */
  lemma NumericPlantillaMatches(search: string, e: Employee)
    requires IsNumeric(Trim(search))
    requires Contains(e.plantillaId, Trim(search))
    ensures SearchAdmits(search, e)
  {
  }

  /** The `"%1" + term + "%"` clause never admits a row the `"%" + term + "%"` clause does not. */
  lemma PrefixedClauseSubsumed(e: Employee, term: string)
    requires Contains(e.plantillaId, "1" + term)
    ensures Contains(e.plantillaId, term)
  {
    ContainsDropPrefix(e.plantillaId, "1", term);
  }

  /** The precedence quirk: for a non-numeric term of one kept word, the plantilla clause is
      ANDed with the all-words clause, so a plantilla match alone does not admit the row. */
  lemma NonNumericPlantillaAloneRejected()
    ensures Contains("ab", Trim("ab"))
    ensures !SearchAdmits("ab", Employee(0, "ab", "", 0, 0, 0, 1, 1, 1))
  {
    var term: string := "ab";
    assert |term| == 2 && !IsTrimmed(term[0]) && !IsTrimmed(term[1]);
    assert TrimLeft(term) == term;
    assert TrimRight(term) == term;
    ExplodeWithoutSpace(term);
    assert KeepsWord(term);
    assert SearchWords(term) == [term];
    assert !IsNumeric(term);
    assert !Contains("", term);
  }

  // ---------------------------------------------------------------------------------------
  // getEmployee and updateEmployee
  // ---------------------------------------------------------------------------------------

  /** A record the lookup returns is one the user's own list (getEmployeesOfUser) holds, and
      one the unfiltered listing selects. */
  lemma LookupWithinOwnList(user: User, employeeNumber: string, table: seq<Employee>)
    requires GetEmployee(user, employeeNumber, table).Success?
    ensures GetEmployee(user, employeeNumber, table).value in Filter(table, e => ValidateUser(user, e))
    ensures GetEmployee(user, employeeNumber, table).value in ListingRows(user, NoFilters, table)
  {
    var e := GetEmployee(user, employeeNumber, table).value;
    ListingShowsEveryVisible(user, e);
  }

  /** The first record with the key is returned exactly when validateUser grants it. */
  lemma LookupGrantedIffVisible(user: User, employeeNumber: string, table: seq<Employee>)
    requires FindByPlantilla(table, PlantillaKey(employeeNumber)).Some?
    ensures var i := FindByPlantilla(table, PlantillaKey(employeeNumber)).value;
            GetEmployee(user, employeeNumber, table) ==
              if ValidateUser(user, table[i]) then Success(table[i]) else Failure(Unauthorized)
  {
    var i := FindByPlantilla(table, PlantillaKey(employeeNumber)).value;
    if user.level <= 1 {
      if user.level < 1 {
        ValidateUserIsConjunction(user, table[i]);
      }
    }
  }

  /** An administrator is never refused a record that exists. */
  lemma AdminNeverUnauthorized(user: User, employeeNumber: string, table: seq<Employee>)
    requires user.level == 1
    ensures GetEmployee(user, employeeNumber, table) != Failure(Unauthorized)
  {
  }

  /** Sending the same update twice stores the same record as sending it once. */
  lemma UpdateIdempotent(employee: Employee, data: UpdateRequest)
    ensures ApplyUpdate(ApplyUpdate(employee, data), data) == ApplyUpdate(employee, data)
  {
  }

  /** The update keeps the record's identity, so the same number finds the updated record
      at the same place afterwards. */
  lemma UpdateKeepsLookup(employeeNumber: string, data: UpdateRequest, table: seq<Employee>)
    requires FindByPlantilla(table, PlantillaKey(employeeNumber)).Some?
    ensures var i := FindByPlantilla(table, PlantillaKey(employeeNumber)).value;
            var updated := table[i := ApplyUpdate(table[i], data)];
            && ApplyUpdate(table[i], data).employeeNumber == table[i].employeeNumber
            && FindByPlantilla(updated, PlantillaKey(employeeNumber)) == Some(i)
  {
    var key := PlantillaKey(employeeNumber);
    var i := FindByPlantilla(table, key).value;
    var updated := table[i := ApplyUpdate(table[i], data)];
    var found := FindByPlantilla(updated, key);
    assert updated[i].plantillaId == key;
    assert updated[i] in updated;
  }
}
