/**
 * The per-record visibility predicate: may this user see this employee?
 * Level 1 sees everyone; from level 2 on the checks accumulate: general direction
 * (with the 18/28 rule), then direction from level 3, then subdirectorate from level 4.
 */
module ValidateAccessEmployee {
  import opened Organization

  /** The general-direction check for a user whose (int-cast) general direction is `userGd`.
      GD 18 never sees the special numbers; GD 28 also sees them wherever they sit. */
  predicate ValidateGeneralDirection(userGd: int, employee: Employee) {
    if userGd == 18 then
      if IsSpecial(employee.employeeNumber) then false
      else employee.generalDirectionId == 18
    else if userGd == 28 then
      employee.generalDirectionId == 28 || IsSpecial(employee.employeeNumber)
    else
      userGd == employee.generalDirectionId
  }

  /** `ValidateAccessEmployee::validateUser`. */
  predicate ValidateUser(user: User, employee: Employee) {
    if user.level == 1 then true
    else if user.level >= 2 && !ValidateGeneralDirection(user.generalDirectionId, employee) then false
    else if user.level >= 3 && user.directionId != employee.directionId then false
    else if user.level >= 4 && user.subdirectorateId != employee.subdirectorateId then false
    else true
  }

  /** The administrator sees every employee. */
  lemma AdminSeesEveryone(user: User, employee: Employee)
    requires user.level == 1
    ensures ValidateUser(user, employee)
  {
  }

  /** Outside the administrator, access is the conjunction of the checks the level switches on. */
  lemma ValidateUserIsConjunction(user: User, employee: Employee)
    requires user.level != 1
    ensures ValidateUser(user, employee) <==>
      && (user.level >= 2 ==> ValidateGeneralDirection(user.generalDirectionId, employee))
      && (user.level >= 3 ==> user.directionId == employee.directionId)
      && (user.level >= 4 ==> user.subdirectorateId == employee.subdirectorateId)
  {
  }

  /** Raising a user's level, all else equal, can only take access away. */
  lemma {:induction false} NarrowingIsMonotonic(user: User, employee: Employee, higher: int)
    requires user.level <= higher
    ensures ValidateUser(user.(level := higher), employee) ==> ValidateUser(user, employee)
    decreases higher - user.level
  {
    if user.level < higher {
      var next := user.(level := user.level + 1);
      NarrowingIsMonotonic(next, employee, higher);
      assert next.(level := higher) == user.(level := higher);
    }
  }

  /** A GD-18 user never sees a special number, and otherwise sees exactly GD 18. */
  lemma Gd18Rule(employee: Employee)
    ensures IsSpecial(employee.employeeNumber) ==> !ValidateGeneralDirection(18, employee)
    ensures !IsSpecial(employee.employeeNumber) ==>
              (ValidateGeneralDirection(18, employee) <==> employee.generalDirectionId == 18)
  {
  }

  /** A GD-28 user sees GD 28 and every special number, whatever its recorded direction. */
  lemma Gd28Rule(employee: Employee)
    ensures ValidateGeneralDirection(28, employee) <==>
              employee.generalDirectionId == 28 || IsSpecial(employee.employeeNumber)
  {
  }

  /** Any other general direction is plain equality of the ids. */
  lemma OtherGdRule(userGd: int, employee: Employee)
    requires userGd != 18 && userGd != 28
    ensures ValidateGeneralDirection(userGd, employee) <==> userGd == employee.generalDirectionId
  {
  }

  /** GD 18 and GD 28 never both see the same employee. */
  lemma Gd18And28Disjoint(employee: Employee)
    ensures !(ValidateGeneralDirection(18, employee) && ValidateGeneralDirection(28, employee))
  {
  }

  /** Employee 20902, recorded under GD 18, is hidden from a level-2 GD-18 user and shown to a level-2 GD-28 user. */
  lemma SpecialEmployeeScenario(employee: Employee)
    requires employee.employeeNumber == 20902 && employee.generalDirectionId == 18
    ensures !ValidateUser(User(2, 18, 0, 0), employee)
    ensures ValidateUser(User(2, 28, 0, 0), employee)
  {
    assert IsSpecial(20902);
  }

  /** A level-4 user matching on all three ids sees the employee; another subdirectorate does not. */
  lemma SubdirectorateScenario(employee: Employee)
    requires employee.employeeNumber == 12345
    requires employee.generalDirectionId == 5 && employee.directionId == 2 && employee.subdirectorateId == 9
    ensures ValidateUser(User(4, 5, 2, 9), employee)
    ensures !ValidateUser(User(4, 5, 2, 9), employee.(subdirectorateId := 10))
  {
  }
}
