/**
 * The records the visibility rule reads: the requesting user and an employee.
 * Ids are plain integers (the source compares them after `(int)` casts or loosely).
 */
module Organization {

  /** The authenticated user. `level` is `level_id`: 1 is the administrator, larger is narrower.
      `subdirectorateId` stands for both `subdirectorate_id` (read by the access helper) and
      `subdirectorates_id` (read by the service); the model assumes they hold the same value. */
  datatype User = User(
    level: int,
    generalDirectionId: int,
    directionId: int,
    subdirectorateId: int)

  /** An employee row. `plantillaId` is the lookup key, which the service builds as "1" + number. */
  datatype Employee = Employee(
    employeeNumber: int,
    plantillaId: string,
    name: string,
    generalDirectionId: int,
    directionId: int,
    subdirectorateId: int,
    departmentId: int,
    statusId: int,
    active: int)

  /** The employee numbers that belong logically to general direction 28 even when their
      record says 18. The source holds two identical copies of this list. */
  const SpecialEmployeeNumbers: seq<int> :=
    [20902, 10829, 48461, 7057, 20882, 24493, 28875, 22515, 30874, 15492, 26934, 35561]

  /** `in_array($number, $specialEmployeeNumbers)`. */
  predicate IsSpecial(employeeNumber: int) {
    employeeNumber in SpecialEmployeeNumbers
  }

  lemma SpecialListShape()
    ensures |SpecialEmployeeNumbers| == 12
    ensures forall i, j :: 0 <= i < j < |SpecialEmployeeNumbers| ==>
              SpecialEmployeeNumbers[i] != SpecialEmployeeNumbers[j]
  {
  }
}
