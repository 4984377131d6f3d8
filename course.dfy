/**
 * A minimal course, as the student, faculty and department classes use it: a
 * code, a number of credits, prerequisite codes and a capacity. `course.py` is
 * not part of this model; the behaviour below is the least the callers rely on.
 */
module Courses {
  import opened Wrappers
  import opened Lists

  class Course {
    const courseCode: string
    const name: string
    const credits: nat
    const maxEnrollment: nat
    const prerequisites: seq<string>
    /** The identifiers of the enrolled students, in enrolment order. */
    var enrolledIds: seq<string>
    /** The identifier of the assigned faculty member, if any. */
    var facultyId: Option<string>

    constructor(courseCode: string, name: string, credits: nat, maxEnrollment: nat, prerequisites: seq<string>)
      ensures this.courseCode == courseCode && this.name == name && this.credits == credits
      ensures this.maxEnrollment == maxEnrollment && this.prerequisites == prerequisites
      ensures enrolledIds == [] && facultyId == None
    {
      this.courseCode := courseCode;
      this.name := name;
      this.credits := credits;
      this.maxEnrollment := maxEnrollment;
      this.prerequisites := prerequisites;
      enrolledIds := [];
      facultyId := None;
    }

    /** `has_available_seats`. */
    predicate HasAvailableSeats()
      reads this
    {
      |enrolledIds| < maxEnrollment
    }

    /** `enroll_student`: succeeds for a student not yet enrolled while a seat is free. */
    method EnrollStudent(studentId: string) returns (ok: bool)
      modifies this
      ensures ok <==> old(HasAvailableSeats()) && studentId !in old(enrolledIds)
      ensures enrolledIds == if ok then old(enrolledIds) + [studentId] else old(enrolledIds)
      ensures facultyId == old(facultyId)
    {
      ok := HasAvailableSeats() && studentId !in enrolledIds;
      if ok {
        enrolledIds := enrolledIds + [studentId];
      }
    }

    /** `drop_student`: succeeds for an enrolled student, who then leaves the course. */
    method DropStudent(studentId: string) returns (ok: bool)
      modifies this
      ensures ok <==> studentId in old(enrolledIds)
      ensures enrolledIds == RemoveFirst(old(enrolledIds), studentId)
      ensures facultyId == old(facultyId)
    {
      ok := studentId in enrolledIds;
      if ok {
        enrolledIds := RemoveFirst(enrolledIds, studentId);
      } else {
        RemoveFirstAbsent(enrolledIds, studentId);
      }
    }

    /** `assign_faculty`. */
    method AssignFaculty(id: string)
      modifies this
      ensures facultyId == Some(id) && enrolledIds == old(enrolledIds)
    {
      facultyId := Some(id);
    }
  }
}
