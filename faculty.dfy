/**
 * `faculty.py`: course assignment and the workload of each kind of faculty
 * member. The `Professor`, `Lecturer` and `TA` subclasses become the `Role` of a
 * single `Faculty` class, and `calculate_workload` dispatches on it.
 */
module Faculties {
  import opened Wrappers
  import opened People
  import opened Courses
  import opened Students

  /** What a kind of faculty member adds to the base class. */
  datatype Role =
    | Plain
    | ProfessorRole(rank: string, grants: seq<string>, advisees: seq<Student>)
    | LecturerRole(contractType: string, maxCourses: nat)
    | TaRole(supervisor: string, labSections: seq<string>, gradingAssignments: seq<string>)

  /** `sum(course.credits for course in courses)`. */
  function SumCredits(courses: seq<Course>): nat {
    if courses == [] then 0 else SumCredits(courses[..|courses| - 1]) + courses[|courses| - 1].credits
  }

  /** A course added at the end adds its credits. */
  lemma {:induction false} SumCreditsAppend(courses: seq<Course>, c: Course)
    ensures SumCredits(courses + [c]) == SumCredits(courses) + c.credits
  {
    assert (courses + [c])[..|courses|] == courses;
  }

  /** The credits of a list are at least those of any course in it. */
  lemma {:induction false} SumCreditsMember(courses: seq<Course>, i: nat)
    requires i < |courses|
    ensures SumCredits(courses) >= courses[i].credits
  {
    if i < |courses| - 1 {
      SumCreditsMember(courses[..|courses| - 1], i);
    }
  }

  /** `4 if contract_type == "Full-time" else 2`. */
  function MaxCourses(contractType: string): nat {
    if contractType == "Full-time" then 4 else 2
  }

  /**
   * `calculate_workload` for each kind: the credits taught, plus 3 per grant and
   * 1 per advisee for a professor, or 2 per lab section and 1 per grading
   * assignment for a teaching assistant.
   */
  function WorkloadOf(role: Role, courses: seq<Course>): nat {
    var teaching := SumCredits(courses);
    match role
    case ProfessorRole(_, grants, advisees) => teaching + |grants| * 3 + |advisees| * 1
    case TaRole(_, labs, grading) => teaching + |labs| * 2 + |grading|
    case _ => teaching
  }

  /** Assigning a course raises the workload of every kind of faculty member by its credits. */
  lemma AssignRaisesWorkload(role: Role, courses: seq<Course>, c: Course)
    ensures WorkloadOf(role, courses + [c]) == WorkloadOf(role, courses) + c.credits
  {
    SumCreditsAppend(courses, c);
  }

  /** A grant adds 3, an advisee 1, a lab section 2 and a grading assignment 1. */
  lemma DutyWeights(role: Role, courses: seq<Course>, grant: string, s: Student, lab: string, task: string)
    ensures role.ProfessorRole? ==>
      WorkloadOf(role.(grants := role.grants + [grant]), courses) == WorkloadOf(role, courses) + 3 &&
      WorkloadOf(role.(advisees := role.advisees + [s]), courses) == WorkloadOf(role, courses) + 1
    ensures role.TaRole? ==>
      WorkloadOf(role.(labSections := role.labSections + [lab]), courses) == WorkloadOf(role, courses) + 2 &&
      WorkloadOf(role.(gradingAssignments := role.gradingAssignments + [task]), courses) == WorkloadOf(role, courses) + 1
    ensures WorkloadOf(role, courses) >= SumCredits(courses)
  {
  }

  class Faculty {
    const person: Person
    const office: Option<string>
    var assignedCourses: seq<Course>
    var officeHours: seq<string>
    var role: Role

    /** `Faculty(...)`: no courses and no office hours. */
    constructor(name: string, facultyId: string, email: string, department: string, office: Option<string>)
      ensures fresh(person) && person.name == name && person.personId == facultyId
      ensures person.email == email && person.department == Some(department)
      ensures this.office == office && assignedCourses == [] && officeHours == [] && role == Plain
    {
      person := new Person(name, facultyId, email, Some(department));
      this.office := office;
      assignedCourses := [];
      officeHours := [];
      role := Plain;
    }

    /** `Professor(...)`: no grants and no advisees. */
    constructor Professor(name: string, facultyId: string, email: string, department: string, rank: string,
                          office: Option<string>)
      ensures fresh(person) && person.name == name && person.personId == facultyId
      ensures person.email == email && person.department == Some(department)
      ensures this.office == office && assignedCourses == [] && officeHours == []
      ensures role == ProfessorRole(rank, [], [])
    {
      person := new Person(name, facultyId, email, Some(department));
      this.office := office;
      assignedCourses := [];
      officeHours := [];
      role := ProfessorRole(rank, [], []);
    }

    /** `Lecturer(...)`: four courses at most on a "Full-time" contract, two otherwise. */
    constructor Lecturer(name: string, facultyId: string, email: string, department: string, contractType: string,
                         office: Option<string>)
      ensures fresh(person) && person.name == name && person.personId == facultyId
      ensures person.email == email && person.department == Some(department)
      ensures this.office == office && assignedCourses == [] && officeHours == []
      ensures role == LecturerRole(contractType, if contractType == "Full-time" then 4 else 2)
    {
      person := new Person(name, facultyId, email, Some(department));
      this.office := office;
      assignedCourses := [];
      officeHours := [];
      role := LecturerRole(contractType, MaxCourses(contractType));
    }

    /** `TA(...)`: no lab sections and no grading. */
    constructor TA(name: string, facultyId: string, email: string, department: string, supervisor: string,
                   office: Option<string>)
      ensures fresh(person) && person.name == name && person.personId == facultyId
      ensures person.email == email && person.department == Some(department)
      ensures this.office == office && assignedCourses == [] && officeHours == []
      ensures role == TaRole(supervisor, [], [])
    {
      person := new Person(name, facultyId, email, Some(department));
      this.office := office;
      assignedCourses := [];
      officeHours := [];
      role := TaRole(supervisor, [], []);
    }

    /** `calculate_workload`, dispatched on the kind of faculty member. */
    function Workload(): nat
      reads this
    {
      WorkloadOf(role, assignedCourses)
    }

    /**
     * `assign_course`: a course not yet assigned is appended and told who teaches
     * it; an assigned one is refused with no change. No limit is consulted, so a
     * lecturer can go past the maximum.
     */
    method AssignCourse(course: Course) returns (ok: bool)
      modifies this, course
      ensures ok <==> course !in old(assignedCourses)
      ensures assignedCourses == if ok then old(assignedCourses) + [course] else old(assignedCourses)
      ensures course.facultyId == if ok then Some(person.personId) else old(course.facultyId)
      ensures course.enrolledIds == old(course.enrolledIds)
      ensures Workload() == if ok then old(Workload()) + course.credits else old(Workload())
      ensures role == old(role) && officeHours == old(officeHours)
    {
      if course !in assignedCourses {
        AssignRaisesWorkload(role, assignedCourses, course);
        assignedCourses := assignedCourses + [course];
        course.AssignFaculty(person.personId);
        return true;
      }
      return false;
    }

    /** `add_office_hours`: the entry `"<day>: <time>"` goes at the end. */
    method AddOfficeHours(day: string, time: string)
      modifies this
      ensures officeHours == old(officeHours) + [day + ": " + time]
      ensures assignedCourses == old(assignedCourses) && role == old(role)
    {
      officeHours := officeHours + [day + ": " + time];
    }

    /** `Professor.add_research_grant`. */
    method AddResearchGrant(grant: string)
      requires role.ProfessorRole?
      modifies this
      ensures role == old(role).(grants := old(role.grants) + [grant])
      ensures Workload() == old(Workload()) + 3
      ensures assignedCourses == old(assignedCourses) && officeHours == old(officeHours)
    {
      role := role.(grants := role.grants + [grant]);
    }

    /**
     * `Professor.add_advisee`: a student not yet advised is appended and gets this
     * professor's name as advisor; a student already advised changes nothing.
     */
    method AddAdvisee(student: Student)
      requires role.ProfessorRole?
      modifies this, student
      ensures student !in old(role.advisees) ==>
        role == old(role).(advisees := old(role.advisees) + [student]) &&
        student.advisor == Some(person.name) && Workload() == old(Workload()) + 1
      ensures student in old(role.advisees) ==> role == old(role) && student.advisor == old(student.advisor)
      ensures student.major == old(student.major) && student.level == old(student.level)
      ensures student.enrolled == old(student.enrolled) && student.completed == old(student.completed)
      ensures student.gpa == old(student.gpa) && student.status == old(student.status)
      ensures assignedCourses == old(assignedCourses) && officeHours == old(officeHours)
    {
      if student !in role.advisees {
        role := role.(advisees := role.advisees + [student]);
        student.SetAdvisor(Some(person.name));
      }
    }

    /** `Lecturer.can_teach_more`: fewer courses than the contract's maximum. */
    predicate CanTeachMore()
      requires role.LecturerRole?
      reads this
    {
      |assignedCourses| < role.maxCourses
    }

    /** `TA.assign_lab_section`. */
    method AssignLabSection(labSection: string)
      requires role.TaRole?
      modifies this
      ensures role == old(role).(labSections := old(role.labSections) + [labSection])
      ensures Workload() == old(Workload()) + 2
      ensures assignedCourses == old(assignedCourses) && officeHours == old(officeHours)
    {
      role := role.(labSections := role.labSections + [labSection]);
    }

    /** `TA.assign_grading`. */
    method AssignGrading(assignment: string)
      requires role.TaRole?
      modifies this
      ensures role == old(role).(gradingAssignments := old(role.gradingAssignments) + [assignment])
      ensures Workload() == old(Workload()) + 1
      ensures assignedCourses == old(assignedCourses) && officeHours == old(officeHours)
    {
      role := role.(gradingAssignments := role.gradingAssignments + [assignment]);
    }
  }
}
