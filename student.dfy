/**
 * `student.py`: enrolment, prerequisites, completion with grades, the
 * credit-weighted GPA and the academic status it determines.
 */
module Students {
  import opened Wrappers
  import opened Lists
  import opened People
  import opened Courses
  import Statistics

  datatype AcademicStatus = DeansList | GoodStanding | Probation | Warning

  /** The `AcademicStatus` values, as `get_academic_status` returns them. */
  function StatusText(s: AcademicStatus): string {
    match s
    case DeansList => "Dean's List"
    case GoodStanding => "Good Standing"
    case Probation => "Academic Probation"
    case Warning => "Warning"
  }

  /** The order of the statuses, from probation up to the Dean's List. */
  function StatusRank(s: AcademicStatus): nat {
    match s
    case Probation => 0
    case Warning => 1
    case GoodStanding => 2
    case DeansList => 3
  }

  /** `_update_academic_status`: 3.5 and up, 2.0 and up, 1.0 and up, below. */
  function StatusOf(gpa: real): AcademicStatus {
    if gpa >= 3.5 then DeansList
    else if gpa >= 2.0 then GoodStanding
    else if gpa >= 1.0 then Warning
    else Probation
  }

  /** A higher GPA never gives a lower status. */
  lemma StatusMonotone(g1: real, g2: real)
    requires g1 <= g2
    ensures StatusRank(StatusOf(g1)) <= StatusRank(StatusOf(g2))
  {
  }

  /** One entry of `_completed_courses`. */
  datatype Completed = Completed(grade: real, credits: nat, course: Course)

  function PointsOf(c: Completed): real {
    c.grade * c.credits as real
  }

  function CreditsOf(c: Completed): real {
    c.credits as real
  }

  /** The sum of `f` over the completed courses, in any order. */
  ghost function Total(m: map<string, Completed>, f: Completed -> real): real
    decreases |m|
  {
    if m == map[] then 0.0
    else
      var k :| k in m;
      f(m[k]) + Total(m - {k}, f)
  }

  /** The sum does not depend on the order: any course can be taken out first. */
  lemma {:induction false} TotalRemove(m: map<string, Completed>, f: Completed -> real, k: string)
    requires k in m
    ensures Total(m, f) == f(m[k]) + Total(m - {k}, f)
    decreases |m|
  {
    var j :| j in m && Total(m, f) == f(m[j]) + Total(m - {j}, f);
    if j != k {
      TotalRemove(m - {j}, f, k);
      TotalRemove(m - {k}, f, j);
      assert m - {j} - {k} == m - {k} - {j};
    }
  }

  /** The GPA of the completed courses: total points over total credits, 0.0 without credits. */
  ghost function GpaOf(m: map<string, Completed>): real {
    var credits := Total(m, CreditsOf);
    if m == map[] || credits <= 0.0 then 0.0 else Total(m, PointsOf) / credits
  }

  predicate ValidGrades(m: map<string, Completed>) {
    forall k :: k in m ==> 0.0 <= m[k].grade <= 4.0
  }

  function FourCredits(c: Completed): real {
    4.0 * c.credits as real
  }

  /** A sum of terms each bounded by the matching term of another is bounded by that sum. */
  lemma {:induction false} TotalMonotone(m: map<string, Completed>, f: Completed -> real, g: Completed -> real)
    requires forall k :: k in m ==> f(m[k]) <= g(m[k])
    ensures Total(m, f) <= Total(m, g)
    decreases |m|
  {
    if m != map[] {
      var k :| k in m;
      TotalRemove(m, f, k);
      TotalRemove(m, g, k);
      TotalMonotone(m - {k}, f, g);
    }
  }

  /** A sum of non-negative terms is non-negative. */
  lemma {:induction false} TotalNonNegative(m: map<string, Completed>, f: Completed -> real)
    requires forall k :: k in m ==> 0.0 <= f(m[k])
    ensures 0.0 <= Total(m, f)
    decreases |m|
  {
    if m != map[] {
      var k :| k in m;
      TotalRemove(m, f, k);
      TotalNonNegative(m - {k}, f);
    }
  }

  /** Four times every credit count sums to four times the credits. */
  lemma {:induction false} TotalFourCredits(m: map<string, Completed>)
    ensures Total(m, FourCredits) == 4.0 * Total(m, CreditsOf)
    decreases |m|
  {
    if m != map[] {
      var k :| k in m;
      TotalRemove(m, FourCredits, k);
      TotalRemove(m, CreditsOf, k);
      TotalFourCredits(m - {k});
    }
  }

  lemma ScaledGrade(c: Completed)
    requires 0.0 <= c.grade <= 4.0
    ensures 0.0 <= PointsOf(c) <= FourCredits(c)
  {
    var credits := c.credits as real;
    assert c.grade * credits <= 4.0 * credits;
  }

  /** With grades on the 0.0 to 4.0 scale, the points lie between 0 and four times the credits. */
  lemma PointsBounds(m: map<string, Completed>)
    requires ValidGrades(m)
    ensures 0.0 <= Total(m, CreditsOf)
    ensures 0.0 <= Total(m, PointsOf) <= 4.0 * Total(m, CreditsOf)
  {
    forall k | k in m ensures 0.0 <= PointsOf(m[k]) <= FourCredits(m[k]) && 0.0 <= CreditsOf(m[k]) {
      ScaledGrade(m[k]);
    }
    TotalNonNegative(m, CreditsOf);
    TotalNonNegative(m, PointsOf);
    TotalMonotone(m, PointsOf, FourCredits);
    TotalFourCredits(m);
  }

  /** With grades on the 0.0 to 4.0 scale, so is the GPA. */
  lemma GpaBounds(m: map<string, Completed>)
    requires ValidGrades(m)
    ensures 0.0 <= GpaOf(m) <= 4.0
  {
    PointsBounds(m);
    var credits := Total(m, CreditsOf);
    if m != map[] && credits > 0.0 {
      Statistics.DivideBounds(Total(m, PointsOf), credits, 0.0, 4.0);
    }
  }

  /** The loop of `calculate_gpa` over the completed courses: total points and total credits. */
  method SumCompleted(m: map<string, Completed>) returns (totalPoints: real, totalCredits: real)
    ensures totalPoints == Total(m, PointsOf) && totalCredits == Total(m, CreditsOf)
  {
    totalPoints, totalCredits := 0.0, 0.0;
    var rest := m;
    while rest != map[]
      invariant totalPoints + Total(rest, PointsOf) == Total(m, PointsOf)
      invariant totalCredits + Total(rest, CreditsOf) == Total(m, CreditsOf)
      decreases |rest|
    {
      var k :| k in rest;
      TotalRemove(rest, PointsOf, k);
      TotalRemove(rest, CreditsOf, k);
      totalPoints := totalPoints + rest[k].grade * rest[k].credits as real;
      totalCredits := totalCredits + rest[k].credits as real;
      rest := rest - {k};
    }
  }

  /** Degree-specific data: none for a plain student, the year or the research degree. */
  datatype Level =
    | NoLevel
    | Undergrad(year: int)
    | Grad(degreeType: string, researchTopic: Option<string>)

  class Student {
    const person: Person
    var major: string
    var level: Level
    var advisor: Option<string>
    /** `_enrolled_courses`: course code to course. */
    var enrolled: map<string, Course>
    /** `_completed_courses`: course code to grade, credits and course. */
    var completed: map<string, Completed>
    var gpa: real
    var status: AcademicStatus

    /** `Student(...)`: nothing enrolled or completed, GPA 0.0, good standing. */
    constructor(name: string, studentId: string, email: string, major: string, department: Option<string>)
      ensures fresh(person) && person.name == name && person.personId == studentId
      ensures person.email == email && person.department == department
      ensures this.major == major && level == NoLevel && advisor == None
      ensures enrolled == map[] && completed == map[] && gpa == 0.0 && status == GoodStanding
    {
      person := new Person(name, studentId, email, department);
      this.major := major;
      level := NoLevel;
      advisor := None;
      enrolled := map[];
      completed := map[];
      gpa := 0.0;
      status := GoodStanding;
    }

    /** `UndergraduateStudent(...)`: the year is stored unchecked. */
    constructor Undergraduate(name: string, studentId: string, email: string, major: string, year: int,
                              department: Option<string>)
      ensures fresh(person) && person.name == name && person.personId == studentId
      ensures person.email == email && person.department == department
      ensures this.major == major && level == Undergrad(year) && advisor == None
      ensures enrolled == map[] && completed == map[] && gpa == 0.0 && status == GoodStanding
    {
      person := new Person(name, studentId, email, department);
      this.major := major;
      level := Undergrad(year);
      advisor := None;
      enrolled := map[];
      completed := map[];
      gpa := 0.0;
      status := GoodStanding;
    }

    /** `GraduateStudent(...)`: no research topic yet. */
    constructor Graduate(name: string, studentId: string, email: string, major: string, degreeType: string,
                         advisor: Option<string>, department: Option<string>)
      ensures fresh(person) && person.name == name && person.personId == studentId
      ensures person.email == email && person.department == department
      ensures this.major == major && level == Grad(degreeType, None) && this.advisor == advisor
      ensures enrolled == map[] && completed == map[] && gpa == 0.0 && status == GoodStanding
    {
      person := new Person(name, studentId, email, department);
      this.major := major;
      level := Grad(degreeType, None);
      this.advisor := advisor;
      enrolled := map[];
      completed := map[];
      gpa := 0.0;
      status := GoodStanding;
    }

    /** `_check_prerequisites`: every prerequisite code has been completed (none needed: true). */
    predicate PrerequisitesMet(course: Course)
      reads this
    {
      forall p :: p in course.prerequisites ==> p in completed
    }

    /**
     * `enroll_course`: refused when already enrolled, when a prerequisite is
     * missing, when no seat is free, or when the course refuses; otherwise the
     * code maps to the course. A refusal changes nothing.
     */
    method EnrollCourse(course: Course) returns (ok: bool)
      modifies this, course
      ensures ok <==> course.courseCode !in old(enrolled) && old(PrerequisitesMet(course)) &&
                      old(course.HasAvailableSeats()) && person.personId !in old(course.enrolledIds)
      ensures enrolled == if ok then old(enrolled)[course.courseCode := course] else old(enrolled)
      ensures course.enrolledIds == if ok then old(course.enrolledIds) + [person.personId] else old(course.enrolledIds)
      ensures course.facultyId == old(course.facultyId)
      ensures completed == old(completed) && gpa == old(gpa) && status == old(status)
      ensures major == old(major) && level == old(level) && advisor == old(advisor)
    {
      if course.courseCode in enrolled {
        return false;
      }
      if !PrerequisitesMet(course) {
        return false;
      }
      if !course.HasAvailableSeats() {
        return false;
      }
      ok := course.EnrollStudent(person.personId);
      if ok {
        enrolled := enrolled[course.courseCode := course];
      }
    }

    /**
     * `drop_course`: an enrolled course whose `drop_student` succeeds is removed; otherwise
     * nothing changes. Only the dropped course object may change: every other course keeps
     * its roster and its instructor.
     */
    method DropCourse(code: string) returns (ok: bool)
      modifies this, if code in enrolled then {enrolled[code]} else {}
      ensures ok <==> code in old(enrolled) && person.personId in old(enrolled[code].enrolledIds)
      ensures enrolled == if ok then old(enrolled) - {code} else old(enrolled)
      ensures code in old(enrolled) ==>
        old(enrolled[code]).enrolledIds == RemoveFirst(old(enrolled[code].enrolledIds), person.personId)
      ensures code in old(enrolled) ==> old(enrolled[code]).facultyId == old(enrolled[code].facultyId)
      ensures completed == old(completed) && gpa == old(gpa) && status == old(status)
      ensures major == old(major) && level == old(level) && advisor == old(advisor)
    {
      ok := false;
      if code in enrolled {
        var course := enrolled[code];
        ok := course.DropStudent(person.personId);
        if ok {
          enrolled := enrolled - {code};
        }
      }
    }

    /**
     * `complete_course`: a course not enrolled gives false and changes nothing; a
     * grade outside 0.0 to 4.0 raises `ValueError` and changes nothing; otherwise
     * the course moves from enrolled to completed with its grade and credits, and
     * the GPA and the status are recomputed.
     */
    method CompleteCourse(code: string, grade: real) returns (r: Result<bool>)
      modifies this
      ensures code !in old(enrolled) ==> r == Ok(false)
      ensures code in old(enrolled) && !(0.0 <= grade <= 4.0) ==> r.Err? && r.error.ValueError?
      ensures r != Ok(true) ==>
        enrolled == old(enrolled) && completed == old(completed) && gpa == old(gpa) && status == old(status)
      ensures code in old(enrolled) && 0.0 <= grade <= 4.0 ==>
        && r == Ok(true)
        && enrolled == old(enrolled) - {code}
        && completed == old(completed)[code := Completed(grade, old(enrolled[code]).credits, old(enrolled[code]))]
        && gpa == GpaOf(completed) && status == StatusOf(gpa)
      ensures major == old(major) && level == old(level) && advisor == old(advisor)
    {
      if code !in enrolled {
        return Ok(false);
      }
      if !(0.0 <= grade <= 4.0) {
        return Err(ValueError("Grade must be between 0.0 and 4.0"));
      }
      var course := enrolled[code];
      completed := completed[code := Completed(grade, course.credits, course)];
      enrolled := enrolled - {code};
      assert code in completed;
      var _ := CalculateGpa();
      r := Ok(true);
    }

    /**
     * `calculate_gpa`: total points over total credits across the completed
     * courses. With nothing completed the GPA is 0.0 and the status is left as it
     * was; otherwise the status is recomputed from the new GPA.
     */
    method CalculateGpa() returns (g: real)
      modifies this
      ensures g == gpa == GpaOf(completed)
      ensures status == if completed == map[] then old(status) else StatusOf(gpa)
      ensures enrolled == old(enrolled) && completed == old(completed)
      ensures major == old(major) && level == old(level) && advisor == old(advisor)
    {
      if completed == map[] {
        gpa := 0.0;
        return gpa;
      }
      var totalPoints, totalCredits := SumCompleted(completed);
      gpa := if totalCredits > 0.0 then totalPoints / totalCredits else 0.0;
      UpdateAcademicStatus();
      g := gpa;
    }

    /** `_update_academic_status`. */
    method UpdateAcademicStatus()
      modifies this
      ensures status == StatusOf(gpa) && gpa == old(gpa)
      ensures enrolled == old(enrolled) && completed == old(completed)
      ensures major == old(major) && level == old(level) && advisor == old(advisor)
    {
      status := StatusOf(gpa);
    }

    /** `get_academic_status`. */
    function AcademicStatusText(): string
      reads this
    {
      StatusText(status)
    }

    /** The `major` setter: an empty major raises `ValueError` and is not stored. */
    method SetMajor(value: string) returns (err: Option<Error>)
      modifies this
      ensures err.Some? <==> value == []
      ensures err.Some? ==> err.value.ValueError?
      ensures major == if value == [] then old(major) else value
      ensures level == old(level) && advisor == old(advisor)
      ensures enrolled == old(enrolled) && completed == old(completed) && gpa == old(gpa) && status == old(status)
    {
      if value == [] {
        return Some(ValueError("Major cannot be empty"));
      }
      major := value;
      err := None;
    }

    /** The `UndergraduateStudent.year` setter: only 1 to 4 is stored; anything else raises `ValueError`. */
    method SetYear(value: int) returns (err: Option<Error>)
      requires level.Undergrad?
      modifies this
      ensures err.Some? <==> !(1 <= value <= 4)
      ensures err.Some? ==> err.value.ValueError?
      ensures level == if 1 <= value <= 4 then Undergrad(value) else old(level)
      ensures major == old(major) && advisor == old(advisor)
      ensures enrolled == old(enrolled) && completed == old(completed) && gpa == old(gpa) && status == old(status)
    {
      if !(1 <= value <= 4) {
        return Some(ValueError("Undergraduate year must be between 1 and 4"));
      }
      level := Undergrad(value);
      err := None;
    }

    /** `GraduateStudent.set_research_topic`. */
    method SetResearchTopic(topic: string)
      requires level.Grad?
      modifies this
      ensures level == old(level).(researchTopic := Some(topic))
      ensures major == old(major) && advisor == old(advisor)
      ensures enrolled == old(enrolled) && completed == old(completed) && gpa == old(gpa) && status == old(status)
    {
      level := level.(researchTopic := Some(topic));
    }

    /** The `advisor` setter, unchecked. */
    method SetAdvisor(value: Option<string>)
      modifies this
      ensures advisor == value
      ensures major == old(major) && level == old(level)
      ensures enrolled == old(enrolled) && completed == old(completed) && gpa == old(gpa) && status == old(status)
    {
      advisor := value;
    }
  }

  /** Completing an enrolled course: it is completed and no longer enrolled, with the grade recorded. */
  lemma CompletionMoves(enrolled: map<string, Course>, completed: map<string, Completed>, code: string, grade: real)
    requires code in enrolled
    ensures var c := completed[code := Completed(grade, enrolled[code].credits, enrolled[code])];
      && code !in enrolled - {code} && code in c && c[code].grade == grade
      && (enrolled - {code}).Keys + {code} == enrolled.Keys
      && c.Keys == completed.Keys + {code}
  {
  }

  /** The GPA after completing a course stays on the 0.0 to 4.0 scale, given valid earlier grades. */
  lemma CompletionGpaBounds(completed: map<string, Completed>, code: string, grade: real, course: Course)
    requires ValidGrades(completed) && 0.0 <= grade <= 4.0
    ensures 0.0 <= GpaOf(completed[code := Completed(grade, course.credits, course)]) <= 4.0
  {
    GpaBounds(completed[code := Completed(grade, course.credits, course)]);
  }
}
