/**
 * `department.py`: a department's faculty, courses and students, kept as
 * duplicate-free lists in insertion order, with linear-search lookups.
 */
module Departments {
  import opened Wrappers
  import opened Lists
  import opened People
  import opened Courses
  import opened Students
  import opened Faculties

  /** The course codes of a list of courses, in order. */
  function CourseCodes(cs: seq<Course>): (r: seq<string>)
    ensures |r| == |cs| && forall i :: 0 <= i < |cs| ==> r[i] == cs[i].courseCode
  {
    seq(|cs|, i requires 0 <= i < |cs| => cs[i].courseCode)
  }

  /** The identifiers of a list of faculty members, in order. */
  function FacultyIds(fs: seq<Faculty>): (r: seq<string>)
    ensures |r| == |fs| && forall i :: 0 <= i < |fs| ==> r[i] == fs[i].person.personId
  {
    seq(|fs|, i requires 0 <= i < |fs| => fs[i].person.personId)
  }

  /** The identifiers of a list of students, in order. */
  function StudentIds(ss: seq<Student>): (r: seq<string>)
    ensures |r| == |ss| && forall i :: 0 <= i < |ss| ==> r[i] == ss[i].person.personId
  {
    seq(|ss|, i requires 0 <= i < |ss| => ss[i].person.personId)
  }

  /** The `Person` parts of a list of faculty members. */
  function FacultyPeople(fs: seq<Faculty>): set<Person> {
    set i | 0 <= i < |fs| :: fs[i].person
  }

  /** The names of a list of faculty members, in order. */
  function FacultyNames(fs: seq<Faculty>): (r: seq<string>)
    reads FacultyPeople(fs)
    ensures |r| == |fs| && forall i :: 0 <= i < |fs| ==> r[i] == fs[i].person.name
  {
    seq(|fs|, i requires 0 <= i < |fs| reads FacultyPeople(fs) => fs[i].person.name)
  }

  /** The dictionary `get_department_stats` returns. */
  datatype DepartmentStats = DepartmentStats(
    name: string,
    code: string,
    facultyCount: nat,
    courseCount: nat,
    studentCount: nat,
    courses: seq<string>,
    faculty: seq<string>)

  class Department {
    const name: string
    const code: string
    var faculty: seq<Faculty>
    var courses: seq<Course>
    var students: seq<Student>

    /** The membership checks keep every list free of repeats. */
    predicate Valid()
      reads this
    {
      Distinct(faculty) && Distinct(courses) && Distinct(students)
    }

    constructor(name: string, code: string)
      ensures this.name == name && this.code == code
      ensures faculty == [] && courses == [] && students == []
      ensures Valid()
    {
      this.name := name;
      this.code := code;
      faculty := [];
      courses := [];
      students := [];
    }

    /**
     * `add_faculty`: a member not yet in the department is appended and takes its
     * name as department; one already there is refused with no change.
     */
    method AddFaculty(member: Faculty) returns (ok: bool)
      requires Valid()
      modifies this, member.person
      ensures Valid()
      ensures ok <==> member !in old(faculty)
      ensures faculty == if ok then old(faculty) + [member] else old(faculty)
      ensures member.person.department == if ok then Some(name) else old(member.person.department)
      ensures member.person.name == old(member.person.name) && member.person.email == old(member.person.email)
      ensures courses == old(courses) && students == old(students)
    {
      if member !in faculty {
        AppendAbsent(faculty, member);
        faculty := faculty + [member];
        member.person.SetDepartment(Some(name));
        return true;
      }
      return false;
    }

    /** `add_course`: a course not yet offered is appended; one already offered is refused. */
    method AddCourse(course: Course) returns (ok: bool)
      requires Valid()
      modifies this
      ensures Valid()
      ensures ok <==> course !in old(courses)
      ensures courses == if ok then old(courses) + [course] else old(courses)
      ensures faculty == old(faculty) && students == old(students)
    {
      if course !in courses {
        AppendAbsent(courses, course);
        courses := courses + [course];
        return true;
      }
      return false;
    }

    /**
     * `add_student`: a student not yet in the department is appended and takes its
     * name as department; one already there is refused with no change.
     */
    method AddStudent(student: Student) returns (ok: bool)
      requires Valid()
      modifies this, student.person
      ensures Valid()
      ensures ok <==> student !in old(students)
      ensures students == if ok then old(students) + [student] else old(students)
      ensures student.person.department == if ok then Some(name) else old(student.person.department)
      ensures student.person.name == old(student.person.name) && student.person.email == old(student.person.email)
      ensures faculty == old(faculty) && courses == old(courses)
    {
      if student !in students {
        AppendAbsent(students, student);
        students := students + [student];
        student.person.SetDepartment(Some(name));
        return true;
      }
      return false;
    }

    /** `get_course_by_code`: the first course with the code, or `ValueError` when none has it. */
    method GetCourseByCode(courseCode: string) returns (r: Result<Course>)
      ensures r.Ok? <==> courseCode in CourseCodes(courses)
      ensures r.Ok? ==> r.value == courses[IndexOf(CourseCodes(courses), courseCode)]
      ensures r.Err? ==> r.error.ValueError?
    {
      var i := 0;
      while i < |courses|
        invariant i <= |courses|
        invariant forall j :: 0 <= j < i ==> courses[j].courseCode != courseCode
      {
        if courses[i].courseCode == courseCode {
          return Ok(courses[i]);
        }
        i := i + 1;
      }
      assert courseCode !in CourseCodes(courses);
      return Err(ValueError("Course " + courseCode + " not found in department"));
    }

    /** `get_faculty_by_id`: the first member with the identifier, or `None`. */
    method GetFacultyById(facultyId: string) returns (r: Option<Faculty>)
      ensures r.Some? <==> facultyId in FacultyIds(faculty)
      ensures r.Some? ==> r.value == faculty[IndexOf(FacultyIds(faculty), facultyId)]
    {
      var i := 0;
      while i < |faculty|
        invariant i <= |faculty|
        invariant forall j :: 0 <= j < i ==> faculty[j].person.personId != facultyId
      {
        if faculty[i].person.personId == facultyId {
          return Some(faculty[i]);
        }
        i := i + 1;
      }
      assert facultyId !in FacultyIds(faculty);
      return None;
    }

    /** `get_student_by_id`: the first student with the identifier, or `None`. */
    method GetStudentById(studentId: string) returns (r: Option<Student>)
      ensures r.Some? <==> studentId in StudentIds(students)
      ensures r.Some? ==> r.value == students[IndexOf(StudentIds(students), studentId)]
    {
      var i := 0;
      while i < |students|
        invariant i <= |students|
        invariant forall j :: 0 <= j < i ==> students[j].person.personId != studentId
      {
        if students[i].person.personId == studentId {
          return Some(students[i]);
        }
        i := i + 1;
      }
      assert studentId !in StudentIds(students);
      return None;
    }

    /**
     * `get_department_stats`: counts, course codes and faculty names, in insertion
     * order. Since the lists hold no repeats, each count is the number of distinct
     * members.
     */
    function Stats(): (r: DepartmentStats)
      reads this, FacultyPeople(faculty)
      ensures r.facultyCount == |faculty| && r.courseCount == |courses| && r.studentCount == |students|
      ensures r.courses == CourseCodes(courses) && r.faculty == FacultyNames(faculty)
      ensures Valid() ==>
        && r.facultyCount == |set f | f in faculty|
        && r.courseCount == |set c | c in courses|
        && r.studentCount == |set s | s in students|
    {
      SetSize(faculty);
      SetSize(courses);
      SetSize(students);
      DepartmentStats(name, code, |faculty|, |courses|, |students|, CourseCodes(courses), FacultyNames(faculty))
    }
  }

  /** A course appended to a department shows up last among the listed codes. */
  lemma CourseCodesAppend(cs: seq<Course>, c: Course)
    ensures CourseCodes(cs + [c]) == CourseCodes(cs) + [c.courseCode]
  {
  }

  /**
   * A found course has the code asked for and no earlier course has it; with
   * distinct codes it is the only course that has it.
   */
  lemma {:induction false} LookupFindsFirst(cs: seq<Course>, courseCode: string)
    requires courseCode in CourseCodes(cs)
    ensures var i := IndexOf(CourseCodes(cs), courseCode);
      i < |cs| && cs[i].courseCode == courseCode &&
      (forall j :: 0 <= j < i ==> cs[j].courseCode != courseCode) &&
      (Distinct(CourseCodes(cs)) ==> forall j :: 0 <= j < |cs| && cs[j].courseCode == courseCode ==> j == i)
  {
    var codes := CourseCodes(cs);
    var i := IndexOf(codes, courseCode);
    if Distinct(codes) {
      forall j | 0 <= j < |cs| && cs[j].courseCode == courseCode ensures j == i {
        assert codes[j] == codes[i];
      }
    }
  }
}
