/**
 * `database_manager.py`: the JSON form of the university data. People,
 * departments and courses are modelled as values; a reference from a department
 * or a course to a person is the person's position in the loaded list, so
 * Python's object identity becomes equality of positions.
 */
module Database {
  import opened Wrappers
  import opened Lists

  /** A decoded JSON value. */
  datatype Json =
    | JNull
    | JBool(b: bool)
    | JNum(n: real)
    | JStr(s: string)
    | JArr(items: seq<Json>)
    | JObj(fields: map<string, Json>)

  /** Python truthiness of a decoded JSON value. */
  predicate Truthy(j: Json) {
    match j
    case JNull => false
    case JBool(b) => b
    case JNum(n) => n != 0.0
    case JStr(s) => s != []
    case JArr(items) => items != []
    case JObj(fields) => fields != map[]
  }

  /** `d.get(key, default)`. */
  function GetOr(m: map<string, Json>, key: string, default: Json): (r: Json)
    ensures key in m ==> r == m[key]
    ensures key !in m ==> r == default
  {
    if key in m then m[key] else default
  }

  /** `d.get('person_id') or d.get('id')`: the first truthy of the two, else the `id` entry. */
  function IdOf(m: map<string, Json>): (r: Json)
    ensures Truthy(GetOr(m, "person_id", JNull)) ==> r == m["person_id"]
    ensures !Truthy(GetOr(m, "person_id", JNull)) ==> r == GetOr(m, "id", JNull)
  {
    var personId := GetOr(m, "person_id", JNull);
    if Truthy(personId) then personId else GetOr(m, "id", JNull)
  }

  /** The student classes: the two subclasses and `Student` itself. */
  datatype StudentClass = UndergraduateClass | GraduateClass | BaseStudentClass

  /** The faculty classes: the three teaching titles and `Faculty` itself. */
  datatype FacultyTitle = ProfessorTitle | LecturerTitle | TaTitle | BaseFacultyTitle

  /**
   * A person as the database stores it, one variant per `isinstance` branch of
   * `save_database`: a student, a faculty member, a staff member, or a plain `Person`.
   */
  datatype PersonRecord =
    | StudentRecord(level: StudentClass, name: Json, personId: Json, major: Json, courses: Json, grades: Json)
    | FacultyRecord(title: FacultyTitle, name: Json, personId: Json, department: Json)
    | StaffRecord(name: Json, personId: Json)
    | PersonOnlyRecord(name: Json, personId: Json)

  /** `person.__class__.__name__`, the `type` tag of a saved person. */
  function ClassName(p: PersonRecord): string {
    match p
    case StudentRecord(level, _, _, _, _, _) =>
      (match level
       case UndergraduateClass => "UndergraduateStudent"
       case GraduateClass => "GraduateStudent"
       case BaseStudentClass => "Student")
    case FacultyRecord(title, _, _, _) =>
      (match title
       case ProfessorTitle => "Professor"
       case LecturerTitle => "Lecturer"
       case TaTitle => "TA"
       case BaseFacultyTitle => "Faculty")
    case StaffRecord(_, _) => "Staff"
    case PersonOnlyRecord(_, _) => "Person"
  }

  /**
   * The classes `create_person_from_data` dispatches on: every class except the
   * base classes `Student`, `Faculty` and `Person`.
   */
  predicate Loadable(p: PersonRecord) {
    match p
    case StudentRecord(level, _, _, _, _, _) => level != BaseStudentClass
    case FacultyRecord(title, _, _, _) => title != BaseFacultyTitle
    case StaffRecord(_, _) => true
    case PersonOnlyRecord(_, _) => false
  }

  /** The tags the loader knows. */
  const KnownTags: set<Json> := {
    JStr("UndergraduateStudent"), JStr("GraduateStudent"), JStr("Professor"), JStr("Lecturer"), JStr("TA"), JStr("Staff")
  }

  /**
   * `create_person_from_data`: dispatch on the `type` tag. A value that is not an
   * object, a missing `type`, `name` or kind-specific key, a falsy identifier or
   * an unknown tag all give `None`. Students take `courses` and `grades` from the
   * data, defaulting to an empty list and an empty object.
   */
  function CreatePersonFromData(data: Json): (r: Option<PersonRecord>)
    ensures r.Some? ==> data.JObj? && "type" in data.fields && "name" in data.fields
    ensures r.Some? ==>
      var m := data.fields;
      && m["type"] == JStr(ClassName(r.value))
      && r.value.name == m["name"]
      && r.value.personId == IdOf(m) && Truthy(r.value.personId)
      && Loadable(r.value)
      && (r.value.StudentRecord? ==>
            "major" in m && r.value.major == m["major"] &&
            r.value.courses == GetOr(m, "courses", JArr([])) && r.value.grades == GetOr(m, "grades", JObj(map[])))
      && (r.value.FacultyRecord? ==> "department" in m && r.value.department == m["department"])
  {
    if !data.JObj? || "type" !in data.fields || "name" !in data.fields then None
    else
      var m := data.fields;
      var name := m["name"];
      var id := IdOf(m);
      var tag := m["type"];
      if !Truthy(id) then None
      else if tag == JStr("UndergraduateStudent") || tag == JStr("GraduateStudent") then
        if "major" !in m then None
        else Some(StudentRecord(if tag == JStr("GraduateStudent") then GraduateClass else UndergraduateClass,
                                name, id, m["major"],
                                GetOr(m, "courses", JArr([])), GetOr(m, "grades", JObj(map[]))))
      else if tag == JStr("Professor") || tag == JStr("Lecturer") || tag == JStr("TA") then
        if "department" !in m then None
        else
          var title := if tag == JStr("Professor") then ProfessorTitle
                       else if tag == JStr("Lecturer") then LecturerTitle else TaTitle;
          Some(FacultyRecord(title, name, id, m["department"]))
      else if tag == JStr("Staff") then Some(StaffRecord(name, id))
      else None
  }

  /** A class name is a tag the loader knows exactly when the class is not a base class. */
  lemma ClassNameKnown(p: PersonRecord)
    ensures JStr(ClassName(p)) in KnownTags <==> Loadable(p)
  {
    if !Loadable(p) {
      var n := ClassName(p);
      assert n == "Student" || n == "Faculty" || n == "Person";
      assert |n| <= 7 && n[0] != 'T';
    }
  }

  /** An unknown tag, or an object with neither a truthy `person_id` nor a truthy `id`, gives no person. */
  lemma RejectedRecords(data: Json)
    requires data.JObj?
    requires GetOr(data.fields, "type", JNull) !in KnownTags ||
             (!Truthy(GetOr(data.fields, "person_id", JNull)) && !Truthy(GetOr(data.fields, "id", JNull)))
    ensures CreatePersonFromData(data) == None
  {
    var r := CreatePersonFromData(data);
    if r.Some? {
      ClassNameKnown(r.value);
    }
  }

  /**
   * The record `save_database` writes for a person: the class name, the name and
   * the identifier, plus major, courses and grades for a student or the
   * department for a faculty member.
   */
  function PersonJson(p: PersonRecord): (j: Json)
    ensures j.JObj? && "type" in j.fields && "name" in j.fields && "person_id" in j.fields
    ensures j.fields["type"] == JStr(ClassName(p)) && j.fields["name"] == p.name
    ensures j.fields["person_id"] == p.personId && "id" !in j.fields
    ensures p.StudentRecord? <==> "major" in j.fields
    ensures p.FacultyRecord? <==> "department" in j.fields
  {
    var common := map["type" := JStr(ClassName(p)), "name" := p.name, "person_id" := p.personId];
    match p
    case StudentRecord(_, _, _, major, courses, grades) =>
      JObj(common["major" := major]["courses" := courses]["grades" := grades])
    case FacultyRecord(_, _, _, department) => JObj(common["department" := department])
    case StaffRecord(_, _) => JObj(common)
    case PersonOnlyRecord(_, _) => JObj(common)
  }

  /** A saved person of a class the loader knows, with a truthy identifier, loads back as the same person. */
  lemma PersonRoundTrip(p: PersonRecord)
    requires Truthy(p.personId) && Loadable(p)
    ensures CreatePersonFromData(PersonJson(p)) == Some(p)
  {
    var m := PersonJson(p).fields;
    assert IdOf(m) == p.personId;
  }

  /** A saved person whose identifier is falsy is dropped on loading. */
  lemma FalsyIdDropped(p: PersonRecord)
    requires !Truthy(p.personId)
    ensures CreatePersonFromData(PersonJson(p)) == None
  {
    RejectedRecords(PersonJson(p));
  }

  /**
   * A plain `Student`, `Faculty` or `Person` is saved under its class name, which
   * the loader does not dispatch on: it is dropped on loading.
   */
  lemma BaseClassDropped(p: PersonRecord)
    requires !Loadable(p)
    ensures CreatePersonFromData(PersonJson(p)) == None
  {
    ClassNameKnown(p);
    RejectedRecords(PersonJson(p));
  }

  // ----- The constructor calls as written -----

  /**
   * The positional arguments `create_person_from_data` passes to the class a tag
   * names: name, identifier and major or department, or only name and identifier
   * for `Staff`.
   */
  function ArgumentsPassed(tag: Json): nat {
    if tag == JStr("Staff") then 2 else 3
  }

  /**
   * The parameters without a default of that class's constructor: name,
   * identifier, email, major and year or degree type for a student; name,
   * identifier, email, department and rank, contract type or supervisor for a
   * faculty member; name, identifier, email and position for `Staff`.
   */
  function ParametersRequired(tag: Json): nat {
    if tag == JStr("Staff") then 4 else 5
  }

  /**
   * `create_person_from_data` as written: a constructor called with fewer
   * arguments than it requires raises `TypeError`, which the closing
   * `except Exception` turns into `None`.
   */
  function CreatePersonAsWritten(data: Json): (r: Option<PersonRecord>)
    ensures r.Some? ==> r == CreatePersonFromData(data)
  {
    match CreatePersonFromData(data)
    case None => None
    case Some(p) =>
      var tag := data.fields["type"];
      if ArgumentsPassed(tag) < ParametersRequired(tag) then None else Some(p)
  }

  /** A person that the intended dispatch loads back is lost by the calls as written. */
  lemma SavedPersonLostAsWritten(p: PersonRecord)
    requires Truthy(p.personId) && Loadable(p)
    ensures CreatePersonFromData(PersonJson(p)) == Some(p)
    ensures CreatePersonAsWritten(PersonJson(p)) == None
  {
    PersonRoundTrip(p);
  }

  // ----- Integrity -----

  const PersonIdMessage := "Duplicate person IDs found"
  const CourseCodeMessage := "Duplicate course codes found"
  const DepartmentNameMessage := "Duplicate department names found"

  /** The position of a message in the order the checks run. */
  function MessageRank(message: string): nat {
    if message == PersonIdMessage then 0 else if message == CourseCodeMessage then 1 else 2
  }

  /** The three messages are different and ranked 0, 1 and 2. */
  lemma MessagesDiffer()
    ensures PersonIdMessage != CourseCodeMessage && PersonIdMessage != DepartmentNameMessage
    ensures CourseCodeMessage != DepartmentNameMessage
    ensures MessageRank(PersonIdMessage) == 0 && MessageRank(CourseCodeMessage) == 1
    ensures MessageRank(DepartmentNameMessage) == 2
  {
    assert PersonIdMessage[10] == 'p' && CourseCodeMessage[10] == 'c' && DepartmentNameMessage[10] == 'd';
  }

  /**
   * `validate_database_integrity` over the person identifiers, course codes and
   * department names: one message per list that repeats a key, in that order.
   */
  function ValidateDatabaseIntegrity<K(==)>(personIds: seq<K>, courseCodes: seq<K>, departmentNames: seq<K>)
    : (errors: seq<string>)
    ensures PersonIdMessage in errors <==> !Distinct(personIds)
    ensures CourseCodeMessage in errors <==> !Distinct(courseCodes)
    ensures DepartmentNameMessage in errors <==> !Distinct(departmentNames)
    ensures errors == [] <==> Distinct(personIds) && Distinct(courseCodes) && Distinct(departmentNames)
    ensures forall i, j :: 0 <= i < j < |errors| ==> MessageRank(errors[i]) < MessageRank(errors[j])
  {
    RepeatIffNotDistinct(personIds);
    RepeatIffNotDistinct(courseCodes);
    RepeatIffNotDistinct(departmentNames);
    MessagesDiffer();
    (if HasRepeat(personIds) then [PersonIdMessage] else [])
      + (if HasRepeat(courseCodes) then [CourseCodeMessage] else [])
      + (if HasRepeat(departmentNames) then [DepartmentNameMessage] else [])
  }

  // ----- Loading -----

  /** What `isinstance` tells apart when an identifier is resolved. */
  datatype Kind = StudentKind | FacultyKind | OtherKind

  function KindOf(p: PersonRecord): Kind {
    match p
    case StudentRecord(_, _, _, _, _, _) => StudentKind
    case FacultyRecord(_, _, _, _) => FacultyKind
    case StaffRecord(_, _) => OtherKind
    case PersonOnlyRecord(_, _) => OtherKind
  }

  /** A loaded department: its name and the positions of its faculty, students and courses. */
  datatype DepartmentEntry = DepartmentEntry(name: Json, faculty: seq<nat>, students: seq<nat>, courses: seq<nat>)

  /** A loaded course: its constructor arguments, enrolled students and teacher, by position. */
  datatype CourseEntry = CourseEntry(
    name: Json,
    code: Json,
    maxEnrollment: Json,
    prerequisites: Json,
    enrolled: seq<nat>,
    faculty: Option<nat>)

  /** The three lists `load_database` returns. */
  datatype Db = Db(departments: seq<DepartmentEntry>, courses: seq<CourseEntry>, people: seq<PersonRecord>)

  /** The database file as the loader finds it: absent, not decodable, or decoded. */
  datatype DatabaseFile = Missing | Unreadable | Contents(data: Json)

  /** What a person is looked up by: the identifier and the kind. */
  function PersonKeys(people: seq<PersonRecord>): (r: seq<(Json, Kind)>)
    ensures |r| == |people| && forall i :: 0 <= i < |people| ==> r[i] == (people[i].personId, KindOf(people[i]))
  {
    seq(|people|, i requires 0 <= i < |people| => (people[i].personId, KindOf(people[i])))
  }

  /** The names of loaded departments, in order. */
  function DepartmentNames(depts: seq<DepartmentEntry>): (r: seq<Json>)
    ensures |r| == |depts| && forall i :: 0 <= i < |depts| ==> r[i] == depts[i].name
  {
    seq(|depts|, i requires 0 <= i < |depts| => depts[i].name)
  }

  /** The codes of loaded courses, in order. */
  function CourseCodes(courses: seq<CourseEntry>): (r: seq<Json>)
    ensures |r| == |courses| && forall i :: 0 <= i < |courses| ==> r[i] == courses[i].code
  {
    seq(|courses|, i requires 0 <= i < |courses| => courses[i].code)
  }

  /**
   * `for x in d.get(key, [])`: a missing key gives no elements and an array its
   * items; anything else is treated as a failure of the whole load.
   */
  function ListField(m: map<string, Json>, key: string): (r: Option<seq<Json>>)
    ensures key !in m ==> r == Some([])
    ensures key in m && m[key].JArr? ==> r == Some(m[key].items)
  {
    if key !in m then Some([]) else if m[key].JArr? then Some(m[key].items) else None
  }

  /** Every position refers to a person of the given kind. */
  predicate RefsTo(keys: seq<(Json, Kind)>, refs: seq<nat>, kind: Kind) {
    forall k :: 0 <= k < |refs| ==> refs[k] < |keys| && keys[refs[k]].1 == kind
  }

  /**
   * The identifier lookups of `load_database`: each identifier becomes the
   * position of the first person with that identifier and kind; an identifier
   * no such person has is skipped. With `dedup`, as for `add_faculty` and
   * `add_student`, a person already listed is not listed again.
   */
  function Resolve(keys: seq<(Json, Kind)>, ids: seq<Json>, kind: Kind, dedup: bool): (r: seq<nat>)
    ensures RefsTo(keys, r, kind)
    ensures forall k :: 0 <= k < |r| ==> r[k] < |keys| && keys[r[k]].0 in ids
    ensures |r| <= |ids|
    ensures dedup ==> Distinct(r)
    decreases |ids|
  {
    if ids == [] then []
    else
      var refs := Resolve(keys, ids[..|ids| - 1], kind, dedup);
      var i := IndexOf(keys, (ids[|ids| - 1], kind));
      if i == |keys| || (dedup && i in refs) then refs
      else
        assert dedup ==> Distinct(refs + [i]) by {
          if dedup {
            AppendAbsent(refs, i);
          }
        }
        refs + [i]
  }

  /** Every identifier that some person of the kind has is resolved to the first such person. */
  lemma {:induction false} ResolveComplete(keys: seq<(Json, Kind)>, ids: seq<Json>, kind: Kind, dedup: bool, j: nat)
    requires j < |ids| && (ids[j], kind) in keys
    ensures IndexOf(keys, (ids[j], kind)) in Resolve(keys, ids, kind, dedup)
    decreases |ids|
  {
    var front := ids[..|ids| - 1];
    if j < |ids| - 1 {
      assert front[j] == ids[j];
      ResolveComplete(keys, front, kind, dedup, j);
    }
  }

  /** `create_person_from_data` over every element, keeping the people it builds, in order. */
  function LoadPeople(items: seq<Json>): (r: seq<PersonRecord>)
    ensures |r| <= |items|
    decreases |items|
  {
    if items == [] then []
    else
      var people := LoadPeople(items[..|items| - 1]);
      match CreatePersonFromData(items[|items| - 1])
      case Some(p) => people + [p]
      case None => people
  }

  /**
   * `add_faculty` sets the department of each faculty member it lists to the
   * department's name; identifiers and kinds stay as they were.
   */
  function Relabel(people: seq<PersonRecord>, faculty: seq<nat>, name: Json): (r: seq<PersonRecord>)
    ensures PersonKeys(r) == PersonKeys(people)
  {
    seq(|people|, i requires 0 <= i < |people| =>
      if i in faculty && people[i].FacultyRecord? then people[i].(department := name) else people[i])
  }

  /** The faculty and student lists are resolved to people of the right kind, without repeats. */
  predicate MembersOk(keys: seq<(Json, Kind)>, d: DepartmentEntry) {
    RefsTo(keys, d.faculty, FacultyKind) && Distinct(d.faculty) && RefsTo(keys, d.students, StudentKind) && Distinct(d.students)
  }

  /** The course list refers to loaded courses, without repeats. */
  predicate CoursesOk(courseCount: nat, d: DepartmentEntry) {
    (forall k :: 0 <= k < |d.courses| ==> d.courses[k] < courseCount) && Distinct(d.courses)
  }

  /** The enrolled students and the teacher of a course are people of the right kind. */
  predicate CourseOk(keys: seq<(Json, Kind)>, c: CourseEntry) {
    RefsTo(keys, c.enrolled, StudentKind) &&
    (c.faculty.Some? ==> c.faculty.value < |keys| && keys[c.faculty.value].1 == FacultyKind)
  }

  /** Every reference of a loaded database resolves to an object of the right kind. */
  predicate WellFormed(db: Db) {
    var keys := PersonKeys(db.people);
    (forall d <- db.departments :: MembersOk(keys, d) && CoursesOk(|db.courses|, d)) &&
    (forall c <- db.courses :: CourseOk(keys, c))
  }

  /** One department of the first pass: its name, faculty and students; courses come later. */
  function LoadDepartment(people: seq<PersonRecord>, d: Json): (r: Option<(DepartmentEntry, seq<PersonRecord>)>)
    ensures r.Some? ==> r.value.0.courses == [] && MembersOk(PersonKeys(people), r.value.0)
    ensures r.Some? ==> PersonKeys(r.value.1) == PersonKeys(people)
  {
    if !d.JObj? || "name" !in d.fields then None
    else
      var m := d.fields;
      match ListField(m, "faculty_ids")
      case None => None
      case Some(facultyIds) =>
        var faculty := Resolve(PersonKeys(people), facultyIds, FacultyKind, true);
        var relabelled := Relabel(people, faculty, m["name"]);
        match ListField(m, "student_ids")
        case None => None
        case Some(studentIds) =>
          var students := Resolve(PersonKeys(relabelled), studentIds, StudentKind, true);
          Some((DepartmentEntry(m["name"], faculty, students, []), relabelled))
  }

  /** The first pass over the departments; any failing department fails the load. */
  function LoadDepartments(people: seq<PersonRecord>, items: seq<Json>): (r: Option<(seq<DepartmentEntry>, seq<PersonRecord>)>)
    ensures r.Some? ==> |r.value.0| == |items| && PersonKeys(r.value.1) == PersonKeys(people)
    ensures r.Some? ==> forall d <- r.value.0 :: d.courses == [] && MembersOk(PersonKeys(people), d)
    decreases |items|
  {
    if items == [] then Some(([], people))
    else
      match LoadDepartments(people, items[..|items| - 1])
      case None => None
      case Some((depts, relabelled)) =>
        match LoadDepartment(relabelled, items[|items| - 1])
        case None => None
        case Some((d, relabelled')) => Some((depts + [d], relabelled'))
  }

  /** One course: its constructor arguments, enrolled students (repeats kept) and teacher. */
  function LoadCourse(keys: seq<(Json, Kind)>, c: Json): (r: Option<CourseEntry>)
    ensures r.Some? ==> CourseOk(keys, r.value)
  {
    if !c.JObj? || "name" !in c.fields || "code" !in c.fields || "max_enrollment" !in c.fields then None
    else
      var m := c.fields;
      match ListField(m, "enrolled_student_ids")
      case None => None
      case Some(studentIds) =>
        var facultyId := GetOr(m, "faculty_id", JNull);
        var teacher := if Truthy(facultyId) then IndexOf(keys, (facultyId, FacultyKind)) else |keys|;
        Some(CourseEntry(m["name"], m["code"], m["max_enrollment"], GetOr(m, "prerequisites", JArr([])),
                         Resolve(keys, studentIds, StudentKind, false),
                         if teacher < |keys| then Some(teacher) else None))
  }

  /** Every course; any failing course fails the load. */
  function LoadCourses(keys: seq<(Json, Kind)>, items: seq<Json>): (r: Option<seq<CourseEntry>>)
    ensures r.Some? ==> |r.value| == |items| && forall c <- r.value :: CourseOk(keys, c)
    decreases |items|
  {
    if items == [] then Some([])
    else
      match LoadCourses(keys, items[..|items| - 1])
      case None => None
      case Some(courses) =>
        match LoadCourse(keys, items[|items| - 1])
        case None => None
        case Some(c) => Some(courses + [c])
  }

  /** The course codes of one department: the first course with each code, unless already listed. */
  function AddCourseRefs(refs: seq<nat>, codes: seq<Json>, wanted: seq<Json>): (r: seq<nat>)
    ensures |refs| <= |r| && r[..|refs|] == refs
    ensures (forall k :: 0 <= k < |refs| ==> refs[k] < |codes|) && Distinct(refs) ==>
      (forall k :: 0 <= k < |r| ==> r[k] < |codes|) && Distinct(r)
    decreases |wanted|
  {
    if wanted == [] then refs
    else
      var r := AddCourseRefs(refs, codes, wanted[..|wanted| - 1]);
      var c := IndexOf(codes, wanted[|wanted| - 1]);
      if c < |codes| && c !in r then
        assert Distinct(r) ==> Distinct(r + [c]) by {
          if Distinct(r) {
            AppendAbsent(r, c);
          }
        }
        r + [c]
      else r
  }

  /** The second pass for one department: its course codes go to the first department of that name. */
  function AssignCourses(depts: seq<DepartmentEntry>, codes: seq<Json>, d: Json): (r: Option<seq<DepartmentEntry>>)
    ensures r.Some? ==> |r.value| == |depts|
    ensures r.Some? ==> forall i :: 0 <= i < |depts| ==>
      r.value[i] == depts[i].(courses := r.value[i].courses) && |depts[i].courses| <= |r.value[i].courses|
    ensures r.Some? && (forall e <- depts :: CoursesOk(|codes|, e)) ==> forall e <- r.value :: CoursesOk(|codes|, e)
  {
    if !d.JObj? || "name" !in d.fields then None
    else
      var k := IndexOf(DepartmentNames(depts), d.fields["name"]);
      if k == |depts| then Some(depts)
      else
        match ListField(d.fields, "course_codes")
        case None => None
        case Some(wanted) =>
          var added := AddCourseRefs(depts[k].courses, codes, wanted);
          var r := depts[k := depts[k].(courses := added)];
          assert (forall e <- depts :: CoursesOk(|codes|, e)) ==> forall e <- r :: CoursesOk(|codes|, e) by {
            if forall e <- depts :: CoursesOk(|codes|, e) {
              assert CoursesOk(|codes|, depts[k]);
              forall e <- r ensures CoursesOk(|codes|, e) {
                var i :| 0 <= i < |r| && r[i] == e;
                if i != k {
                  assert e == depts[i];
                }
              }
            }
          }
          Some(r)
  }

  /** The second pass over every department. */
  function AssignAll(depts: seq<DepartmentEntry>, codes: seq<Json>, items: seq<Json>): (r: Option<seq<DepartmentEntry>>)
    ensures r.Some? ==> |r.value| == |depts|
    ensures r.Some? ==> forall i :: 0 <= i < |depts| ==> r.value[i] == depts[i].(courses := r.value[i].courses)
    ensures r.Some? && (forall e <- depts :: CoursesOk(|codes|, e)) ==> forall e <- r.value :: CoursesOk(|codes|, e)
    decreases |items|
  {
    if items == [] then Some(depts)
    else
      match AssignAll(depts, codes, items[..|items| - 1])
      case None => None
      case Some(placed) => AssignCourses(placed, codes, items[|items| - 1])
  }

  /** The second pass changes only course lists, so the first pass's resolutions still hold. */
  lemma AssembledWellFormed(depts: seq<DepartmentEntry>, placed: seq<DepartmentEntry>, courses: seq<CourseEntry>,
                            people: seq<PersonRecord>)
    requires |placed| == |depts|
    requires forall i :: 0 <= i < |depts| ==> placed[i] == depts[i].(courses := placed[i].courses)
    requires forall d <- depts :: MembersOk(PersonKeys(people), d)
    requires forall e <- placed :: CoursesOk(|courses|, e)
    requires forall c <- courses :: CourseOk(PersonKeys(people), c)
    ensures WellFormed(Db(placed, courses, people))
  {
    forall e <- placed ensures MembersOk(PersonKeys(people), e) {
      var i :| 0 <= i < |placed| && placed[i] == e;
      assert MembersOk(PersonKeys(people), depts[i]);
    }
  }

  /** The courses and the second pass, once the first pass has built the departments. */
  function LoadCoursesAndPlace(m: map<string, Json>, departmentItems: seq<Json>, depts: seq<DepartmentEntry>,
                               people: seq<PersonRecord>): (r: Option<Db>)
    ensures (forall d <- depts :: d.courses == [] && MembersOk(PersonKeys(people), d)) && r.Some? ==>
      WellFormed(r.value)
    ensures r.Some? ==> r.value.people == people
  {
    match ListField(m, "courses")
    case None => None
    case Some(courseItems) =>
      match LoadCourses(PersonKeys(people), courseItems)
      case None => None
      case Some(courses) =>
        match AssignAll(depts, CourseCodes(courses), departmentItems)
        case None => None
        case Some(placed) =>
          var db := Db(placed, courses, people);
          assert (forall d <- depts :: d.courses == [] && MembersOk(PersonKeys(people), d)) ==> WellFormed(db) by {
            if forall d <- depts :: d.courses == [] && MembersOk(PersonKeys(people), d) {
              AssembledWellFormed(depts, placed, courses, people);
            }
          }
          Some(db)
  }

  /** The departments onwards, once the people are loaded. */
  function LoadDepartmentsOnwards(m: map<string, Json>, people: seq<PersonRecord>): (r: Option<Db>)
    ensures r.Some? ==> WellFormed(r.value)
    ensures r.Some? ==> PersonKeys(r.value.people) == PersonKeys(people)
  {
    match ListField(m, "departments")
    case None => None
    case Some(departmentItems) =>
      match LoadDepartments(people, departmentItems)
      case None => None
      case Some((depts, relabelled)) => LoadCoursesAndPlace(m, departmentItems, depts, relabelled)
  }

  /** `load_database` on decoded contents; `None` when any step raises. */
  function LoadData(data: Json): (r: Option<Db>)
    ensures r.Some? ==> WellFormed(r.value)
  {
    if !data.JObj? then None
    else
      match ListField(data.fields, "people")
      case None => None
      case Some(personItems) => LoadDepartmentsOnwards(data.fields, LoadPeople(personItems))
  }

  /** `load_database`: a missing, unreadable or failing file gives three empty lists. */
  function LoadOf(file: DatabaseFile): (r: Db)
    ensures WellFormed(r)
    ensures !file.Contents? ==> r == Db([], [], [])
  {
    match file
    case Contents(data) =>
      (match LoadData(data)
       case Some(db) => db
       case None => Db([], [], []))
    case _ => Db([], [], [])
  }

  // ----- The loading loops -----

  /** Once a prefix of the departments fails, the whole first pass fails. */
  lemma {:induction false} LoadDepartmentsFails(people: seq<PersonRecord>, items: seq<Json>, i: nat)
    requires i <= |items| && LoadDepartments(people, items[..i]).None?
    ensures LoadDepartments(people, items).None?
    decreases |items| - i
  {
    if i < |items| {
      assert items[..i + 1][..i] == items[..i];
      LoadDepartmentsFails(people, items, i + 1);
    } else {
      assert items[..i] == items;
    }
  }

  /** Once a prefix of the courses fails, loading the courses fails. */
  lemma {:induction false} LoadCoursesFails(keys: seq<(Json, Kind)>, items: seq<Json>, i: nat)
    requires i <= |items| && LoadCourses(keys, items[..i]).None?
    ensures LoadCourses(keys, items).None?
    decreases |items| - i
  {
    if i < |items| {
      assert items[..i + 1][..i] == items[..i];
      LoadCoursesFails(keys, items, i + 1);
    } else {
      assert items[..i] == items;
    }
  }

  /** Once a prefix of the second pass fails, the whole second pass fails. */
  lemma {:induction false} AssignAllFails(depts: seq<DepartmentEntry>, codes: seq<Json>, items: seq<Json>, i: nat)
    requires i <= |items| && AssignAll(depts, codes, items[..i]).None?
    ensures AssignAll(depts, codes, items).None?
    decreases |items| - i
  {
    if i < |items| {
      assert items[..i + 1][..i] == items[..i];
      AssignAllFails(depts, codes, items, i + 1);
    } else {
      assert items[..i] == items;
    }
  }

  /** The loop over `data.get('people', [])`. */
  method LoadPeopleLoop(items: seq<Json>) returns (people: seq<PersonRecord>)
    ensures people == LoadPeople(items)
  {
    people := [];
    for i := 0 to |items|
      invariant people == LoadPeople(items[..i])
    {
      assert items[..i + 1][..i] == items[..i];
      var p := CreatePersonFromData(items[i]);
      if p.Some? {
        people := people + [p.value];
      }
    }
    assert items[..|items|] == items;
  }

  /** A loop of identifier lookups, skipping unresolved identifiers and, with `dedup`, people already listed. */
  method ResolveLoop(keys: seq<(Json, Kind)>, ids: seq<Json>, kind: Kind, dedup: bool) returns (refs: seq<nat>)
    ensures refs == Resolve(keys, ids, kind, dedup)
  {
    refs := [];
    for i := 0 to |ids|
      invariant refs == Resolve(keys, ids[..i], kind, dedup)
    {
      assert ids[..i + 1][..i] == ids[..i];
      var p := IndexOf(keys, (ids[i], kind));
      if p < |keys| && !(dedup && p in refs) {
        refs := refs + [p];
      }
    }
    assert ids[..|ids|] == ids;
  }

  /** The body of the first loop over `data.get('departments', [])`. */
  method LoadDepartmentStep(people: seq<PersonRecord>, d: Json) returns (r: Option<(DepartmentEntry, seq<PersonRecord>)>)
    ensures r == LoadDepartment(people, d)
  {
    if !d.JObj? || "name" !in d.fields {
      return None;
    }
    var m := d.fields;
    var facultyIds := ListField(m, "faculty_ids");
    if facultyIds.None? {
      return None;
    }
    var faculty := ResolveLoop(PersonKeys(people), facultyIds.value, FacultyKind, true);
    var relabelled := Relabel(people, faculty, m["name"]);
    var studentIds := ListField(m, "student_ids");
    if studentIds.None? {
      return None;
    }
    var students := ResolveLoop(PersonKeys(relabelled), studentIds.value, StudentKind, true);
    return Some((DepartmentEntry(m["name"], faculty, students, []), relabelled));
  }

  /** The first loop over `data.get('departments', [])`. */
  method LoadDepartmentsLoop(people: seq<PersonRecord>, items: seq<Json>)
    returns (r: Option<(seq<DepartmentEntry>, seq<PersonRecord>)>)
    ensures r == LoadDepartments(people, items)
  {
    var depts: seq<DepartmentEntry> := [];
    var current := people;
    for i := 0 to |items|
      invariant LoadDepartments(people, items[..i]) == Some((depts, current))
    {
      assert items[..i + 1][..i] == items[..i];
      var d := LoadDepartmentStep(current, items[i]);
      if d.None? {
        LoadDepartmentsFails(people, items, i + 1);
        return None;
      }
      depts := depts + [d.value.0];
      current := d.value.1;
    }
    assert items[..|items|] == items;
    return Some((depts, current));
  }

  /** The body of the loop over `data.get('courses', [])`. */
  method LoadCourseStep(keys: seq<(Json, Kind)>, c: Json) returns (r: Option<CourseEntry>)
    ensures r == LoadCourse(keys, c)
  {
    if !c.JObj? || "name" !in c.fields || "code" !in c.fields || "max_enrollment" !in c.fields {
      return None;
    }
    var m := c.fields;
    var studentIds := ListField(m, "enrolled_student_ids");
    if studentIds.None? {
      return None;
    }
    var enrolled := ResolveLoop(keys, studentIds.value, StudentKind, false);
    var facultyId := GetOr(m, "faculty_id", JNull);
    var teacher: Option<nat> := None;
    if Truthy(facultyId) {
      var t := IndexOf(keys, (facultyId, FacultyKind));
      if t < |keys| {
        teacher := Some(t);
      }
    }
    return Some(CourseEntry(m["name"], m["code"], m["max_enrollment"], GetOr(m, "prerequisites", JArr([])),
                            enrolled, teacher));
  }

  /** The loop over `data.get('courses', [])`. */
  method LoadCoursesLoop(keys: seq<(Json, Kind)>, items: seq<Json>) returns (r: Option<seq<CourseEntry>>)
    ensures r == LoadCourses(keys, items)
  {
    var courses: seq<CourseEntry> := [];
    for i := 0 to |items|
      invariant LoadCourses(keys, items[..i]) == Some(courses)
    {
      assert items[..i + 1][..i] == items[..i];
      var c := LoadCourseStep(keys, items[i]);
      if c.None? {
        LoadCoursesFails(keys, items, i + 1);
        return None;
      }
      courses := courses + [c.value];
    }
    assert items[..|items|] == items;
    return Some(courses);
  }

  /** The loop over one department's `course_codes`. */
  method AddCourseRefsLoop(refs: seq<nat>, codes: seq<Json>, wanted: seq<Json>) returns (r: seq<nat>)
    ensures r == AddCourseRefs(refs, codes, wanted)
  {
    r := refs;
    for i := 0 to |wanted|
      invariant r == AddCourseRefs(refs, codes, wanted[..i])
    {
      assert wanted[..i + 1][..i] == wanted[..i];
      var c := IndexOf(codes, wanted[i]);
      if c < |codes| && c !in r {
        r := r + [c];
      }
    }
    assert wanted[..|wanted|] == wanted;
  }

  /** The body of the second loop over `data.get('departments', [])`. */
  method AssignCoursesStep(depts: seq<DepartmentEntry>, codes: seq<Json>, d: Json) returns (r: Option<seq<DepartmentEntry>>)
    ensures r == AssignCourses(depts, codes, d)
  {
    if !d.JObj? || "name" !in d.fields {
      return None;
    }
    var k := IndexOf(DepartmentNames(depts), d.fields["name"]);
    if k == |depts| {
      return Some(depts);
    }
    var wanted := ListField(d.fields, "course_codes");
    if wanted.None? {
      return None;
    }
    var added := AddCourseRefsLoop(depts[k].courses, codes, wanted.value);
    return Some(depts[k := depts[k].(courses := added)]);
  }

  /** The second loop over `data.get('departments', [])`. */
  method AssignAllLoop(depts: seq<DepartmentEntry>, codes: seq<Json>, items: seq<Json>) returns (r: Option<seq<DepartmentEntry>>)
    ensures r == AssignAll(depts, codes, items)
  {
    var current := depts;
    for i := 0 to |items|
      invariant AssignAll(depts, codes, items[..i]) == Some(current)
    {
      assert items[..i + 1][..i] == items[..i];
      var next := AssignCoursesStep(current, codes, items[i]);
      if next.None? {
        AssignAllFails(depts, codes, items, i + 1);
        return None;
      }
      current := next.value;
    }
    assert items[..|items|] == items;
    return Some(current);
  }

  /**
   * `load_database`: people first, then departments with their faculty and
   * students, then courses, then each department's courses. The result is
   * well formed: every reference resolves to an object of the right kind.
   */
  method LoadDatabase(file: DatabaseFile) returns (db: Db)
    ensures db == LoadOf(file)
    ensures WellFormed(db)
  {
    var empty := Db([], [], []);
    if !file.Contents? || !file.data.JObj? {
      return empty;
    }
    var m := file.data.fields;
    var personItems := ListField(m, "people");
    if personItems.None? {
      return empty;
    }
    var people := LoadPeopleLoop(personItems.value);
    var departmentItems := ListField(m, "departments");
    if departmentItems.None? {
      return empty;
    }
    var first := LoadDepartmentsLoop(people, departmentItems.value);
    if first.None? {
      return empty;
    }
    var (depts, relabelled) := first.value;
    var courseItems := ListField(m, "courses");
    if courseItems.None? {
      return empty;
    }
    var courses := LoadCoursesLoop(PersonKeys(relabelled), courseItems.value);
    if courses.None? {
      return empty;
    }
    var placed := AssignAllLoop(depts, CourseCodes(courses.value), departmentItems.value);
    if placed.None? {
      return empty;
    }
    return Db(placed.value, courses.value, relabelled);
  }

  // ----- Saving -----

  /** The identifier of the person at a position. */
  function IdAt(people: seq<PersonRecord>, i: nat): Json {
    if i < |people| then people[i].personId else JNull
  }

  /** The code of the course at a position. */
  function CodeAt(courses: seq<CourseEntry>, i: nat): Json {
    if i < |courses| then courses[i].code else JNull
  }

  /** `[p.person_id for p in ...]` over referenced people. */
  function IdList(people: seq<PersonRecord>, refs: seq<nat>): (r: seq<Json>)
    ensures |r| == |refs| && forall k :: 0 <= k < |refs| ==> r[k] == IdAt(people, refs[k])
  {
    seq(|refs|, k requires 0 <= k < |refs| => IdAt(people, refs[k]))
  }

  /** `[c.code for c in ...]` over referenced courses. */
  function CodeList(courses: seq<CourseEntry>, refs: seq<nat>): (r: seq<Json>)
    ensures |r| == |refs| && forall k :: 0 <= k < |refs| ==> r[k] == CodeAt(courses, refs[k])
  {
    seq(|refs|, k requires 0 <= k < |refs| => CodeAt(courses, refs[k]))
  }

  /** The identifiers of all people, in order. */
  function PersonIds(people: seq<PersonRecord>): (r: seq<Json>)
    ensures |r| == |people| && forall i :: 0 <= i < |people| ==> r[i] == people[i].personId
  {
    seq(|people|, i requires 0 <= i < |people| => people[i].personId)
  }

  /** The record `save_database` writes for a department. */
  function DepartmentJson(people: seq<PersonRecord>, courses: seq<CourseEntry>, d: DepartmentEntry): Json {
    JObj(map[
      "name" := d.name,
      "faculty_ids" := JArr(IdList(people, d.faculty)),
      "student_ids" := JArr(IdList(people, d.students)),
      "course_codes" := JArr(CodeList(courses, d.courses))])
  }

  /** The record `save_database` writes for a course; a course without a teacher gets `null`. */
  function CourseJson(people: seq<PersonRecord>, c: CourseEntry): Json {
    JObj(map[
      "name" := c.name,
      "code" := c.code,
      "max_enrollment" := c.maxEnrollment,
      "prerequisites" := c.prerequisites,
      "enrolled_student_ids" := JArr(IdList(people, c.enrolled)),
      "faculty_id" := if c.faculty.Some? then IdAt(people, c.faculty.value) else JNull])
  }

  function PeopleJson(people: seq<PersonRecord>): (r: seq<Json>)
    ensures |r| == |people| && forall i :: 0 <= i < |people| ==> r[i] == PersonJson(people[i])
  {
    seq(|people|, i requires 0 <= i < |people| => PersonJson(people[i]))
  }

  function DepartmentsJson(people: seq<PersonRecord>, courses: seq<CourseEntry>, depts: seq<DepartmentEntry>): (r: seq<Json>)
    ensures |r| == |depts| && forall i :: 0 <= i < |depts| ==> r[i] == DepartmentJson(people, courses, depts[i])
  {
    seq(|depts|, i requires 0 <= i < |depts| => DepartmentJson(people, courses, depts[i]))
  }

  function CoursesJson(people: seq<PersonRecord>, courses: seq<CourseEntry>): (r: seq<Json>)
    ensures |r| == |courses| && forall i :: 0 <= i < |courses| ==> r[i] == CourseJson(people, courses[i])
  {
    seq(|courses|, i requires 0 <= i < |courses| => CourseJson(people, courses[i]))
  }

  /** The document `save_database` writes. */
  function SaveData(db: Db): Json {
    JObj(map[
      "departments" := JArr(DepartmentsJson(db.people, db.courses, db.departments)),
      "courses" := JArr(CoursesJson(db.people, db.courses)),
      "people" := JArr(PeopleJson(db.people))])
  }

  /** `save_database`: the people, departments and courses loops build the document. */
  method SaveDatabase(db: Db) returns (data: Json)
    ensures data == SaveData(db)
  {
    var people: seq<Json> := [];
    for i := 0 to |db.people|
      invariant people == PeopleJson(db.people[..i])
    {
      people := people + [PersonJson(db.people[i])];
    }
    var depts: seq<Json> := [];
    for i := 0 to |db.departments|
      invariant depts == DepartmentsJson(db.people, db.courses, db.departments[..i])
    {
      depts := depts + [DepartmentJson(db.people, db.courses, db.departments[i])];
    }
    var courses: seq<Json> := [];
    for i := 0 to |db.courses|
      invariant courses == CoursesJson(db.people, db.courses[..i])
    {
      courses := courses + [CourseJson(db.people, db.courses[i])];
    }
    assert db.people[..|db.people|] == db.people;
    assert db.departments[..|db.departments|] == db.departments;
    assert db.courses[..|db.courses|] == db.courses;
    return JObj(map["departments" := JArr(depts), "courses" := JArr(courses), "people" := JArr(people)]);
  }

  // ----- Saving, then loading -----

  /** Each faculty member a department lists has that department's name as department. */
  predicate FacultyInDepartment(people: seq<PersonRecord>, d: DepartmentEntry) {
    forall k :: 0 <= k < |d.faculty| ==>
      d.faculty[k] < |people| && people[d.faculty[k]].FacultyRecord? && people[d.faculty[k]].department == d.name
  }

  /**
   * A database that loading gives back unchanged after saving: well formed,
   * passing `validate_database_integrity`, every identifier truthy, and every
   * listed faculty member already in the listing department.
   */
  predicate Restorable(db: Db) {
    && WellFormed(db)
    && ValidateDatabaseIntegrity(PersonIds(db.people), CourseCodes(db.courses), DepartmentNames(db.departments)) == []
    && (forall p <- db.people :: Reloads(p))
    && (forall d <- db.departments :: FacultyInDepartment(db.people, d))
  }

  /** The departments as the first pass of loading builds them, before any course is placed. */
  function Stripped(depts: seq<DepartmentEntry>): (r: seq<DepartmentEntry>)
    ensures |r| == |depts| && forall i :: 0 <= i < |depts| ==> r[i] == depts[i].(courses := [])
  {
    seq(|depts|, i requires 0 <= i < |depts| => depts[i].(courses := []))
  }

  /** A saved person that loading builds again: a class the loader knows, with a truthy identifier. */
  predicate Reloads(p: PersonRecord) {
    Truthy(p.personId) && Loadable(p)
  }

  /** The saved people that loading builds again, in order. */
  function Reloaded(people: seq<PersonRecord>): (r: seq<PersonRecord>)
    ensures |r| <= |people|
    ensures forall p :: p in r <==> p in people && Reloads(p)
    ensures (forall p <- people :: Reloads(p)) ==> r == people
    decreases |people|
  {
    if people == [] then []
    else
      var n := |people| - 1;
      var rest := Reloaded(people[..n]);
      assert forall p :: p in people <==> p in people[..n] || p == people[n];
      assert people == people[..n] + [people[n]];
      if Reloads(people[n]) then rest + [people[n]] else rest
  }

  /**
   * Loading a saved list of people rebuilds exactly the people of a known class
   * with a truthy identifier, in order; the others are dropped.
   */
  lemma {:induction false} LoadSavedPeople(people: seq<PersonRecord>)
    ensures LoadPeople(PeopleJson(people)) == Reloaded(people)
    decreases |people|
  {
    if people != [] {
      var n := |people| - 1;
      var p := people[n];
      assert PeopleJson(people)[..n] == PeopleJson(people[..n]);
      LoadSavedPeople(people[..n]);
      if Reloads(p) {
        PersonRoundTrip(p);
      } else if !Truthy(p.personId) {
        FalsyIdDropped(p);
      } else {
        BaseClassDropped(p);
      }
    }
  }

  /** With distinct identifiers, the lookup keys are distinct too. */
  lemma KeysDistinct(people: seq<PersonRecord>)
    requires Distinct(PersonIds(people))
    ensures Distinct(PersonKeys(people))
  {
    var keys := PersonKeys(people);
    forall i, j | 0 <= i < j < |keys| ensures keys[i] != keys[j] {
      assert PersonIds(people)[i] != PersonIds(people)[j];
    }
  }

  /** Saving a prefix of references saves a prefix of the identifiers. */
  lemma IdListPrefix(people: seq<PersonRecord>, refs: seq<nat>, n: nat)
    requires n <= |refs|
    ensures IdList(people, refs)[..n] == IdList(people, refs[..n])
  {
  }

  /** The saved identifier of a referenced person leads back to that person. */
  lemma FindSaved(people: seq<PersonRecord>, refs: seq<nat>, kind: Kind, k: nat)
    requires Distinct(PersonIds(people)) && RefsTo(PersonKeys(people), refs, kind) && k < |refs|
    ensures IndexOf(PersonKeys(people), (IdList(people, refs)[k], kind)) == refs[k]
  {
    KeysDistinct(people);
    IndexOfDistinct(PersonKeys(people), refs[k]);
  }

  /** Saved identifiers resolve back to the positions they were saved from. */
  lemma {:induction false} ResolveSaved(people: seq<PersonRecord>, refs: seq<nat>, kind: Kind, dedup: bool)
    requires Distinct(PersonIds(people)) && RefsTo(PersonKeys(people), refs, kind) && (dedup ==> Distinct(refs))
    ensures Resolve(PersonKeys(people), IdList(people, refs), kind, dedup) == refs
    decreases |refs|
  {
    if refs != [] {
      var n := |refs| - 1;
      var front := refs[..n];
      IdListPrefix(people, refs, n);
      ResolveSaved(people, front, kind, dedup);
      FindSaved(people, refs, kind, n);
      assert dedup ==> refs[n] !in front;
      FrontLast(refs);
    }
  }

  /** Saved course codes are placed back at the positions they were saved from. */
  lemma {:induction false} AddCourseRefsSaved(courses: seq<CourseEntry>, refs: seq<nat>)
    requires Distinct(CourseCodes(courses)) && Distinct(refs)
    requires forall k :: 0 <= k < |refs| ==> refs[k] < |courses|
    ensures AddCourseRefs([], CourseCodes(courses), CodeList(courses, refs)) == refs
    decreases |refs|
  {
    if refs != [] {
      var n := |refs| - 1;
      assert CodeList(courses, refs)[..n] == CodeList(courses, refs[..n]);
      AddCourseRefsSaved(courses, refs[..n]);
      IndexOfDistinct(CourseCodes(courses), refs[n]);
      assert refs[n] !in refs[..n];
      FrontLast(refs);
    }
  }

  /** Relabelling faculty who already carry the department's name changes nobody. */
  lemma RelabelSame(people: seq<PersonRecord>, d: DepartmentEntry)
    requires FacultyInDepartment(people, d)
    ensures Relabel(people, d.faculty, d.name) == people
  {
    var r := Relabel(people, d.faculty, d.name);
    assert |r| == |PersonKeys(r)| == |people|;
    forall i | 0 <= i < |people| ensures r[i] == people[i] {
      if i in d.faculty && people[i].FacultyRecord? {
        var k :| 0 <= k < |d.faculty| && d.faculty[k] == i;
      }
    }
  }

  /** Saving a prefix of the departments saves a prefix of the records. */
  lemma DepartmentsJsonPrefix(people: seq<PersonRecord>, courses: seq<CourseEntry>, depts: seq<DepartmentEntry>, n: nat)
    requires n <= |depts|
    ensures DepartmentsJson(people, courses, depts)[..n] == DepartmentsJson(people, courses, depts[..n])
  {
  }

  /** Saving a prefix of the courses saves a prefix of the records. */
  lemma CoursesJsonPrefix(people: seq<PersonRecord>, courses: seq<CourseEntry>, n: nat)
    requires n <= |courses|
    ensures CoursesJson(people, courses)[..n] == CoursesJson(people, courses[..n])
  {
  }

  /** Stripping a list of departments strips each one in place. */
  lemma StrippedFrontLast(depts: seq<DepartmentEntry>)
    requires depts != []
    ensures Stripped(depts[..|depts| - 1]) + [depts[|depts| - 1].(courses := [])] == Stripped(depts)
  {
    var n := |depts| - 1;
    assert Stripped(depts)[..n] == Stripped(depts[..n]);
    FrontLast(Stripped(depts));
  }

  /** What the loader reads from a saved department record. */
  lemma DepartmentJsonFields(people: seq<PersonRecord>, courses: seq<CourseEntry>, d: DepartmentEntry)
    ensures var j := DepartmentJson(people, courses, d);
      && j.JObj? && "name" in j.fields && j.fields["name"] == d.name
      && ListField(j.fields, "faculty_ids") == Some(IdList(people, d.faculty))
      && ListField(j.fields, "student_ids") == Some(IdList(people, d.students))
      && ListField(j.fields, "course_codes") == Some(CodeList(courses, d.courses))
  {
  }

  /** One saved department loads back without courses, and its faculty keep their department. */
  lemma LoadSavedDepartment(people: seq<PersonRecord>, courses: seq<CourseEntry>, d: DepartmentEntry)
    requires Distinct(PersonIds(people)) && MembersOk(PersonKeys(people), d) && FacultyInDepartment(people, d)
    ensures LoadDepartment(people, DepartmentJson(people, courses, d)) == Some((d.(courses := []), people))
  {
    DepartmentJsonFields(people, courses, d);
    ResolveSaved(people, d.faculty, FacultyKind, true);
    RelabelSame(people, d);
    ResolveSaved(people, d.students, StudentKind, true);
  }

  /** The first pass over saved departments gives them back without courses and leaves the people as they were. */
  lemma {:induction false} LoadSavedDepartments(people: seq<PersonRecord>, courses: seq<CourseEntry>, depts: seq<DepartmentEntry>)
    requires Distinct(PersonIds(people))
    requires forall d <- depts :: MembersOk(PersonKeys(people), d) && FacultyInDepartment(people, d)
    ensures LoadDepartments(people, DepartmentsJson(people, courses, depts)) == Some((Stripped(depts), people))
    decreases |depts|
  {
    if depts != [] {
      var n := |depts| - 1;
      DepartmentsJsonPrefix(people, courses, depts, n);
      LoadSavedDepartments(people, courses, depts[..n]);
      assert depts[n] in depts;
      LoadSavedDepartment(people, courses, depts[n]);
      StrippedFrontLast(depts);
    }
  }

  /** The teacher of a saved course is found again. */
  lemma LoadSavedTeacher(people: seq<PersonRecord>, c: CourseEntry)
    requires Distinct(PersonIds(people)) && (forall p <- people :: Truthy(p.personId))
    requires c.faculty.Some? && CourseOk(PersonKeys(people), c)
    ensures Truthy(IdAt(people, c.faculty.value))
    ensures IndexOf(PersonKeys(people), (IdAt(people, c.faculty.value), FacultyKind)) == c.faculty.value
  {
    var f := c.faculty.value;
    assert people[f] in people;
    KeysDistinct(people);
    IndexOfDistinct(PersonKeys(people), f);
  }

  /** What the loader reads from a saved course record. */
  lemma CourseJsonFields(people: seq<PersonRecord>, c: CourseEntry)
    ensures var j := CourseJson(people, c);
      && j.JObj? && "name" in j.fields && "code" in j.fields && "max_enrollment" in j.fields
      && j.fields["name"] == c.name && j.fields["code"] == c.code && j.fields["max_enrollment"] == c.maxEnrollment
      && GetOr(j.fields, "prerequisites", JArr([])) == c.prerequisites
      && ListField(j.fields, "enrolled_student_ids") == Some(IdList(people, c.enrolled))
      && GetOr(j.fields, "faculty_id", JNull) == if c.faculty.Some? then IdAt(people, c.faculty.value) else JNull
  {
  }

  /** A saved course loads back as the same course. */
  lemma LoadSavedCourse(people: seq<PersonRecord>, c: CourseEntry)
    requires Distinct(PersonIds(people)) && (forall p <- people :: Truthy(p.personId))
    requires CourseOk(PersonKeys(people), c)
    ensures LoadCourse(PersonKeys(people), CourseJson(people, c)) == Some(c)
  {
    CourseJsonFields(people, c);
    ResolveSaved(people, c.enrolled, StudentKind, false);
    if c.faculty.Some? {
      LoadSavedTeacher(people, c);
    }
  }

  /** Saved courses load back in order. */
  lemma {:induction false} LoadSavedCourses(people: seq<PersonRecord>, courses: seq<CourseEntry>)
    requires Distinct(PersonIds(people)) && (forall p <- people :: Truthy(p.personId))
    requires forall c <- courses :: CourseOk(PersonKeys(people), c)
    ensures LoadCourses(PersonKeys(people), CoursesJson(people, courses)) == Some(courses)
    decreases |courses|
  {
    if courses != [] {
      var n := |courses| - 1;
      CoursesJsonPrefix(people, courses, n);
      LoadSavedCourses(people, courses[..n]);
      assert courses[n] in courses;
      LoadSavedCourse(people, courses[n]);
      FrontLast(courses);
    }
  }

  /** Departments whose first `i` have their courses back and the rest none. */
  function PartlyPlaced(depts: seq<DepartmentEntry>, i: nat): (r: seq<DepartmentEntry>)
    ensures |r| == |depts|
    ensures forall k :: 0 <= k < |depts| ==> r[k] == if k < i then depts[k] else depts[k].(courses := [])
  {
    seq(|depts|, k requires 0 <= k < |depts| => if k < i then depts[k] else depts[k].(courses := []))
  }

  /** Placing the courses of department `i` takes one more department to its saved state. */
  lemma PlaceNext(depts: seq<DepartmentEntry>, i: nat)
    requires i < |depts|
    ensures PartlyPlaced(depts, i)[i := depts[i]] == PartlyPlaced(depts, i + 1)
    ensures DepartmentNames(PartlyPlaced(depts, i)) == DepartmentNames(depts)
  {
    var a := PartlyPlaced(depts, i);
    var b := PartlyPlaced(depts, i + 1);
    assert forall k :: 0 <= k < |depts| ==> a[i := depts[i]][k] == b[k];
    assert forall k :: 0 <= k < |depts| ==> DepartmentNames(a)[k] == DepartmentNames(depts)[k];
  }

  /** Before the second pass nothing is placed; after it everything is. */
  lemma PlacedEnds(depts: seq<DepartmentEntry>)
    ensures PartlyPlaced(depts, 0) == Stripped(depts)
    ensures PartlyPlaced(depts, |depts|) == depts
  {
    assert forall k :: 0 <= k < |depts| ==> PartlyPlaced(depts, 0)[k] == Stripped(depts)[k];
    assert forall k :: 0 <= k < |depts| ==> PartlyPlaced(depts, |depts|)[k] == depts[k];
  }

  /** The record of department `i` sends its codes to department `i` and gives its courses back. */
  lemma AssignSavedStep(people: seq<PersonRecord>, courses: seq<CourseEntry>, depts: seq<DepartmentEntry>, i: nat)
    requires i < |depts|
    requires Distinct(DepartmentNames(depts)) && Distinct(CourseCodes(courses))
    requires CoursesOk(|courses|, depts[i])
    ensures AssignCourses(PartlyPlaced(depts, i), CourseCodes(courses), DepartmentJson(people, courses, depts[i]))
            == Some(PartlyPlaced(depts, i + 1))
  {
    DepartmentJsonFields(people, courses, depts[i]);
    IndexOfDistinct(DepartmentNames(depts), i);
    AddCourseRefsSaved(courses, depts[i].courses);
    PlaceNext(depts, i);
  }

  /** After the second pass over the first `i` saved departments, exactly those have their courses back. */
  lemma {:induction false} AssignSavedPrefix(people: seq<PersonRecord>, courses: seq<CourseEntry>, depts: seq<DepartmentEntry>, i: nat)
    requires i <= |depts|
    requires Distinct(DepartmentNames(depts)) && Distinct(CourseCodes(courses))
    requires forall d <- depts :: CoursesOk(|courses|, d)
    ensures AssignAll(Stripped(depts), CourseCodes(courses), DepartmentsJson(people, courses, depts)[..i])
            == Some(PartlyPlaced(depts, i))
    decreases i
  {
    if i == 0 {
      PlacedEnds(depts);
      assert DepartmentsJson(people, courses, depts)[..0] == [];
    } else {
      var items := DepartmentsJson(people, courses, depts)[..i];
      AssignSavedPrefix(people, courses, depts, i - 1);
      assert items[..i - 1] == DepartmentsJson(people, courses, depts)[..i - 1];
      assert items[i - 1] == DepartmentJson(people, courses, depts[i - 1]);
      assert depts[i - 1] in depts;
      AssignSavedStep(people, courses, depts, i - 1);
    }
  }

  /** What the loader reads from a saved document. */
  lemma SaveDataFields(db: Db)
    ensures var j := SaveData(db);
      && j.JObj?
      && ListField(j.fields, "people") == Some(PeopleJson(db.people))
      && ListField(j.fields, "departments") == Some(DepartmentsJson(db.people, db.courses, db.departments))
      && ListField(j.fields, "courses") == Some(CoursesJson(db.people, db.courses))
  {
  }

  /** A person that loading drops makes the rebuilt list shorter. */
  lemma {:induction false} ReloadedShorter(people: seq<PersonRecord>, i: nat)
    requires i < |people| && !Reloads(people[i])
    ensures |Reloaded(people)| < |people|
    decreases |people|
  {
    var n := |people| - 1;
    if i < n {
      assert people[..n][i] == people[i];
      ReloadedShorter(people[..n], i);
    }
  }

  /**
   * A database holding a plain `Student`, `Faculty` or `Person` does not come back
   * from the file `save_database` writes: that person is dropped on loading.
   */
  lemma BaseClassNotRestored(db: Db, i: nat)
    requires i < |db.people| && !Loadable(db.people[i])
    ensures LoadData(SaveData(db)) != Some(db)
  {
    SaveDataFields(db);
    LoadSavedPeople(db.people);
    ReloadedShorter(db.people, i);
    var loaded := LoadData(SaveData(db));
    if loaded.Some? {
      assert |PersonKeys(loaded.value.people)| == |Reloaded(db.people)|;
    }
  }

  /** A restorable database has distinct identifiers, course codes and department names. */
  lemma RestorableDistinct(db: Db)
    requires Restorable(db)
    ensures Distinct(PersonIds(db.people)) && Distinct(CourseCodes(db.courses)) && Distinct(DepartmentNames(db.departments))
  {
  }

  /** The saved course lists put every course back into its department. */
  lemma PlaceSaved(db: Db)
    requires Restorable(db)
    ensures AssignAll(Stripped(db.departments), CourseCodes(db.courses), DepartmentsJson(db.people, db.courses, db.departments))
            == Some(db.departments)
  {
    var items := DepartmentsJson(db.people, db.courses, db.departments);
    RestorableDistinct(db);
    AssignSavedPrefix(db.people, db.courses, db.departments, |db.departments|);
    assert items[..|items|] == items;
    PlacedEnds(db.departments);
  }

  /** Saving a restorable database and loading the document gives the same database back. */
  lemma SaveThenLoad(db: Db)
    requires Restorable(db)
    ensures LoadData(SaveData(db)) == Some(db)
    ensures LoadOf(Contents(SaveData(db))) == db
  {
    var people := db.people;
    SaveDataFields(db);
    RestorableDistinct(db);
    LoadSavedPeople(people);
    LoadSavedDepartments(people, db.courses, db.departments);
    LoadSavedCourses(people, db.courses);
    var m := SaveData(db).fields;
    var items := DepartmentsJson(people, db.courses, db.departments);
    PlaceSaved(db);
    PlacedEnds(db.departments);
    assert LoadCoursesAndPlace(m, items, Stripped(db.departments), people) == Some(db);
    assert LoadDepartmentsOnwards(m, people) == Some(db);
  }

  /**
   * `load_database` as written: no person is built (see `CreatePersonAsWritten`),
   * and `Department(dept_data['name'])` omits the `code` argument, so any
   * department entry raises `TypeError` and the load fails. Only a file without
   * departments loads, and then with its courses alone.
   */
  function LoadDataAsWritten(data: Json): (r: Option<Db>)
    ensures r.Some? ==> r.value.people == [] && r.value.departments == []
  {
    if !data.JObj? then None
    else
      match ListField(data.fields, "people")
      case None => None
      case Some(_) =>
        match ListField(data.fields, "departments")
        case None => None
        case Some(departmentItems) =>
          if departmentItems != [] then None
          else LoadCoursesAndPlace(data.fields, [], [], [])
  }

  /**
   * A database with a person or a department comes back from its own file under
   * the intended loader and does not under the loader as written.
   */
  lemma SavedDatabaseLostAsWritten(db: Db)
    requires Restorable(db) && (db.people != [] || db.departments != [])
    ensures LoadData(SaveData(db)) == Some(db)
    ensures LoadDataAsWritten(SaveData(db)) != Some(db)
  {
    SaveThenLoad(db);
  }
}
