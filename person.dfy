/**
 * `person.py`: the data every member of the university shares, and the `Staff`
 * role. Student and faculty objects hold their `Person` part (see the student and
 * faculty modules); dispatch on the kind of person replaces subclassing.
 */
module People {
  import opened Wrappers
  import opened Lists
  import PriceConversion

  /** The shared part of a person: name, fixed identifier, e-mail and department. */
  class Person {
    var name: string
    const personId: string
    var email: string
    var department: Option<string>

    /** The constructor stores its arguments as given: the e-mail is not checked here. */
    constructor(name: string, personId: string, email: string, department: Option<string>)
      ensures this.name == name && this.personId == personId
      ensures this.email == email && this.department == department
    {
      this.name := name;
      this.personId := personId;
      this.email := email;
      this.department := department;
    }

    /** `get_contact_info`. */
    function ContactInfo(): (r: string)
      reads this
      ensures |r| == |name| + |personId| + |email| + 21
      ensures r[..6] == "Name: " && r[6..6 + |name|] == name
      ensures r[6 + |name|..12 + |name|] == ", ID: "
      ensures r[12 + |name|..12 + |name| + |personId|] == personId
      ensures r[12 + |name| + |personId|..|r| - |email|] == ", Email: "
      ensures r[|r| - |email|..] == email
    {
      "Name: " + name + ", ID: " + personId + ", Email: " + email
    }

    /** The `name` setter: an empty name raises `ValueError` and is not stored. */
    method SetName(value: string) returns (err: Option<Error>)
      modifies this
      ensures err.Some? <==> value == []
      ensures err.Some? ==> err.value.ValueError? && name == old(name)
      ensures err.None? ==> name == value
      ensures email == old(email) && department == old(department)
    {
      if value == [] {
        return Some(ValueError("Name must be a non-empty string"));
      }
      name := value;
      err := None;
    }

    /** The `email` setter: a value without `@` raises `ValueError` and is not stored. */
    method SetEmail(value: string) returns (err: Option<Error>)
      modifies this
      ensures err.Some? <==> '@' !in value
      ensures err.Some? ==> err.value.ValueError? && email == old(email)
      ensures err.None? ==> email == value
      ensures name == old(name) && department == old(department)
    {
      if '@' !in value {
        return Some(ValueError("Email must contain @ symbol"));
      }
      email := value;
      err := None;
    }

    /** The `department` setter, unchecked. */
    method SetDepartment(value: Option<string>)
      modifies this
      ensures department == value && name == old(name) && email == old(email)
    {
      department := value;
    }
  }

  /** `Staff`: a position and a list of tasks, duplicates allowed. */
  class Staff {
    const person: Person
    const position: string
    var tasks: seq<string>

    constructor(person: Person, position: string)
      ensures this.person == person && this.position == position && tasks == []
    {
      this.person := person;
      this.position := position;
      tasks := [];
    }

    /** `assign_task`: the task goes at the end, even when already assigned. */
    method AssignTask(task: string)
      modifies this
      ensures tasks == old(tasks) + [task]
    {
      tasks := tasks + [task];
    }

    /** `complete_task`: the first occurrence of a present task goes; an absent task changes nothing. */
    method CompleteTask(task: string)
      modifies this
      ensures tasks == RemoveFirst(old(tasks), task)
    {
      if task in tasks {
        tasks := RemoveFirst(tasks, task);
      } else {
        RemoveFirstAbsent(tasks, task);
      }
    }

    /** `get_responsibilities`: the position and the current number of tasks. */
    function Responsibilities(): (r: string)
      reads this
      ensures var prefix := "Administrative duties as " + position + ". Current tasks: ";
        && |r| > |prefix| && r[..|prefix|] == prefix
        && PriceConversion.AllDigits(r[|prefix|..])
        && PriceConversion.DigitsValue(r[|prefix|..]) == |tasks|
    {
      PriceConversion.NatDigitsValue(|tasks|);
      "Administrative duties as " + position + ". Current tasks: " + PriceConversion.NatDigits(|tasks|)
    }
  }

  /**
   * Completing a task just assigned gives back the same tasks; the list itself
   * comes back only when the task was not assigned before, since otherwise the
   * earlier copy is the one removed.
   */
  lemma {:induction false} AssignThenComplete(tasks: seq<string>, task: string)
    ensures multiset(RemoveFirst(tasks + [task], task)) == multiset(tasks)
    ensures task !in tasks ==> RemoveFirst(tasks + [task], task) == tasks
  {
    RemoveFirstMultiset(tasks + [task], task);
    assert multiset(tasks + [task]) == multiset(tasks) + multiset{task};
    if task !in tasks {
      assert (tasks + [task])[..|tasks|] == tasks;
      RemoveFirstAt(tasks + [task], task, |tasks|);
      assert (tasks + [task])[|tasks| + 1..] == [];
    }
  }
}
