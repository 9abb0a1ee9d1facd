/** The registry of schools, courses and students, the counter that hands
    out student ids, and the operations that add to the registry. */
module Schools {

  import opened Sums

  /** A course of a school: who teaches it and how many classes it holds. */
  datatype Course = Course(teacher: string, classesCount: int)

  /** One student's record for one course: classes attended and the scores received. */
  datatype Enrollment = Enrollment(courseName: string, attendance: int, scores: seq<int>)

  /** A student, with the enrollments in the order they were made. */
  datatype Student = Student(firstName: string, lastName: string, enrolled: seq<Enrollment>)

  /** A school: its courses by name and its students by id. */
  datatype School = School(courses: map<string, Course>, students: map<int, Student>)

  /** The course names of a list of enrollments, in order. */
  function CourseNames(es: seq<Enrollment>): (names: seq<string>)
    ensures |names| == |es|
    ensures forall i :: 0 <= i < |es| ==> names[i] == es[i].courseName
  {
    if es == [] then [] else CourseNames(es[..|es| - 1]) + [es[|es| - 1].courseName]
  }

  /** No course name occurs twice in a list of enrollments. */
  predicate DistinctCourseNames(es: seq<Enrollment>)
  {
    forall i, j :: 0 <= i < j < |es| ==> es[i].courseName != es[j].courseName
  }

  /** Every student of every school is enrolled at most once per course name. */
  ghost predicate WellFormed(schools: map<string, School>)
  {
    forall s, id :: s in schools && id in schools[s].students ==>
      DistinctCourseNames(schools[s].students[id].enrolled)
  }

  /** Every student id in the registry is below `bound`. */
  ghost predicate IdsBelow(schools: map<string, School>, bound: int)
  {
    forall s, id :: s in schools && id in schools[s].students ==> id < bound
  }

  /** Some school has some student with this id. */
  ghost predicate HasId(schools: map<string, School>, id: int)
  {
    exists s :: s in schools && id in schools[s].students
  }

  /** Each id is the one before it plus one. */
  ghost predicate Consecutive(ids: seq<int>)
  {
    forall i :: 0 <= i < |ids| - 1 ==> ids[i + 1] == ids[i] + 1
  }

  /** Consecutive ids have no gaps and rise strictly: the id at position j is
      the id at position i plus j - i. */
  lemma {:induction false} ConsecutiveSpan(ids: seq<int>)
    requires Consecutive(ids)
    ensures forall i, j :: 0 <= i <= j < |ids| ==> ids[j] == ids[i] + (j - i)
    ensures forall i, j :: 0 <= i < j < |ids| ==> ids[i] < ids[j]
    decreases |ids|
  {
    if |ids| > 1 {
      var init := ids[..|ids| - 1];
      assert Consecutive(init) by {
        forall i | 0 <= i < |init| - 1
          ensures init[i + 1] == init[i] + 1
        {
          assert init[i] == ids[i] && init[i + 1] == ids[i + 1];
        }
      }
      ConsecutiveSpan(init);
      forall i, j | 0 <= i <= j < |ids|
        ensures ids[j] == ids[i] + (j - i)
      {
        if j < |ids| - 1 {
          assert ids[i] == init[i] && ids[j] == init[j];
        } else if i < j {
          assert ids[i] == init[i] && ids[j - 1] == init[j - 1];
          assert init[j - 1] == init[i] + (j - 1 - i);
        }
      }
    }
  }

  /** The largest element of a non-empty list, as Python's `max`. */
  function SeqMax(xs: seq<int>): (m: int)
    requires xs != []
    ensures m in xs
    ensures forall i :: 0 <= i < |xs| ==> xs[i] <= m
  {
    if |xs| == 1 then xs[0]
    else
      var rest := SeqMax(xs[..|xs| - 1]);
      if xs[|xs| - 1] > rest then xs[|xs| - 1] else rest
  }

  /** The first id a reloaded registry hands out: one past the largest student
      id found across all schools. The ids are gathered school by school into a
      list, then their maximum is taken. */
  method ReseedStart(loaded: map<string, School>) returns (start: int)
    requires exists s :: s in loaded && loaded[s].students != map[]
    ensures HasId(loaded, start - 1)
    ensures IdsBelow(loaded, start)
  {
    var ids: seq<int> := [];
    var pending := loaded.Keys;
    while pending != {}
      invariant pending <= loaded.Keys
      invariant forall i :: 0 <= i < |ids| ==> HasId(loaded, ids[i])
      invariant forall s, id :: s in loaded && s !in pending && id in loaded[s].students ==> id in ids
      decreases pending
    {
      var s := Choose(pending);
      var keys := loaded[s].students.Keys;
      while keys != {}
        invariant keys <= loaded[s].students.Keys
        invariant forall i :: 0 <= i < |ids| ==> HasId(loaded, ids[i])
        invariant forall t, id :: t in loaded && t !in pending && id in loaded[t].students ==> id in ids
        invariant forall id :: id in loaded[s].students && id !in keys ==> id in ids
        decreases keys
      {
        var k := Choose(keys);
        ids := ids + [k];
        keys := keys - {k};
      }
      pending := pending - {s};
    }
    var s :| s in loaded && loaded[s].students != map[];
    assert loaded[s].students.Keys != {};
    var id := Choose(loaded[s].students.Keys);
    assert id in ids;
    start := SeqMax(ids) + 1;
    forall t, k | t in loaded && k in loaded[t].students
      ensures k < start
    {
      assert k in ids;
    }
  }

  /** The process-wide registry together with the id counter that replaces the
      id generator. */
  class Registry {
    var schools: map<string, School>
    /** The next student id to hand out. */
    var nextId: int
    /** The ids handed out since the counter was last (re)started, oldest first. */
    ghost var issued: seq<int>

    /** The ids handed out are consecutive, ending just below the counter. */
    ghost predicate Valid()
      reads this
    {
      && Consecutive(issued)
      && (issued != [] ==> issued[|issued| - 1] == nextId - 1)
    }

    /** Every stored id is below the counter, so the counter hands out no id
        that is already in use. */
    ghost predicate IdsFresh()
      reads this
    {
      IdsBelow(schools, nextId)
    }

    /** An empty registry whose counter starts at 1. */
    constructor ()
      ensures Valid() && IdsFresh()
      ensures schools == map[] && nextId == 1 && issued == []
    {
      schools := map[];
      nextId := 1;
      issued := [];
    }

    /** Takes the next id from the counter. */
    method NextId() returns (id: int)
      requires Valid()
      modifies this
      ensures Valid()
      ensures id == old(nextId) && nextId == old(nextId) + 1
      ensures issued == old(issued) + [id]
      ensures schools == old(schools)
    {
      id := nextId;
      nextId := nextId + 1;
      issued := issued + [id];
    }

    /** Adds a school under a new name; a name already present is refused and
        nothing changes. */
    method AddSchool(name: string, courses: map<string, Course>, students: map<int, Student>)
      returns (added: bool)
      modifies this
      ensures added == (name !in old(schools))
      ensures added ==> schools == old(schools)[name := School(courses, students)]
      ensures !added ==> schools == old(schools)
      ensures nextId == old(nextId) && issued == old(issued)
      ensures old(IdsFresh()) && (forall id :: id in students ==> id < nextId) ==> IdsFresh()
      ensures old(WellFormed(schools)) && (forall id :: id in students ==> DistinctCourseNames(students[id].enrolled))
        ==> WellFormed(schools)
    {
      if name in schools {
        return false;
      }
      schools := schools[name := School(courses, students)];
      return true;
    }

    /** Adds a course to an existing school; a course name the school already has
        is refused and nothing changes. */
    method AddCourse(schoolName: string, courseName: string, teacher: string, classesCount: int)
      returns (added: bool)
      requires schoolName in schools
      modifies this
      ensures added == (courseName !in old(schools)[schoolName].courses)
      ensures added ==> schools == old(schools)[schoolName :=
        old(schools)[schoolName].(courses := old(schools)[schoolName].courses[courseName := Course(teacher, classesCount)])]
      ensures !added ==> schools == old(schools)
      ensures nextId == old(nextId) && issued == old(issued)
      ensures old(IdsFresh()) ==> IdsFresh()
      ensures old(WellFormed(schools)) ==> WellFormed(schools)
    {
      var school := schools[schoolName];
      if courseName in school.courses {
        return false;
      }
      schools := schools[schoolName := school.(courses := school.courses[courseName := Course(teacher, classesCount)])];
      return true;
    }

    /** Adds a student to an existing school under the next id from the counter,
        and returns that id. */
    method AddStudent(schoolName: string, firstName: string, lastName: string, enrolled: seq<Enrollment>)
      returns (id: int)
      requires schoolName in schools
      requires Valid()
      modifies this
      ensures id == old(nextId) && nextId == old(nextId) + 1
      ensures issued == old(issued) + [id]
      ensures schools == old(schools)[schoolName :=
        old(schools)[schoolName].(students := old(schools)[schoolName].students[id := Student(firstName, lastName, enrolled)])]
      ensures Valid()
      ensures old(IdsFresh()) ==> !HasId(old(schools), id) && IdsFresh()
      ensures old(WellFormed(schools)) && DistinctCourseNames(enrolled) ==> WellFormed(schools)
    {
      var school := schools[schoolName];
      id := NextId();
      schools := schools[schoolName := school.(students := school.students[id := Student(firstName, lastName, enrolled)])];
    }

    /** Enrolls an existing student of an existing school in a course; a course
        name the student is already enrolled in is refused and nothing changes. */
    method EnrollStudent(schoolName: string, studentId: int, courseName: string, attendance: int, scores: seq<int>)
      returns (enrolled: bool)
      requires schoolName in schools && studentId in schools[schoolName].students
      modifies this
      ensures enrolled == (courseName !in CourseNames(old(schools)[schoolName].students[studentId].enrolled))
      ensures enrolled ==> schools == old(schools)[schoolName := old(schools)[schoolName].(students :=
        old(schools)[schoolName].students[studentId := old(schools)[schoolName].students[studentId].(enrolled :=
          old(schools)[schoolName].students[studentId].enrolled + [Enrollment(courseName, attendance, scores)])])]
      ensures !enrolled ==> schools == old(schools)
      ensures nextId == old(nextId) && issued == old(issued)
      ensures old(IdsFresh()) ==> IdsFresh()
      ensures old(WellFormed(schools)) ==> WellFormed(schools)
    {
      var school := schools[schoolName];
      var student := school.students[studentId];
      if courseName in CourseNames(student.enrolled) {
        return false;
      }
      var student' := student.(enrolled := student.enrolled + [Enrollment(courseName, attendance, scores)]);
      AppendKeepsDistinct(student.enrolled, Enrollment(courseName, attendance, scores));
      schools := schools[schoolName := school.(students := school.students[studentId := student'])];
      return true;
    }

    /** Replaces the registry with one read back from storage. The registry is
        replaced first; an empty one, or one without any student, is reported as
        a failed load and leaves the counter where it was; otherwise the counter
        restarts one past the largest id. */
    method Load(loaded: map<string, School>) returns (ok: bool)
      modifies this
      ensures schools == loaded
      ensures ok == exists s :: s in loaded && loaded[s].students != map[]
      ensures ok ==> HasId(loaded, nextId - 1) && issued == []
      ensures !ok ==> nextId == old(nextId) && issued == old(issued)
      ensures old(Valid()) ==> Valid()
      ensures IdsFresh()
    {
      schools := loaded;
      if loaded == map[] {
        return false;
      }
      if forall s :: s in loaded ==> loaded[s].students == map[] {
        return false;
      }
      var start := ReseedStart(loaded);
      nextId := start;
      issued := [];
      return true;
    }
  }

  /** Appending an enrollment for a course not yet in the list keeps the names distinct. */
  lemma AppendKeepsDistinct(es: seq<Enrollment>, e: Enrollment)
    requires e.courseName !in CourseNames(es)
    ensures DistinctCourseNames(es) ==> DistinctCourseNames(es + [e])
  {
    var names := CourseNames(es);
    forall i | 0 <= i < |es|
      ensures es[i].courseName != e.courseName
    {
      assert names[i] == es[i].courseName;
    }
  }
}
