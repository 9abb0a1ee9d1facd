/** The statistics computed over the registry: attendance percentage and
    average scores per student, per course and per school. Values are exact
    reals; the rounding to two decimals applied on return is not modelled. */
module Stats {

  import opened Sums
  import opened Schools

  /** The enrollments of one student of one school. */
  function Enrolled(schools: map<string, School>, schoolName: string, studentId: int): seq<Enrollment>
    requires schoolName in schools && studentId in schools[schoolName].students
  {
    schools[schoolName].students[studentId].enrolled
  }

  // ---------------------------------------------------------------------------
  // Attendance

  /** The classes attended recorded by each enrollment, in list order. */
  function Attendances(es: seq<Enrollment>): (xs: seq<int>)
    ensures |xs| == |es|
    ensures forall i :: 0 <= i < |es| ==> xs[i] == es[i].attendance
  {
    seq(|es|, i requires 0 <= i < |es| => es[i].attendance)
  }

  /** Classes attended, summed over a list of enrollments. */
  function Attended(es: seq<Enrollment>): int
  {
    Sum(Attendances(es))
  }

  /** The number of classes of each course of the school that the enrollments name. */
  function EnrolledClasses(school: School, es: seq<Enrollment>): map<string, real>
  {
    map c | c in school.courses && c in CourseNames(es) :: school.courses[c].classesCount as real
  }

  /** Classes offered by the courses of the school that the enrollments name,
      each such course counted once. */
  ghost function OfferedClasses(school: School, es: seq<Enrollment>): real
  {
    SumValues(EnrolledClasses(school, es))
  }

  /** Attendance percentage of a student: classes attended over classes offered
      by the courses the student is enrolled in, times 100. The source divides
      without a guard, so a zero total is excluded. */
  ghost function Attendance(schools: map<string, School>, schoolName: string, studentId: int): real
    requires schoolName in schools && studentId in schools[schoolName].students
    requires OfferedClasses(schools[schoolName], Enrolled(schools, schoolName, studentId)) != 0.0
  {
    var es := Enrolled(schools, schoolName, studentId);
    Attended(es) as real / OfferedClasses(schools[schoolName], es) * 100.0
  }

  /** Classes offered by the course of each enrollment, summed along the list. */
  function ClassesAlong(school: School, es: seq<Enrollment>): int
    requires forall i :: 0 <= i < |es| ==> es[i].courseName in school.courses
  {
    if es == [] then 0
    else ClassesAlong(school, es[..|es| - 1]) + school.courses[es[|es| - 1].courseName].classesCount
  }

  /** When no course is named twice and every named course exists, the classes
      offered are the sum along the enrollment list. */
  lemma {:induction false} OfferedClassesAlong(school: School, es: seq<Enrollment>)
    requires DistinctCourseNames(es)
    requires forall i :: 0 <= i < |es| ==> es[i].courseName in school.courses
    ensures OfferedClasses(school, es) == ClassesAlong(school, es) as real
    decreases |es|
  {
    if es == [] {
      assert EnrolledClasses(school, es) == map[];
    } else {
      var init, last := es[..|es| - 1], es[|es| - 1];
      assert CourseNames(es) == CourseNames(init) + [last.courseName];
      assert DistinctCourseNames(init) by {
        forall i, j | 0 <= i < j < |init|
          ensures init[i].courseName != init[j].courseName
        {
          assert init[i] == es[i] && init[j] == es[j];
        }
      }
      assert last.courseName !in CourseNames(init) by {
        forall i | 0 <= i < |init|
          ensures CourseNames(init)[i] != last.courseName
        {
          assert init[i] == es[i];
        }
      }
      var m := EnrolledClasses(school, es);
      var m' := EnrolledClasses(school, init);
      assert m - {last.courseName} == m';
      SumValuesRemove(m, last.courseName);
      OfferedClassesAlong(school, init);
    }
  }

  /** Attendance bounded by each course's classes stays bounded by the sum. */
  lemma {:induction false} AttendedAtMostClasses(school: School, es: seq<Enrollment>)
    requires forall i :: 0 <= i < |es| ==> es[i].courseName in school.courses
    requires forall i :: 0 <= i < |es| ==>
      0 <= es[i].attendance <= school.courses[es[i].courseName].classesCount
    ensures 0 <= Attended(es) <= ClassesAlong(school, es)
    decreases |es|
  {
    if es != [] {
      var init := es[..|es| - 1];
      assert forall i :: 0 <= i < |init| ==> init[i] == es[i];
      assert Attendances(es)[..|es| - 1] == Attendances(init);
      AttendedAtMostClasses(school, init);
    }
  }

  /** A student enrolled at most once per course, only in courses of the school,
      and never attending more classes than a course holds, has an attendance
      percentage between 0 and 100. */
  lemma AttendanceWithinPercent(schools: map<string, School>, schoolName: string, studentId: int)
    requires schoolName in schools && studentId in schools[schoolName].students
    requires DistinctCourseNames(Enrolled(schools, schoolName, studentId))
    requires forall e :: e in Enrolled(schools, schoolName, studentId) ==>
      e.courseName in schools[schoolName].courses &&
      0 <= e.attendance <= schools[schoolName].courses[e.courseName].classesCount
    requires OfferedClasses(schools[schoolName], Enrolled(schools, schoolName, studentId)) != 0.0
    ensures 0.0 <= Attendance(schools, schoolName, studentId) <= 100.0
  {
    var school, es := schools[schoolName], Enrolled(schools, schoolName, studentId);
    assert forall i :: 0 <= i < |es| ==> es[i] in es;
    OfferedClassesAlong(school, es);
    AttendedAtMostClasses(school, es);
    var a, t := Attended(es) as real, OfferedClasses(school, es);
    QuotientWithin(a, t, 0.0, 1.0);
  }

  /** 15 classes attended out of 20 offered by the enrolled courses is 75%;
      a course the student is not enrolled in does not count. */
  lemma AttendanceExample()
    ensures var schools := map["Pierwsza" := School(
              map["spawanie" := Course("Jan Nowak", 12), "stolarka" := Course("Jan Kowal", 8),
                  "wedkarstwo" := Course("Jan Stary", 30)],
              map[1 := Student("Zygmunt", "Sloma",
                    [Enrollment("spawanie", 9, [50]), Enrollment("stolarka", 6, [70])])])];
            && OfferedClasses(schools["Pierwsza"], Enrolled(schools, "Pierwsza", 1)) == 20.0
            && Attendance(schools, "Pierwsza", 1) == 75.0
  {
    var courses := map["spawanie" := Course("Jan Nowak", 12), "stolarka" := Course("Jan Kowal", 8),
                       "wedkarstwo" := Course("Jan Stary", 30)];
    var es := [Enrollment("spawanie", 9, [50]), Enrollment("stolarka", 6, [70])];
    var school := School(courses, map[1 := Student("Zygmunt", "Sloma", es)]);
    assert CourseNames(es) == ["spawanie", "stolarka"];
    assert DistinctCourseNames(es);
    OfferedClassesAlong(school, es);
    assert es[..1] == [es[0]] && [es[0]][..0] == [];
    assert ClassesAlong(school, []) == 0;
    assert ClassesAlong(school, [es[0]]) == 12;
    assert ClassesAlong(school, es) == 20;
    assert Attendances(es) == [9, 6];
    assert [9, 6][..1] == [9] && [9][..0] == [];
    assert Sum([9, 6]) == 15;
  }

  // ---------------------------------------------------------------------------
  // Average score of a student in one course

  /** Index of the first enrollment for `course`, as a scan from the front finds it. */
  function FirstMatch(es: seq<Enrollment>, course: string): (i: nat)
    requires course in CourseNames(es)
    ensures i < |es| && es[i].courseName == course
    ensures forall j :: 0 <= j < i ==> es[j].courseName != course
    decreases |es|
  {
    var init := es[..|es| - 1];
    assert CourseNames(es) == CourseNames(init) + [es[|es| - 1].courseName];
    if course in CourseNames(init) then FirstMatch(init, course) else |es| - 1
  }

  /** Mean score of a student in a course, from the first enrollment for that
      course. The source fails when there is no such enrollment or its score
      list is empty; both are excluded. */
  function StudentCourseAverage(schools: map<string, School>, schoolName: string, studentId: int, course: string): (r: real)
    requires schoolName in schools && studentId in schools[schoolName].students
    requires course in CourseNames(Enrolled(schools, schoolName, studentId))
    requires |Enrolled(schools, schoolName, studentId)[FirstMatch(Enrolled(schools, schoolName, studentId), course)].scores| > 0
    ensures var es := Enrolled(schools, schoolName, studentId);
      exists i :: 0 <= i < |es| && es[i].courseName == course
        && (forall j :: 0 <= j < i ==> es[j].courseName != course)
        && r == Mean(es[i].scores)
  {
    var es := Enrolled(schools, schoolName, studentId);
    Mean(es[FirstMatch(es, course)].scores)
  }

  /** With every course named at most once, the enrollment for the course is the
      only one, so the average is simply the mean of its scores. */
  lemma StudentCourseAverageOfDistinct(schools: map<string, School>, schoolName: string, studentId: int, course: string, i: int)
    requires schoolName in schools && studentId in schools[schoolName].students
    requires DistinctCourseNames(Enrolled(schools, schoolName, studentId))
    requires 0 <= i < |Enrolled(schools, schoolName, studentId)|
    requires Enrolled(schools, schoolName, studentId)[i].courseName == course
    requires |Enrolled(schools, schoolName, studentId)[i].scores| > 0
    ensures course in CourseNames(Enrolled(schools, schoolName, studentId))
    ensures StudentCourseAverage(schools, schoolName, studentId, course) == Mean(Enrolled(schools, schoolName, studentId)[i].scores)
  {
    var es := Enrolled(schools, schoolName, studentId);
    assert CourseNames(es)[i] == course;
    var f := FirstMatch(es, course);
    assert f == i;
  }

  /** Scores 80, 90 and 70 average to 80. */
  lemma StudentCourseAverageExample()
    ensures var schools := map["Trzecia" := School(map[], map[7 := Student("Jan", "Mlody",
              [Enrollment("gotowanie", 3, [100]), Enrollment("nurkowanie", 4, [80, 90, 70])])])];
            StudentCourseAverage(schools, "Trzecia", 7, "nurkowanie") == 80.0
  {
    var es := [Enrollment("gotowanie", 3, [100]), Enrollment("nurkowanie", 4, [80, 90, 70])];
    var schools := map["Trzecia" := School(map[], map[7 := Student("Jan", "Mlody", es)])];
    assert DistinctCourseNames(es);
    StudentCourseAverageOfDistinct(schools, "Trzecia", 7, "nurkowanie", 1);
    var xs := [80, 90, 70];
    assert xs[..2] == [80, 90] && [80, 90][..1] == [80] && [80][..0] == [];
    assert Sum([80]) == 80;
    assert Sum([80, 90]) == 170;
    assert Sum(xs) == 240;
  }

  // ---------------------------------------------------------------------------
  // Average score of a student over all courses

  /** Every enrollment has at least one score. */
  predicate AllScored(es: seq<Enrollment>)
  {
    forall i :: 0 <= i < |es| ==> |es[i].scores| > 0
  }

  /** The mean score of each enrollment, in order. */
  function EnrollmentMeans(es: seq<Enrollment>): (ms: seq<real>)
    requires AllScored(es)
    ensures |ms| == |es|
    ensures forall i :: 0 <= i < |es| ==> ms[i] == Mean(es[i].scores)
  {
    if es == [] then []
    else EnrollmentMeans(es[..|es| - 1]) + [Mean(es[|es| - 1].scores)]
  }

  /** Average score of a student: the mean of the per-enrollment means, each
      course weighing the same whatever its number of scores. The source fails
      on a student with no enrollment or an enrollment without scores. */
  function StudentAverage(schools: map<string, School>, schoolName: string, studentId: int): real
    requires schoolName in schools && studentId in schools[schoolName].students
    requires |Enrolled(schools, schoolName, studentId)| > 0
    requires AllScored(Enrolled(schools, schoolName, studentId))
  {
    MeanReal(EnrollmentMeans(Enrolled(schools, schoolName, studentId)))
  }

  /** With all scores between lo and hi, so is the student's average. */
  lemma StudentAverageWithin(schools: map<string, School>, schoolName: string, studentId: int, lo: int, hi: int)
    requires schoolName in schools && studentId in schools[schoolName].students
    requires |Enrolled(schools, schoolName, studentId)| > 0
    requires AllScored(Enrolled(schools, schoolName, studentId))
    requires forall i, k :: (0 <= i < |Enrolled(schools, schoolName, studentId)| &&
      0 <= k < |Enrolled(schools, schoolName, studentId)[i].scores|) ==>
      lo <= Enrolled(schools, schoolName, studentId)[i].scores[k] <= hi
    ensures lo as real <= StudentAverage(schools, schoolName, studentId) <= hi as real
  {
    var es := Enrolled(schools, schoolName, studentId);
    var ms := EnrollmentMeans(es);
    forall i | 0 <= i < |ms|
      ensures lo as real <= ms[i] <= hi as real
    {
      MeanWithin(es[i].scores, lo, hi);
    }
    MeanRealWithin(ms, lo as real, hi as real);
  }

  /** A student with the single score 100 in one course and 50, 60, 70 in another
      averages 80, the mean of the two course means, not 70, the mean of all
      four scores. */
  lemma StudentAverageExample()
    ensures var schools := map["Pierwsza" := School(map[], map[3 := Student("Dariusz", "Kowal",
              [Enrollment("informatyka", 10, [100]), Enrollment("stolarka", 12, [50, 60, 70])])])];
            && StudentAverage(schools, "Pierwsza", 3) == 80.0
            && Mean([100, 50, 60, 70]) == 70.0
  {
    var es := [Enrollment("informatyka", 10, [100]), Enrollment("stolarka", 12, [50, 60, 70])];
    var ms := EnrollmentMeans(es);
    var a, b := [100], [50, 60, 70];
    assert a[..0] == [] && Sum(a) == 100;
    assert b[..2] == [50, 60] && [50, 60][..1] == [50] && [50][..0] == [];
    assert Sum([50]) == 50;
    assert Sum([50, 60]) == 110;
    assert Sum(b) == 180;
    assert ms == [100.0, 60.0];
    assert [100.0, 60.0][..1] == [100.0] && [100.0][..0] == [];
    assert SumReal([100.0]) == 100.0;
    assert SumReal(ms) == 160.0;
    var c := [100, 50, 60, 70];
    assert c[..3] == [100, 50, 60] && [100, 50, 60][..2] == [100, 50] && [100, 50][..1] == [100];
    assert [100][..0] == [];
    assert Sum([100]) == 100;
    assert Sum([100, 50]) == 150;
    assert Sum([100, 50, 60]) == 210;
    assert Sum(c) == 280;
  }

  // ---------------------------------------------------------------------------
  // Average score of a course over all students of a school

  /** Every enrollment for `course` has at least one score. */
  predicate ScoredFor(es: seq<Enrollment>, course: string)
  {
    forall i :: 0 <= i < |es| && es[i].courseName == course ==> |es[i].scores| > 0
  }

  /** The enrollments for `course`, in list order: exactly the enrollments of
      the list that name the course. */
  function Matching(es: seq<Enrollment>, course: string): (r: seq<Enrollment>)
    ensures forall e :: e in r ==> e in es && e.courseName == course
    ensures forall e :: e in es && e.courseName == course ==> e in r
    ensures |r| <= |es|
    decreases |es|
  {
    if es == [] then []
    else
      var init, last := es[..|es| - 1], es[|es| - 1];
      assert forall e :: e in es ==> e in init || e == last;
      Matching(init, course) + (if last.courseName == course then [last] else [])
  }

  /** Filtering a list extended by one enrollment keeps the enrollments already
      selected, in their order, and adds the new one at the end exactly when it
      is for the course: one entry per matching enrollment, in list order. */
  lemma MatchingAppend(es: seq<Enrollment>, e: Enrollment, course: string)
    ensures Matching([], course) == []
    ensures Matching(es + [e], course) == Matching(es, course) + (if e.courseName == course then [e] else [])
  {
    assert (es + [e])[..|es|] == es;
  }

  /** The means of the enrollments for `course`, in list order, one per
      enrollment for it (see MatchingMeansContents); empty exactly when the
      list has no enrollment for it. */
  function MatchingMeans(es: seq<Enrollment>, course: string): (ms: seq<real>)
    requires ScoredFor(es, course)
    ensures |ms| == 0 <==> course !in CourseNames(es)
    ensures |ms| <= |es|
    decreases |es|
  {
    if es == [] then []
    else
      var init, last := es[..|es| - 1], es[|es| - 1];
      assert CourseNames(es) == CourseNames(init) + [last.courseName];
      MatchingMeans(init, course) + (if last.courseName == course then [Mean(last.scores)] else [])
  }

  /** The means contributed by a list of enrollments are the means of exactly
      its enrollments for the course, in list order. */
  lemma {:induction false} MatchingMeansContents(es: seq<Enrollment>, course: string)
    requires ScoredFor(es, course)
    ensures AllScored(Matching(es, course))
    ensures MatchingMeans(es, course) == EnrollmentMeans(Matching(es, course))
    decreases |es|
  {
    if es != [] {
      var init, last := es[..|es| - 1], es[|es| - 1];
      assert ScoredFor(init, course) by {
        forall i | 0 <= i < |init| && init[i].courseName == course
          ensures |init[i].scores| > 0
        {
          assert init[i] == es[i];
        }
      }
      MatchingMeansContents(init, course);
      var m := Matching(init, course);
      if last.courseName == course {
        assert Matching(es, course) == m + [last];
        assert (m + [last])[..|m|] == m;
      } else {
        assert Matching(es, course) == m;
      }
    }
  }

  /** A student enrolled once in `course` contributes exactly the mean of that
      enrollment. */
  lemma {:induction false} MatchingMeansOfDistinct(es: seq<Enrollment>, course: string, i: int)
    requires DistinctCourseNames(es) && ScoredFor(es, course)
    requires 0 <= i < |es| && es[i].courseName == course
    ensures MatchingMeans(es, course) == [Mean(es[i].scores)]
    decreases |es|
  {
    var init, last := es[..|es| - 1], es[|es| - 1];
    if i == |es| - 1 {
      assert course !in CourseNames(init) by {
        forall j | 0 <= j < |init|
          ensures CourseNames(init)[j] != course
        {
          assert init[j] == es[j];
        }
      }
    } else {
      assert init[i] == es[i];
      assert last.courseName != course;
      assert DistinctCourseNames(init) by {
        forall a, b | 0 <= a < b < |init|
          ensures init[a].courseName != init[b].courseName
        {
          assert init[a] == es[a] && init[b] == es[b];
        }
      }
      MatchingMeansOfDistinct(init, course, i);
    }
  }

  /** Each mean in the list lies between lo and hi when all the scores do. */
  lemma {:induction false} MatchingMeansWithin(es: seq<Enrollment>, course: string, lo: int, hi: int)
    requires ScoredFor(es, course)
    requires forall i, k :: 0 <= i < |es| && es[i].courseName == course && 0 <= k < |es[i].scores| ==>
      lo <= es[i].scores[k] <= hi
    ensures forall j :: 0 <= j < |MatchingMeans(es, course)| ==>
      lo as real <= MatchingMeans(es, course)[j] <= hi as real
    decreases |es|
  {
    if es != [] {
      var init, last := es[..|es| - 1], es[|es| - 1];
      assert forall i :: 0 <= i < |init| ==> init[i] == es[i];
      MatchingMeansWithin(init, course, lo, hi);
      if last.courseName == course {
        MeanWithin(last.scores, lo, hi);
      }
    }
  }

  /** Every student's enrollments for `course` have scores. */
  ghost predicate StudentsScoredFor(students: map<int, Student>, course: string)
  {
    forall id :: id in students ==> ScoredFor(students[id].enrolled, course)
  }

  /** The source can average a course when every enrollment for it has scores
      and at least one student is enrolled in it. */
  ghost predicate CourseAverageDefined(school: School, course: string)
  {
    && StudentsScoredFor(school.students, course)
    && exists id :: id in school.students && course in CourseNames(school.students[id].enrolled)
  }

  /** Per student, the sum of the means of their enrollments for `course`. */
  function MeanTotals(students: map<int, Student>, course: string): map<int, real>
    requires StudentsScoredFor(students, course)
  {
    map id | id in students :: SumReal(MatchingMeans(students[id].enrolled, course))
  }

  /** Per student, the number of their enrollments for `course`. */
  function MatchCounts(students: map<int, Student>, course: string): map<int, real>
    requires StudentsScoredFor(students, course)
  {
    map id | id in students :: |MatchingMeans(students[id].enrolled, course)| as real
  }

  /** Some student is enrolled, so there is at least one mean to average. */
  lemma MatchCountsPositive(school: School, course: string)
    requires CourseAverageDefined(school, course)
    ensures SumValues(MatchCounts(school.students, course)) >= 1.0
  {
    var id :| id in school.students && course in CourseNames(school.students[id].enrolled);
    SumValuesAtLeast(MatchCounts(school.students, course), id);
  }

  /** Average score of a course: the mean, over every enrollment for it in the
      school, of that enrollment's mean score (a mean of means). */
  ghost function CourseAverage(school: School, course: string): real
    requires CourseAverageDefined(school, course)
  {
    MatchCountsPositive(school, course);
    SumValues(MeanTotals(school.students, course)) / SumValues(MatchCounts(school.students, course))
  }

  /** Collects the means of every enrollment for the course, student by student,
      and returns their mean. */
  method AverageForCourse(schools: map<string, School>, schoolName: string, course: string) returns (avg: real)
    requires schoolName in schools && CourseAverageDefined(schools[schoolName], course)
    ensures avg == CourseAverage(schools[schoolName], course)
  {
    var students := schools[schoolName].students;
    ghost var totals, counts := MeanTotals(students, course), MatchCounts(students, course);
    var scores: seq<real> := [];
    var pending := students.Keys;
    while pending != {}
      invariant pending <= students.Keys
      invariant SumReal(scores) == SumValues(totals - pending)
      invariant |scores| as real == SumValues(counts - pending)
      decreases pending
    {
      var id := Choose(pending);
      var means := MatchingMeans(students[id].enrolled, course);
      SumRealAppend(scores, means);
      SumValuesVisit(totals, pending, id);
      SumValuesVisit(counts, pending, id);
      scores := scores + means;
      pending := pending - {id};
    }
    assert totals - {} == totals && counts - {} == counts;
    MatchCountsPositive(schools[schoolName], course);
    avg := MeanReal(scores);
  }

  /** With a student enrolled at most once per course, that student adds
      one mean, their average in the course, if enrolled in it, and nothing
      otherwise: the course average is the mean of the per-student averages. */
  lemma CourseTermsOfDistinct(schools: map<string, School>, schoolName: string, course: string, id: int)
    requires schoolName in schools && id in schools[schoolName].students
    requires DistinctCourseNames(Enrolled(schools, schoolName, id))
    requires StudentsScoredFor(schools[schoolName].students, course)
    ensures var totals, counts := MeanTotals(schools[schoolName].students, course), MatchCounts(schools[schoolName].students, course);
      if course in CourseNames(Enrolled(schools, schoolName, id)) then
        counts[id] == 1.0 && totals[id] == StudentCourseAverage(schools, schoolName, id, course)
      else
        counts[id] == 0.0 && totals[id] == 0.0
  {
    var es := Enrolled(schools, schoolName, id);
    if course in CourseNames(es) {
      var i := FirstMatch(es, course);
      MatchingMeansOfDistinct(es, course, i);
      StudentCourseAverageOfDistinct(schools, schoolName, id, course, i);
      assert SumReal([Mean(es[i].scores)]) == Mean(es[i].scores) by {
        assert [Mean(es[i].scores)][..0] == [];
      }
    }
  }

  /** Per-student means 80 (scores 70 and 90) and 60 (score 60) give a course
      average of 70, not 73.33..., the mean of the three scores; an enrollment
      in another course does not count. */
  lemma CourseAverageExample()
    ensures var school := School(map["spawanie" := Course("Jan Sloma", 15), "gotowanie" := Course("Jan Mlody", 10)],
              map[1 := Student("Kazimierz", "Nowak", [Enrollment("spawanie", 5, [70, 90])]),
                  2 := Student("Mariusz", "Janusz", [Enrollment("spawanie", 4, [60]), Enrollment("gotowanie", 3, [100])])]);
            && CourseAverageDefined(school, "spawanie")
            && CourseAverage(school, "spawanie") == 70.0
            && Mean([70, 90, 60]) != 70.0
  {
    var e1 := [Enrollment("spawanie", 5, [70, 90])];
    var e2 := [Enrollment("spawanie", 4, [60]), Enrollment("gotowanie", 3, [100])];
    var students := map[1 := Student("Kazimierz", "Nowak", e1), 2 := Student("Mariusz", "Janusz", e2)];
    var school := School(map["spawanie" := Course("Jan Sloma", 15), "gotowanie" := Course("Jan Mlody", 10)], students);
    assert StudentsScoredFor(students, "spawanie") by {
      assert ScoredFor(e1, "spawanie") && ScoredFor(e2, "spawanie");
    }
    assert CourseAverageDefined(school, "spawanie") by {
      assert CourseNames(e1)[0] == "spawanie";
      assert 1 in school.students && "spawanie" in CourseNames(school.students[1].enrolled);
    }
    ExampleSums(e1, e2);
    assert CourseAverage(school, "spawanie") == 140.0 / 2.0;
    assert Sum([70, 90, 60]) == 220 by {
      var c := [70, 90, 60];
      assert c[..2] == [70, 90] && [70, 90][..1] == [70] && [70][..0] == [];
    }
  }

  /** The sums behind the course average example: totals 80 + 60 over counts 1 + 1. */
  lemma ExampleSums(e1: seq<Enrollment>, e2: seq<Enrollment>)
    requires e1 == [Enrollment("spawanie", 5, [70, 90])]
    requires e2 == [Enrollment("spawanie", 4, [60]), Enrollment("gotowanie", 3, [100])]
    ensures var students := map[1 := Student("Kazimierz", "Nowak", e1), 2 := Student("Mariusz", "Janusz", e2)];
            && StudentsScoredFor(students, "spawanie")
            && SumValues(MeanTotals(students, "spawanie")) == 140.0
            && SumValues(MatchCounts(students, "spawanie")) == 2.0
  {
    var students := map[1 := Student("Kazimierz", "Nowak", e1), 2 := Student("Mariusz", "Janusz", e2)];
    assert StudentsScoredFor(students, "spawanie") by {
      assert ScoredFor(e1, "spawanie") && ScoredFor(e2, "spawanie");
    }
    ExampleMeans(e1, e2);
    var totals, counts := MeanTotals(students, "spawanie"), MatchCounts(students, "spawanie");
    assert SumValues(totals) == 140.0 by {
      assert [80.0][..0] == [] && [60.0][..0] == [];
      assert totals.Keys == {1, 2};
      assert totals[1] == 80.0 && totals[2] == 60.0;
      SumValuesOfTwo(totals, 1, 2);
    }
    assert SumValues(counts) == 2.0 by {
      assert counts.Keys == {1, 2};
      assert counts[1] == 1.0 && counts[2] == 1.0;
      SumValuesOfTwo(counts, 1, 2);
    }
  }

  /** The per-enrollment means behind the course average example. */
  lemma ExampleMeans(e1: seq<Enrollment>, e2: seq<Enrollment>)
    requires e1 == [Enrollment("spawanie", 5, [70, 90])]
    requires e2 == [Enrollment("spawanie", 4, [60]), Enrollment("gotowanie", 3, [100])]
    ensures ScoredFor(e1, "spawanie") && MatchingMeans(e1, "spawanie") == [80.0]
    ensures ScoredFor(e2, "spawanie") && MatchingMeans(e2, "spawanie") == [60.0]
  {
    assert ScoredFor(e1, "spawanie") && ScoredFor(e2, "spawanie");
    assert MatchingMeans(e1, "spawanie") == [80.0] by {
      assert DistinctCourseNames(e1);
      MatchingMeansOfDistinct(e1, "spawanie", 0);
      var a := [70, 90];
      assert a[..1] == [70] && [70][..0] == [];
      assert Sum(a) == 160;
    }
    assert MatchingMeans(e2, "spawanie") == [60.0] by {
      assert DistinctCourseNames(e2);
      MatchingMeansOfDistinct(e2, "spawanie", 0);
      var b := [60];
      assert b[..0] == [];
      assert Sum(b) == 60;
    }
  }

  /** All the scores of the enrollments for `course` in the school lie between 0 and 100. */
  ghost predicate CourseScoresInRange(students: map<int, Student>, course: string)
  {
    forall id :: id in students ==>
      forall i, k :: (0 <= i < |students[id].enrolled| && students[id].enrolled[i].courseName == course
                      && 0 <= k < |students[id].enrolled[i].scores|) ==>
        0 <= students[id].enrolled[i].scores[k] <= 100
  }

  /** One student's total of means for the course lies between 0 and 100 times
      their number of enrollments for it. */
  lemma StudentTotalInRange(es: seq<Enrollment>, course: string)
    requires ScoredFor(es, course)
    requires forall i, k :: (0 <= i < |es| && es[i].courseName == course && 0 <= k < |es[i].scores|) ==>
      0 <= es[i].scores[k] <= 100
    ensures 0.0 <= SumReal(MatchingMeans(es, course)) <= 100.0 * |MatchingMeans(es, course)| as real
  {
    MatchingMeansWithin(es, course, 0, 100);
    SumRealWithin(MatchingMeans(es, course), 0.0, 100.0);
  }

  /** Key by key, each student's total of means lies between 0 and 100 times
      their number of enrollments for the course. */
  lemma TotalsInRange(students: map<int, Student>, course: string)
    requires StudentsScoredFor(students, course)
    requires CourseScoresInRange(students, course)
    ensures forall id :: id in MeanTotals(students, course) ==>
      0.0 <= MeanTotals(students, course)[id] <= 100.0 * MatchCounts(students, course)[id]
  {
    var totals, counts := MeanTotals(students, course), MatchCounts(students, course);
    forall id | id in totals
      ensures 0.0 <= totals[id] <= 100.0 * counts[id]
    {
      assert id in students;
      StudentTotalInRange(students[id].enrolled, course);
    }
  }

  /** With all the scores for the course between 0 and 100, so is its average. */
  lemma CourseAverageInRange(school: School, course: string)
    requires CourseAverageDefined(school, course)
    requires CourseScoresInRange(school.students, course)
    ensures 0.0 <= CourseAverage(school, course) <= 100.0
  {
    var totals, counts := MeanTotals(school.students, course), MatchCounts(school.students, course);
    TotalsInRange(school.students, course);
    assert totals.Keys == counts.Keys;
    forall id | id in totals
      ensures 0.0 <= totals[id] <= 100.0 * counts[id]
    {
    }
    MatchCountsPositive(school, course);
    RatioOfSumsWithin(totals, counts);
  }

  // ---------------------------------------------------------------------------
  // Averages per school

  /** The average of every course of a school, keyed by course name. */
  ghost function SchoolCourseAverages(schools: map<string, School>, schoolName: string): (r: map<string, real>)
    requires schoolName in schools
    requires forall c :: c in schools[schoolName].courses ==> CourseAverageDefined(schools[schoolName], c)
    ensures r.Keys == schools[schoolName].courses.Keys
    ensures forall c :: c in r ==> r[c] == CourseAverage(schools[schoolName], c)
  {
    map c | c in schools[schoolName].courses :: CourseAverage(schools[schoolName], c)
  }

  /** The average of every student of a school, keyed by student id. */
  function SchoolStudentAverages(schools: map<string, School>, schoolName: string): (r: map<int, real>)
    requires schoolName in schools
    requires forall id :: id in schools[schoolName].students ==>
      |Enrolled(schools, schoolName, id)| > 0 && AllScored(Enrolled(schools, schoolName, id))
    ensures r.Keys == schools[schoolName].students.Keys
    ensures forall id :: id in r ==> r[id] == StudentAverage(schools, schoolName, id)
  {
    map id | id in schools[schoolName].students :: StudentAverage(schools, schoolName, id)
  }
}
