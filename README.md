# School registry: model and proofs

This project models the core of a small in-memory school registry. The
registry maps school names to schools. Each school holds courses (keyed by
name, with a teacher and a number of classes) and students (keyed by an
integer id, with a first and last name and a growing list of enrollments).
Each enrollment names a course and records the classes attended and the
scores received.

The model has three modules:

- `Sums` (`sums.dfy`) holds exact sums and means over sequences, the
  arithmetic behind `statistics.mean` and `sum`. It also holds `SumValues`,
  a sum over the values of a finite map that does not depend on the order
  in which the keys are visited.
- `Schools` (`schools.dfy`) holds the entities as datatypes and the
  registry as a class `Registry`. The class's fields are the registry map
  and an explicit id counter, `nextId`, which takes the place of the id
  generator. Its methods are the mutation operations and the reload, which
  restarts the counter past the largest stored id. A ghost field `issued`
  records the ids handed out since the counter last (re)started. `Valid()`
  says they are consecutive and end just below the counter. `IdsFresh()`
  says every stored id is below the counter, so the counter never hands
  out an id already in use.
- `Stats` (`stats.dfy`) holds the statistics:
  - attendance percentage;
  - a student's average in one course;
  - a student's average over all courses;
  - a course's average over all students, as both a specification function
    and the accumulating loop of the source;
  - the per-school maps of course and student averages.

  Every average is a mean of per-enrollment means, and lemmas pin this down
  with concrete counterexamples to a flat mean over all scores.

Values are exact reals. Where the source raises an exception (division by
zero, `mean` of an empty list, a missing key), the model puts a
precondition in its place.

## Model

| member | source | states |
|---|---|---|
| Schools.Registry.constructor | task.py:35-36 | The registry starts empty, and the counter starts at 1 with nothing issued; Valid and IdsFresh hold. |
| Schools.Registry.NextId | task.py:29-33 | Returns the counter's current value and advances the counter by exactly one; the issued ids stay consecutive and end just below the counter. |
| Schools.ConsecutiveSpan | task.py:29-33 | Ids issued by the counter have no gaps and strictly increase: the id at position j is the id at position i plus j - i. |
| Schools.Registry.AddSchool | task.py:38-46 | Refuses a name already present and changes nothing; otherwise adds exactly that school and leaves every other school and the counter as they were. Id freshness and distinct course names are kept when the supplied students respect them. |
| Schools.Registry.AddCourse | task.py:48-54 | For an existing school: refuses a course name the school already has and changes nothing; otherwise adds exactly that course with its teacher and class count. Other courses, schools and the counter are unchanged. |
| Schools.Registry.AddStudent | task.py:56-65 | For an existing school: returns the counter's value as the new id and advances the counter by one. It stores exactly that student under that id. When ids were fresh, no school already had this id, and ids stay fresh. |
| Schools.CourseNames | task.py:72 | The names of a list of enrollments, position by position. |
| Schools.Registry.EnrollStudent | task.py:67-76 | Refuses (returns false, nothing changes) exactly when the course name is already among the student's enrollments. Otherwise it appends exactly one enrollment at the end of that student's list and changes nothing else. Pairwise distinct course names are preserved. |
| Schools.AppendKeepsDistinct | task.py:72-75 | Appending an enrollment for a course not yet in the list keeps the course names pairwise distinct. |
| Schools.SeqMax | task.py:137 | The maximum of a non-empty list is one of its elements and at least every element. |
| Schools.ReseedStart | task.py:133-137 | Gathers every student id of every school into a list and returns its maximum plus one. The result minus one is a stored id, and every stored id is below the result. |
| Schools.Registry.Load | task.py:128-137 | The registry is always replaced by the loaded one. It reports success exactly when some school has a student. On success the counter restarts one past the largest stored id. On failure the counter is unchanged. Either way the stored ids are below the counter. |
| Sums.Sum | task.py:93 | The sum of a list of integers, the numerator of `statistics.mean` over scores (and, through Attended, the `sum` of attendances at line 83); SumWithin bounds it by its elements. |
| Sums.Mean | task.py:93 | `statistics.mean` of a non-empty list of integer scores: their sum over their number, exactly; MeanWithin keeps it within the scores' bounds. |
| Sums.MeanReal | task.py:103 | `statistics.mean` of a non-empty list of means: their sum over their number, exactly; MeanRealWithin keeps it within their bounds. |
| Stats.Attendances | task.py:83 | The attendance of each enrollment, one per enrollment, in list order. |
| Stats.Attended | task.py:83 | The classes attended: Sum of the attendance of every enrollment of the student; AttendedAtMostClasses bounds it. |
| Stats.EnrolledClasses | task.py:80-82 | The school's courses whose name appears among the student's enrollments, each once, with its class count. |
| Stats.OfferedClasses | task.py:80-82 | The attendance denominator: the sum of those class counts, in no particular order; OfferedClassesAlong equates it with the sum along the enrollment list. |
| Stats.Attendance | task.py:78-84 | `student_attendace`: classes attended over classes offered, times 100, for a non-zero denominator; AttendanceWithinPercent and AttendanceExample state its properties. |
| Stats.OfferedClassesAlong | task.py:80-82 | The denominator of the attendance (classes of the school's courses whose name the student's enrollments mention, each course once) equals the class counts summed along the enrollment list, when no course is named twice. |
| Stats.AttendedAtMostClasses | task.py:83 | The classes attended, summed over the enrollments, lie between 0 and the class counts summed along the list, when each enrollment attends at most its course's classes. |
| Stats.AttendanceWithinPercent | task.py:78-84 | For a student enrolled once per course, only in the school's courses, and never attending more classes than a course holds, the attendance percentage lies between 0 and 100. |
| Stats.AttendanceExample | task.py:78-84 | 9 + 6 classes attended of 12 + 8 offered gives 75; a course of the school that the student is not enrolled in is not counted. |
| Stats.FirstMatch | task.py:90-91 | The index of the first enrollment for the course: it matches, and no earlier one does. |
| Stats.StudentCourseAverage | task.py:87-93 | The mean of the scores of the first enrollment for the course, which the function requires to exist and to have scores. |
| Stats.StudentCourseAverageOfDistinct | task.py:87-93 | With course names distinct, the enrollment for the course at any index i is the one used, so the average is the mean of its scores. |
| Stats.StudentCourseAverageExample | task.py:87-93 | Scores 80, 90 and 70 average to 80, ignoring the student's other course. |
| Stats.EnrollmentMeans | task.py:107 | The mean of each enrollment's scores, in list order. |
| Stats.StudentAverage | task.py:105-108 | `average_score_for_student`: the mean of the per-enrollment means (EnrollmentMeans); StudentAverageWithin and StudentAverageExample state its properties. |
| Stats.StudentAverageWithin | task.py:105-108 | With every score between lo and hi, the student's average lies between lo and hi. |
| Stats.StudentAverageExample | task.py:105-108 | Course means 100 and 60 average to 80, while the flat mean of the four scores is 70: the average is a mean of means. |
| Stats.Matching | task.py:100-101 | The enrollments for the course, in list order: every one of them is an enrollment of the list for the course, and every enrollment of the list for the course is among them. |
| Stats.MatchingAppend | task.py:100-101 | Filtering the empty list gives nothing; filtering a list extended by one enrollment keeps the earlier selection in order and appends the new enrollment exactly when it is for the course, so there is one entry per matching enrollment, in list order. |
| Stats.MatchingMeans | task.py:99-101 | The means contributed by one student to a course average are empty exactly when the student has no enrollment for the course, and there are no more of them than enrollments. |
| Stats.MatchingMeansContents | task.py:99-101 | The means contributed by one student are exactly the means of that student's enrollments for the course, one per enrollment, in list order, duplicate enrollments included. |
| Stats.MatchingMeansOfDistinct | task.py:99-101 | A student enrolled once in the course contributes exactly one mean, that of the enrollment's scores. |
| Stats.MatchingMeansWithin | task.py:99-101 | Every contributed mean lies between lo and hi when all the scores do. |
| Stats.CourseAverage | task.py:95-103 | `average_score_for_course`: summed over the students in any order, the total of their contributed means over the number of those means; AverageForCourse is proved equal to it, and CourseAverageInRange, CourseTermsOfDistinct and CourseAverageExample state its properties. |
| Stats.MatchCountsPositive | task.py:95-103 | When some student is enrolled in the course, at least one mean is averaged, so the course average divides by a positive count. |
| Stats.AverageForCourse | task.py:95-103 | The loop that collects every student's means and takes their mean returns exactly CourseAverage: total of the means over the number of means, summed over the students in any order. |
| Stats.CourseTermsOfDistinct | task.py:95-103 | A student with distinct course names adds one term, their own course average, if enrolled in the course, and nothing otherwise. |
| Stats.CourseAverageExample | task.py:95-103 | Per-student means 80 (scores 70, 90) and 60 (score 60) give a course average of 70, while the flat mean of the three scores is not 70. |
| Stats.StudentTotalInRange | task.py:99-101 | One student's total of means for the course lies between 0 and 100 times their number of enrollments for it, when all their scores do. |
| Stats.TotalsInRange | task.py:96-101 | Key by key over the students, the totals lie between 0 and 100 times the counts. |
| Stats.CourseAverageInRange | task.py:95-103 | With every score for the course between 0 and 100, the course average lies between 0 and 100. |
| Stats.SchoolCourseAverages | task.py:110-115 | The per-course map has exactly the school's course names as keys, each mapped to that course's average. |
| Stats.SchoolStudentAverages | task.py:117-122 | The per-student map has exactly the school's student ids as keys, each mapped to that student's average. |

## Left out

- Reading and writing the JSON file (`open`, `json.load`, `json.dump`, `write_file`) is I/O. `Registry.Load` takes the parsed registry as a parameter. A parse failure, which in the source leaves the registry untouched, is not modelled.
- Student ids read back from JSON are strings, and `int(id)` converts them for the maximum only. The model keeps ids as integers throughout, so the mix of string and integer keys after a reload is not modelled.
- `main` (sample data from `random`, printing) is not part of this model.
- `round(..., 2)` and the floating-point arithmetic are not modelled. Every average and the attendance are exact reals.
- `statistics.mean` is modelled as the exact sum over the length of a non-empty list.
- The generator object `_gen` is modelled as the integer field `nextId`. `next(_gen)` is `NextId`.
- Python dicts and lists are stored by reference, and later calls mutate them: `add_school`'s `courses` and `students` dicts, `add_student`'s `enrolled_courses` list and `enroll_student`'s `scores` list. The model uses values, so this aliasing is not modelled.
- The order in which dicts iterate is not modelled. Sums over dict keys are order-independent (`SumValues`), and the course-average loop visits students in an arbitrary order.
- Schools.Registry.AddSchool: id freshness and distinct course names are kept only when the caller-supplied students respect them. The source does not check the students dict it is given.
- Schools.Registry.AddStudent: distinct course names are kept only when the supplied enrollment list has distinct names. The source does not check it.
- Stats.AttendanceWithinPercent: the bound holds only under the stated requirements on the stored data. The source does not enforce them, and attendance above 100 is possible otherwise.
- Attendance, CourseAverage and SchoolCourseAverages are ghost functions, because they sum over map values. `AverageForCourse` is the executable form of the course average.
- `read_file` assigns the loaded registry before checking it. A failed load of an empty registry, or of one without students, therefore still replaces the current registry. The counter keeps its value; an empty registry does not restart ids at 1. The model follows this code.
