/** The student's course page (the `CourseView` component): the module and
    lesson selection with its next/previous navigation, the set of watched
    lessons, enrolment, lesson completion and the progress figure. Every server
    reply is an input to the operation that receives it. */
module CourseView {
  import opened Wrappers

  /** A lesson, identified by its `_id`. */
  datatype Lesson = Lesson(id: string, title: string)

  /** A module, identified by its `_id`, with its lessons in order. */
  datatype Module = Module(id: string, title: string, lessons: seq<Lesson>)

  /** The pair of states `selectedModule` and `selectedLesson`; either may be `null`. */
  datatype Selection = Selection(mod: Option<Module>, lesson: Option<Lesson>)

  const NoSelection := Selection(None, None)

  /** The `_id`s of the modules, in order. */
  function ModuleIds(ms: seq<Module>): (ids: seq<string>)
    ensures |ids| == |ms|
    ensures forall i :: 0 <= i < |ms| ==> ids[i] == ms[i].id
  {
    seq(|ms|, i requires 0 <= i < |ms| => ms[i].id)
  }

  /** The `_id`s of the lessons, in order. */
  function LessonIds(ls: seq<Lesson>): (ids: seq<string>)
    ensures |ids| == |ls|
    ensures forall i :: 0 <= i < |ls| ==> ids[i] == ls[i].id
  {
    seq(|ls|, i requires 0 <= i < |ls| => ls[i].id)
  }

  /** `Array.prototype.findIndex` on an id: the first position holding `id`,
      or -1 when there is none. */
  function FindIndex(ids: seq<string>, id: string): (r: int)
    ensures -1 <= r < |ids|
    ensures r == -1 <==> id !in ids
    ensures r >= 0 ==> ids[r] == id && id !in ids[..r]
  {
    if ids == [] then -1
    else if ids[0] == id then 0
    else
      var k := FindIndex(ids[1..], id);
      assert ids == [ids[0]] + ids[1..];
      if k == -1 then -1
      else
        assert ids[..k + 1] == [ids[0]] + ids[1..][..k];
        k + 1
  }

  /** No id occurs twice. */
  predicate UniqueIds(ids: seq<string>) {
    forall i, j :: 0 <= i < j < |ids| ==> ids[i] != ids[j]
  }

  /** With unique ids, `findIndex` finds each id where it is. */
  lemma FindIndexOfUnique(ids: seq<string>, i: int)
    requires UniqueIds(ids) && 0 <= i < |ids|
    ensures FindIndex(ids, ids[i]) == i
  {
  }

  /** The course structure the page is meant for: module ids are unique, and so
      are the lesson ids within each module. */
  predicate WellFormed(ms: seq<Module>) {
    && UniqueIds(ModuleIds(ms))
    && forall j :: 0 <= j < |ms| ==> UniqueIds(LessonIds(ms[j].lessons))
  }

  /** The selection the page is meant to keep: a selected module is one of the
      course's modules, and a selected lesson is one of the selected module's lessons. */
  predicate Valid(ms: seq<Module>, s: Selection) {
    && (s.mod.Some? ==> s.mod.value in ms)
    && (s.lesson.Some? ==> s.mod.Some? && s.lesson.value in s.mod.value.lessons)
  }

  /** The selection of lesson `i` of module `j`. */
  function At(ms: seq<Module>, j: int, i: int): Selection
    requires 0 <= j < |ms| && 0 <= i < |ms[j].lessons|
  {
    Selection(Some(ms[j]), Some(ms[j].lessons[i]))
  }

  /** The first lesson of a module, or none when it has no lessons. */
  function FirstLesson(m: Module): (r: Option<Lesson>)
    ensures r.Some? <==> |m.lessons| > 0
    ensures r.Some? ==> r.value == m.lessons[0]
  {
    if |m.lessons| > 0 then Some(m.lessons[0]) else None
  }

  /** The last lesson of a module, or none when it has no lessons. */
  function LastLesson(m: Module): (r: Option<Lesson>)
    ensures r.Some? <==> |m.lessons| > 0
    ensures r.Some? ==> r.value == m.lessons[|m.lessons| - 1]
  {
    if |m.lessons| > 0 then Some(m.lessons[|m.lessons| - 1]) else None
  }

  /** `goToNextLesson`: the lesson after the selected one in its module; at the
      end of the module the next module with its first lesson (none if it is
      empty); otherwise nothing changes. Positions are found by id, and a
      selection missing either part is left alone. */
  function Next(ms: seq<Module>, s: Selection): (r: Selection)
    ensures s.mod.None? || s.lesson.None? ==> r == s
    ensures Valid(ms, s) ==> Valid(ms, r)
  {
    if s.mod.None? || s.lesson.None? then s
    else
      var m := s.mod.value;
      var mi := FindIndex(ModuleIds(ms), m.id);
      var li := FindIndex(LessonIds(m.lessons), s.lesson.value.id);
      if li < |m.lessons| - 1 then Selection(s.mod, Some(m.lessons[li + 1]))
      else if mi < |ms| - 1 then Selection(Some(ms[mi + 1]), FirstLesson(ms[mi + 1]))
      else s
  }

  /** `goToPreviousLesson`: the lesson before the selected one in its module; at
      the start of the module the previous module with its last lesson (none if
      it is empty); otherwise nothing changes. */
  function Previous(ms: seq<Module>, s: Selection): (r: Selection)
    ensures s.mod.None? || s.lesson.None? ==> r == s
    ensures Valid(ms, s) ==> Valid(ms, r)
  {
    if s.mod.None? || s.lesson.None? then s
    else
      var m := s.mod.value;
      var mi := FindIndex(ModuleIds(ms), m.id);
      var li := FindIndex(LessonIds(m.lessons), s.lesson.value.id);
      if li > 0 then Selection(s.mod, Some(m.lessons[li - 1]))
      else if mi > 0 then Selection(Some(ms[mi - 1]), LastLesson(ms[mi - 1]))
      else s
  }

  /** Where a selection of a well-formed course points: the positions `findIndex`
      reports are those of the selected module and lesson. */
  lemma Locate(ms: seq<Module>, s: Selection) returns (j: int, i: int)
    requires WellFormed(ms) && Valid(ms, s) && s.mod.Some? && s.lesson.Some?
    ensures 0 <= j < |ms| && 0 <= i < |ms[j].lessons| && s == At(ms, j, i)
    ensures FindIndex(ModuleIds(ms), ms[j].id) == j
    ensures FindIndex(LessonIds(ms[j].lessons), ms[j].lessons[i].id) == i
  {
    j :| 0 <= j < |ms| && ms[j] == s.mod.value;
    i :| 0 <= i < |ms[j].lessons| && ms[j].lessons[i] == s.lesson.value;
    FindIndexOfUnique(ModuleIds(ms), j);
    FindIndexOfUnique(LessonIds(ms[j].lessons), i);
  }

  /** Next from lesson `i` of module `j`: the following lesson inside the module;
      from the last lesson the following module's first lesson, or no lesson if
      that module is empty; from the last lesson of the last module, no change. */
  lemma NextSteps(ms: seq<Module>, j: int, i: int)
    requires WellFormed(ms) && 0 <= j < |ms| && 0 <= i < |ms[j].lessons|
    ensures i < |ms[j].lessons| - 1 ==> Next(ms, At(ms, j, i)) == At(ms, j, i + 1)
    ensures i == |ms[j].lessons| - 1 && j < |ms| - 1 ==>
      Next(ms, At(ms, j, i)) == Selection(Some(ms[j + 1]), FirstLesson(ms[j + 1]))
    ensures i == |ms[j].lessons| - 1 && j == |ms| - 1 ==> Next(ms, At(ms, j, i)) == At(ms, j, i)
  {
    FindIndexOfUnique(ModuleIds(ms), j);
    FindIndexOfUnique(LessonIds(ms[j].lessons), i);
  }

  /** Previous from lesson `i` of module `j`: the preceding lesson inside the
      module; from the first lesson the preceding module's last lesson, or no
      lesson if that module is empty; from the first lesson of the first module,
      no change. */
  lemma PreviousSteps(ms: seq<Module>, j: int, i: int)
    requires WellFormed(ms) && 0 <= j < |ms| && 0 <= i < |ms[j].lessons|
    ensures i > 0 ==> Previous(ms, At(ms, j, i)) == At(ms, j, i - 1)
    ensures i == 0 && j > 0 ==>
      Previous(ms, At(ms, j, i)) == Selection(Some(ms[j - 1]), LastLesson(ms[j - 1]))
    ensures i == 0 && j == 0 ==> Previous(ms, At(ms, j, i)) == At(ms, j, i)
  {
    FindIndexOfUnique(ModuleIds(ms), j);
    FindIndexOfUnique(LessonIds(ms[j].lessons), i);
  }

  /** Next leaves a complete selection in place exactly at the last lesson of the
      last module. */
  lemma NextStaysOnlyAtEnd(ms: seq<Module>, s: Selection)
    requires WellFormed(ms) && Valid(ms, s) && s.mod.Some? && s.lesson.Some?
    ensures Next(ms, s) == s <==>
      s.mod.value == ms[|ms| - 1] && s.lesson == LastLesson(ms[|ms| - 1])
  {
    var j, i := Locate(ms, s);
    NextSteps(ms, j, i);
    if j < |ms| - 1 {
      assert ModuleIds(ms)[j] != ModuleIds(ms)[|ms| - 1];
    }
    if i < |ms[j].lessons| - 1 {
      assert LessonIds(ms[j].lessons)[i] != LessonIds(ms[j].lessons)[i + 1];
    } else if j < |ms| - 1 {
      assert ModuleIds(ms)[j] != ModuleIds(ms)[j + 1];
    }
  }

  /** Previous undoes a next that moved to a lesson. */
  lemma PreviousAfterNext(ms: seq<Module>, s: Selection)
    requires WellFormed(ms) && Valid(ms, s)
    requires Next(ms, s) != s && Next(ms, s).lesson.Some?
    ensures Previous(ms, Next(ms, s)) == s
  {
    var j, i := Locate(ms, s);
    PreviousAfterNextAt(ms, j, i);
  }

  /** Previous after next, from lesson `i` of module `j`. */
  lemma PreviousAfterNextAt(ms: seq<Module>, j: int, i: int)
    requires WellFormed(ms) && 0 <= j < |ms| && 0 <= i < |ms[j].lessons|
    requires Next(ms, At(ms, j, i)) != At(ms, j, i) && Next(ms, At(ms, j, i)).lesson.Some?
    ensures Previous(ms, Next(ms, At(ms, j, i))) == At(ms, j, i)
  {
    NextSteps(ms, j, i);
    if i < |ms[j].lessons| - 1 {
      ThenPrevious(ms, j, i + 1);
    } else {
      assert j < |ms| - 1 && |ms[j + 1].lessons| > 0;
      ThenPrevious(ms, j + 1, 0);
    }
  }

  /** Previous from a lesson that a step forward can reach: the lesson before it
      in its module, or the last lesson of the module before when that one has
      lessons. */
  lemma ThenPrevious(ms: seq<Module>, j: int, i: int)
    requires WellFormed(ms) && 0 <= j < |ms| && 0 <= i < |ms[j].lessons|
    requires i == 0 ==> j > 0 && |ms[j - 1].lessons| > 0
    ensures i > 0 ==> Previous(ms, At(ms, j, i)) == At(ms, j, i - 1)
    ensures i == 0 ==> Previous(ms, At(ms, j, i)) == At(ms, j - 1, |ms[j - 1].lessons| - 1)
  {
    PreviousSteps(ms, j, i);
  }

  /** Next undoes a previous that moved to a lesson. */
  lemma NextAfterPrevious(ms: seq<Module>, s: Selection)
    requires WellFormed(ms) && Valid(ms, s)
    requires Previous(ms, s) != s && Previous(ms, s).lesson.Some?
    ensures Next(ms, Previous(ms, s)) == s
  {
    var j, i := Locate(ms, s);
    NextAfterPreviousAt(ms, j, i);
  }

  /** Next after previous, from lesson `i` of module `j`. */
  lemma NextAfterPreviousAt(ms: seq<Module>, j: int, i: int)
    requires WellFormed(ms) && 0 <= j < |ms| && 0 <= i < |ms[j].lessons|
    requires Previous(ms, At(ms, j, i)) != At(ms, j, i) && Previous(ms, At(ms, j, i)).lesson.Some?
    ensures Next(ms, Previous(ms, At(ms, j, i))) == At(ms, j, i)
  {
    PreviousSteps(ms, j, i);
    if i > 0 {
      ThenNext(ms, j, i - 1);
    } else {
      assert j > 0 && |ms[j - 1].lessons| > 0;
      ThenNext(ms, j - 1, |ms[j - 1].lessons| - 1);
    }
  }

  /** Next from a lesson that a step back can reach: the lesson after it in its
      module, or the first lesson of the module after when that one has lessons. */
  lemma ThenNext(ms: seq<Module>, j: int, i: int)
    requires WellFormed(ms) && 0 <= j < |ms| && 0 <= i < |ms[j].lessons|
    requires i == |ms[j].lessons| - 1 ==> j < |ms| - 1 && |ms[j + 1].lessons| > 0
    ensures i < |ms[j].lessons| - 1 ==> Next(ms, At(ms, j, i)) == At(ms, j, i + 1)
    ensures i == |ms[j].lessons| - 1 ==> Next(ms, At(ms, j, i)) == At(ms, j + 1, 0)
  {
    NextSteps(ms, j, i);
  }

  /** Moving into an empty module leaves no lesson selected, and from there
      neither next nor previous moves any more. */
  lemma EmptyModuleStopsNavigation(ms: seq<Module>, s: Selection)
    requires Next(ms, s).lesson.None?
    ensures Next(ms, Next(ms, s)) == Next(ms, s)
    ensures Previous(ms, Next(ms, s)) == Next(ms, s)
  {
  }

  /** Two modules, A with lessons A1 and A2 and B with lesson B1: starting at A1,
      three nexts visit A2, then B1, then stay at B1. */
  lemma NextScenario()
    ensures var a1 := Lesson("a1", "A1");
      var a2 := Lesson("a2", "A2");
      var b1 := Lesson("b1", "B1");
      var ma := Module("a", "A", [a1, a2]);
      var mb := Module("b", "B", [b1]);
      var ms := [ma, mb];
      var s1 := Next(ms, Selection(Some(ma), Some(a1)));
      var s2 := Next(ms, s1);
      && s1 == Selection(Some(ma), Some(a2))
      && s2 == Selection(Some(mb), Some(b1))
      && Next(ms, s2) == s2
  {
    var a1 := Lesson("a1", "A1");
    var a2 := Lesson("a2", "A2");
    var b1 := Lesson("b1", "B1");
    var ma := Module("a", "A", [a1, a2]);
    var mb := Module("b", "B", [b1]);
    var ms := [ma, mb];
    assert "a1" != "a2" && "a" != "b";
    assert WellFormed(ms);
    NextSteps(ms, 0, 0);
    NextSteps(ms, 0, 1);
    NextSteps(ms, 1, 0);
  }

  /** `handleModuleSelect`: the module with its first lesson, or no lesson. */
  function SelectModule(m: Module): (r: Selection)
    ensures r.mod == Some(m)
    ensures r.lesson.Some? <==> |m.lessons| > 0
    ensures r.lesson.Some? ==> r.lesson.value == m.lessons[0]
  {
    Selection(Some(m), FirstLesson(m))
  }

  /** The selection made once the modules arrive: the first module and, when it
      has lessons, its first lesson; with no modules, nothing changes. When the
      first module is empty the earlier lesson is kept. */
  function InitialSelection(ms: seq<Module>, s: Selection): (r: Selection)
    ensures |ms| == 0 ==> r == s
    ensures |ms| > 0 ==> r.mod == Some(ms[0])
    ensures |ms| > 0 && |ms[0].lessons| > 0 ==> r.lesson == Some(ms[0].lessons[0])
    ensures |ms| > 0 && |ms[0].lessons| == 0 ==> r.lesson == s.lesson
    ensures s == NoSelection ==> Valid(ms, r)
  {
    if |ms| == 0 then s
    else if |ms[0].lessons| > 0 then SelectModule(ms[0])
    else Selection(Some(ms[0]), s.lesson)
  }

  /** Selecting a course module, or a lesson of the selected module, keeps the
      selection valid. */
  lemma SelectKeepsValid(ms: seq<Module>, s: Selection, m: Module, l: Lesson)
    requires Valid(ms, s) && m in ms
    ensures Valid(ms, SelectModule(m))
    ensures s.mod.Some? && l in s.mod.value.lessons ==> Valid(ms, s.(lesson := Some(l)))
  {
  }

  /** The `progress` part of an enrolment record. */
  datatype Progress = Progress(completedLessons: Option<seq<string>>, completionPercentage: Option<int>)

  /** An enrolment record as the server returns it. */
  datatype Enrollment = Enrollment(progress: Option<Progress>)

  /** `enrollment?.progress?.completedLessons`. */
  function CompletedLessons(e: Option<Enrollment>): (r: Option<seq<string>>)
    ensures r.Some? <==> e.Some? && e.value.progress.Some? && e.value.progress.value.completedLessons.Some?
    ensures r.Some? ==> r.value == e.value.progress.value.completedLessons.value
  {
    if e.Some? && e.value.progress.Some? then e.value.progress.value.completedLessons else None
  }

  /** `calculateProgress`: 0 without an enrolment or its progress; otherwise the
      server's `completionPercentage`, read as 0 when missing. The completed
      lessons are never counted. */
  function CalculateProgress(e: Option<Enrollment>): (r: int)
    ensures e.None? || e.value.progress.None? ==> r == 0
    ensures e.Some? && e.value.progress.Some? && e.value.progress.value.completionPercentage.None? ==> r == 0
    ensures e.Some? && e.value.progress.Some? && e.value.progress.value.completionPercentage.Some? ==>
      r == e.value.progress.value.completionPercentage.value
  {
    if e.None? || e.value.progress.None? then 0
    else match e.value.progress.value.completionPercentage
      case None => 0
      case Some(p) => p
  }

  /** The lookup table built from `completedLessons` (one `true` entry per id),
      read as the set of its keys: exactly the listed ids. */
  method WatchedFrom(ids: seq<string>) returns (watched: set<string>)
    ensures forall id :: id in watched <==> id in ids
  {
    watched := {};
    var i := 0;
    while i < |ids|
      invariant 0 <= i <= |ids|
      invariant forall id :: id in watched <==> id in ids[..i]
    {
      assert ids[..i + 1] == ids[..i] + [ids[i]];
      watched := watched + {ids[i]};
      i := i + 1;
    }
    assert ids[..i] == ids;
  }

  /** A reply to one of the enrolment requests: a successful status with the
      enrolment record of its body, or anything else (an error status or a
      thrown exception). */
  datatype Reply = Ok(enrollment: Option<Enrollment>) | Failed

  /** The reply to the modules request: the modules of a successful body, a body
      without `success`, or an exception with its message. */
  datatype ContentReply = Modules(modules: seq<Module>) | Unsuccessful | Threw(message: string)

  const LoginPath := "/login"

  /** The page's state. `hasToken` is whether an access token was in storage. */
  class CourseViewer {
    const hasToken: bool
    var modules: seq<Module>
    var selectedModule: Option<Module>
    var selectedLesson: Option<Lesson>
    var watched: set<string>
    var loading: bool
    var error: string
    var enrollment: Option<Enrollment>
    var isEnrolled: bool
    var completingLesson: bool

    constructor (hasToken: bool)
      ensures this.hasToken == hasToken
      ensures modules == [] && selectedModule.None? && selectedLesson.None? && watched == {}
      ensures loading && error == "" && enrollment.None? && !isEnrolled && !completingLesson
    {
      this.hasToken := hasToken;
      modules := [];
      selectedModule := None;
      selectedLesson := None;
      watched := {};
      loading := true;
      error := "";
      enrollment := None;
      isEnrolled := false;
      completingLesson := false;
    }

    function Current(): Selection
      reads this
    {
      Selection(selectedModule, selectedLesson)
    }

    /** `checkEnrollment`: with a token and a successful reply, the learner is
        enrolled with the returned record, and when that record lists completed
        lessons the watched set becomes exactly those; otherwise nothing changes. */
    method CheckEnrollment(reply: Reply)
      modifies this`isEnrolled, this`enrollment, this`watched
      ensures !hasToken || reply.Failed? ==>
        isEnrolled == old(isEnrolled) && enrollment == old(enrollment) && watched == old(watched)
      ensures hasToken && reply.Ok? ==> isEnrolled && enrollment == reply.enrollment
      ensures hasToken && reply.Ok? && CompletedLessons(reply.enrollment).Some? ==>
        forall id :: id in watched <==> id in CompletedLessons(reply.enrollment).value
      ensures hasToken && reply.Ok? && CompletedLessons(reply.enrollment).None? ==> watched == old(watched)
    {
      if !hasToken {
        return;
      }
      match reply {
        case Ok(e) =>
          isEnrolled := true;
          enrollment := e;
          var completed := CompletedLessons(e);
          if completed.Some? {
            watched := WatchedFrom(completed.value);
          }
        case Failed =>
      }
    }

    /** `fetchCourseContent`: on success the modules are stored and the first
        module (and its first lesson) selected; an exception records its message;
        loading ends in every case. */
    method LoadContent(reply: ContentReply)
      modifies this`modules, this`selectedModule, this`selectedLesson, this`error, this`loading
      ensures !loading
      ensures reply.Modules? ==>
        modules == reply.modules && Current() == InitialSelection(reply.modules, old(Current()))
      ensures !reply.Modules? ==> modules == old(modules) && Current() == old(Current())
      ensures error == if reply.Threw? then reply.message else old(error)
    {
      loading := true;
      match reply {
        case Modules(ms) =>
          modules := ms;
          if |ms| > 0 {
            var firstModule := ms[0];
            selectedModule := Some(firstModule);
            if |firstModule.lessons| > 0 {
              selectedLesson := Some(firstModule.lessons[0]);
            }
          }
        case Unsuccessful =>
        case Threw(message) =>
          error := message;
      }
      loading := false;
    }

    /** `handleEnroll`: without a token the visitor is sent to the login page;
        with one, a successful reply enrols the learner with the returned record
        and any other reply changes nothing. */
    method Enroll(reply: Reply) returns (redirect: Option<string>)
      modifies this`isEnrolled, this`enrollment
      ensures redirect == if hasToken then None else Some(LoginPath)
      ensures hasToken && reply.Ok? ==> isEnrolled && enrollment == reply.enrollment
      ensures !hasToken || reply.Failed? ==> isEnrolled == old(isEnrolled) && enrollment == old(enrollment)
    {
      if !hasToken {
        return Some(LoginPath);
      }
      redirect := None;
      match reply {
        case Ok(e) =>
          isEnrolled := true;
          enrollment := e;
        case Failed =>
      }
    }

    /** `completeLesson`: only for an enrolled learner with a token. A successful
        reply adds exactly `lessonId` to the watched set and stores the returned
        record; a failed one changes neither; `completingLesson` is false once the
        call ends. Without enrolment or token nothing changes. */
    method CompleteLesson(lessonId: string, reply: Reply)
      modifies this`watched, this`enrollment, this`completingLesson
      ensures !isEnrolled || !hasToken ==>
        watched == old(watched) && enrollment == old(enrollment) && completingLesson == old(completingLesson)
      ensures isEnrolled && hasToken ==> !completingLesson
      ensures isEnrolled && hasToken && reply.Ok? ==>
        watched == old(watched) + {lessonId} && enrollment == reply.enrollment
      ensures isEnrolled && hasToken && reply.Failed? ==> watched == old(watched) && enrollment == old(enrollment)
      ensures isEnrolled && hasToken && reply.Ok? && selectedLesson.Some? && selectedLesson.value.id == lessonId ==>
        VideoPlayTarget().None?
    {
      if !isEnrolled || !hasToken {
        return;
      }
      completingLesson := true;
      match reply {
        case Ok(e) =>
          watched := watched + {lessonId};
          enrollment := e;
        case Failed =>
      }
      completingLesson := false;
    }

    /** `handleVideoPlay`: the lesson whose completion a play schedules, if any.
        It is armed exactly when the learner is enrolled, a lesson is selected
        and that lesson is not watched yet. */
    function VideoPlayTarget(): (r: Option<string>)
      reads this
      ensures r.Some? <==> isEnrolled && selectedLesson.Some? && selectedLesson.value.id !in watched
      ensures r.Some? ==> r.value == selectedLesson.value.id
    {
      if !isEnrolled || selectedLesson.None? || selectedLesson.value.id in watched then None
      else Some(selectedLesson.value.id)
    }

    /** `goToNextLesson`: the selection moves to `Next` of the current one. */
    method GoToNextLesson()
      modifies this`selectedModule, this`selectedLesson
      ensures Current() == Next(modules, old(Current()))
    {
      if selectedModule.None? || selectedLesson.None? {
        return;
      }
      var m := selectedModule.value;
      var currentModuleIndex := FindIndex(ModuleIds(modules), m.id);
      var currentLessonIndex := FindIndex(LessonIds(m.lessons), selectedLesson.value.id);
      if currentLessonIndex < |m.lessons| - 1 {
        selectedLesson := Some(m.lessons[currentLessonIndex + 1]);
      } else if currentModuleIndex < |modules| - 1 {
        var nextModule := modules[currentModuleIndex + 1];
        selectedModule := Some(nextModule);
        if |nextModule.lessons| > 0 {
          selectedLesson := Some(nextModule.lessons[0]);
        } else {
          selectedLesson := None;
        }
      }
    }

    /** `goToPreviousLesson`: the selection moves to `Previous` of the current one. */
    method GoToPreviousLesson()
      modifies this`selectedModule, this`selectedLesson
      ensures Current() == Previous(modules, old(Current()))
    {
      if selectedModule.None? || selectedLesson.None? {
        return;
      }
      var m := selectedModule.value;
      var currentModuleIndex := FindIndex(ModuleIds(modules), m.id);
      var currentLessonIndex := FindIndex(LessonIds(m.lessons), selectedLesson.value.id);
      if currentLessonIndex > 0 {
        selectedLesson := Some(m.lessons[currentLessonIndex - 1]);
      } else if currentModuleIndex > 0 {
        var prevModule := modules[currentModuleIndex - 1];
        selectedModule := Some(prevModule);
        if |prevModule.lessons| > 0 {
          selectedLesson := Some(prevModule.lessons[|prevModule.lessons| - 1]);
        } else {
          selectedLesson := None;
        }
      }
    }

    /** `handleModuleSelect`: the module becomes selected with its first lesson, if any. */
    method HandleModuleSelect(m: Module)
      modifies this`selectedModule, this`selectedLesson
      ensures Current() == SelectModule(m)
    {
      selectedModule := Some(m);
      if |m.lessons| > 0 {
        selectedLesson := Some(m.lessons[0]);
      } else {
        selectedLesson := None;
      }
    }

    /** `handleLessonSelect`: the lesson changes, the module does not. */
    method HandleLessonSelect(l: Lesson)
      modifies this`selectedLesson
      ensures selectedLesson == Some(l)
    {
      selectedLesson := Some(l);
    }
  }
}
