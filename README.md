# Learning platform front end: navigation, form and edit logic

This project models the decision logic of four parts of a React front end for an
online learning platform, and proves properties of that model:

- **The student's course page** (`CourseView`). It covers:
  - selecting a module and a lesson;
  - moving to the next or previous lesson across module boundaries, with positions found by `findIndex` on `_id`;
  - the initial selection once the modules arrive;
  - the set of watched lessons, filled from the enrolment record and grown by completing a lesson;
  - enrolling;
  - whether playing the video arms a completion;
  - the progress figure.

  It is a class whose fields are the component's state variables. The navigation and selection handlers are methods proved equal to pure functions of the old state (`Next`, `Previous`, `SelectModule`). The handlers that apply a server reply (`CheckEnrollment`, `LoadContent`, `Enroll`, `CompleteLesson`) are methods whose ensures give the new state in terms of the old state and the reply. The guard of `handleVideoPlay` is the function `VideoPlayTarget`, since it changes no state itself.
- **The teacher's new-course form** (`CreateCourse`). It covers:
  - the entry check on the stored token and role;
  - `handleChange`, which stores a price as `Number(value)` and blanks the edited field's error;
  - `validateForm`, which builds the error map field by field and reports whether it is empty.
- **The course-edit page** (`EditCourse`). It covers:
  - the record updates `handleChange` and `handlePriceChange`, including the derived `isFree` flag;
  - the list text areas, which show `items.join('\n')` and store `text.split('\n').filter(item => item.trim())`.
- **The route guard** (`ProtectedRoute`): redirect to `/`, redirect to `/profile`, or render the children.

The JavaScript built-ins these rely on are modelled as well:
- `String.prototype.trim`, with ECMAScript's WhiteSpace and LineTerminator sets;
- `split` and `join` on one character;
- the truthiness of optional strings;
- `Number(string)`, following ECMAScript's StringToNumber grammar.

Files:
- `wrappers.dfy`: `Option`.
- `js_strings.dfy`: trim, split and join.
- `js_numbers.dfy`: `Number()`.
- `course_view.dfy`: the course page.
- `new_course_form.dfy`: the new-course form.
- `edit_course.dfy`: the edit page.
- `protected_route.dfy`: the route guard.

Every server reply, and whether a token is in `localStorage`, is an input to the operation that receives it.

Where the documented intent and the code differ, the model follows the code:
- **New-course form.** An empty stored role string is falsy, so the entry check lets it through. Only a non-empty role other than `teacher` or `admin` is turned back.
- **Initial selection.** When the first module has no lessons, the first module is selected and the previously selected lesson is not cleared (`CourseView.InitialSelection`).
- **Next into an empty module.** Moving next into an empty module leaves no lesson selected. From there both next and previous do nothing (`CourseView.EmptyModuleStopsNavigation`), so the course has a second resting state besides its last lesson.
- **Trailing line break in a list text area.** A line break typed at the end of the learning-outcomes or requirements text is dropped when the page re-renders: the text reads as the same list without it (`EditCourse.ParseListTrailingNewline`), and the shown text is the join of that list.
- **The completion timer.** The callback scheduled by a video play completes the lesson that was selected when play started, even if the learner has moved on. The timer itself is not modelled (see below).

## Model

| member | source | states |
|---|---|---|
| JsStrings.TrimStartSlice | src/pages/teacher/TeacherDashboard.jsx:73 | trimming the start removes exactly a blank prefix; what remains is a suffix of the input that does not begin with whitespace |
| JsStrings.TrimEndSlice | src/pages/teacher/TeacherDashboard.jsx:73 | trimming the end removes exactly a blank suffix; what remains is a prefix of the input that does not end with whitespace |
| JsStrings.Trim | src/pages/teacher/TeacherDashboard.jsx:73 | `trim()` gives the empty (falsy) string exactly when every character is whitespace; otherwise its first and last characters are not whitespace |
| JsStrings.TrimShape | src/pages/teacher/TeacherDashboard.jsx:79 | trimming both ends leaves nothing if and only if the string is blank, and otherwise leaves non-whitespace at both ends |
| JsStrings.TrimAddsNothing | src/pages/teacher/TeacherDashboard.jsx:58 | every character of a trimmed string occurs in the original |
| JsStrings.Utf16Length | src/pages/teacher/TeacherDashboard.jsx:75 | `length` counts UTF-16 code units: at least one and at most two per character |
| JsStrings.Utf16LengthBmp | src/pages/teacher/TeacherDashboard.jsx:81 | `length` equals the number of characters exactly when every character is below U+10000 |
| JsStrings.Join | src/pages/teacher/EditCourse.jsx:255 | `items.join('\n')` of no items is the empty string; otherwise it is all the items' characters plus exactly one separator fewer than there are items |
| JsStrings.Split | src/pages/teacher/EditCourse.jsx:256 | `split('\n')` gives at least one piece and no piece contains the separator |
| JsStrings.JoinSplit | src/pages/teacher/EditCourse.jsx:255-256 | joining the pieces of a split with the same separator gives the original text back |
| JsStrings.SplitPrefix | src/pages/teacher/EditCourse.jsx:256 | a separator-free prefix extends the first piece of a split and leaves the other pieces alone |
| JsStrings.SplitJoin | src/pages/teacher/EditCourse.jsx:255-256 | splitting the join of a non-empty list of separator-free items gives the list back |
| JsStrings.SplitTrailingSeparator | src/pages/teacher/EditCourse.jsx:256 | a separator at the end of the text adds one empty piece after the pieces of the text without it |
| JsNumbers.DigitRun | src/pages/teacher/TeacherDashboard.jsx:58 | the measured digit run is the longest prefix of digits of the radix |
| JsNumbers.ParseUnsignedDecimal | src/pages/teacher/TeacherDashboard.jsx:58 | an unsigned decimal literal never reads as a negative value |
| JsNumbers.ParseDecimal | src/pages/teacher/TeacherDashboard.jsx:58 | a decimal literal never reads as NaN, and is never negative unless it starts with `-` |
| JsNumbers.ParseNonDecimal | src/pages/teacher/TeacherDashboard.jsx:58 | a `0b`/`0o`/`0x` literal reads as a finite non-negative integer |
| JsNumbers.ToNumber | src/pages/teacher/TeacherDashboard.jsx:58 | `Number(value)` of a blank input is 0, so an emptied price field holds 0; a string with no minus sign never gives a negative number |
| JsNumbers.DecimalString | src/pages/teacher/TeacherDashboard.jsx:267 | a non-negative integer is written as a non-empty string of decimal digits without a leading zero |
| JsNumbers.AllDigitsRun | src/pages/teacher/TeacherDashboard.jsx:58 | a string made only of decimal digits is a single digit run |
| JsNumbers.DecimalValue | src/pages/teacher/TeacherDashboard.jsx:58 | reading the decimal digits of `n` gives `n` |
| JsNumbers.TrimOfDigits | src/pages/teacher/TeacherDashboard.jsx:58 | a digit string is unchanged by `trim` |
| JsNumbers.UnsignedOfDigits | src/pages/teacher/TeacherDashboard.jsx:58 | a digit string parses as an unsigned decimal with its digit value |
| JsNumbers.DecimalOfDigits | src/pages/teacher/TeacherDashboard.jsx:58 | a digit string is not a `0b`/`0o`/`0x` literal and parses as a decimal with its digit value |
| JsNumbers.NumberOfDecimalString | src/pages/teacher/TeacherDashboard.jsx:58 | `Number(String(n)) == n` for every non-negative integer: a whole price typed into the number input is stored as that number |
| ProtectedRoute.Decide | src/routes/ProtectedRoute.jsx:5-15 | redirect to `/` exactly when there is no user; redirect to `/profile` exactly when a user is present, a role is required (truthy) and differs from the user's role; render the children exactly when a user is present and no role is required or the roles are equal. A role "is required" when it is truthy (`Truthy`: present and not empty) |
| EditCourse.Get | src/pages/teacher/EditCourse.jsx:82-87 | the value read from a field is of that field's kind: an array for the list fields, a string otherwise |
| EditCourse.HandleChange | src/pages/teacher/EditCourse.jsx:82-87 | the named field holds the new value afterwards; every other field and the price are as before |
| EditCourse.HandlePriceChange | src/pages/teacher/EditCourse.jsx:89-98 | editing the amount sets it, keeps the currency and sets `isFree` to `amount == 0`; editing the currency sets it and keeps the amount and `isFree`; no non-price field changes |
| EditCourse.Keep | src/pages/teacher/EditCourse.jsx:256 | the filter callback keeps an item exactly when it is not blank |
| EditCourse.NonBlankShape | src/pages/teacher/EditCourse.jsx:256 | the filtered list is no longer than the input and holds no blank item; it keeps single-line items single-line; a list without blank items passes through unchanged |
| EditCourse.NonBlankMembers | src/pages/teacher/EditCourse.jsx:256 | an item is in the filtered list exactly when it is a non-blank item of the input, so nothing blank comes out and nothing non-blank is lost |
| EditCourse.NonBlankCons | src/pages/teacher/EditCourse.jsx:256 | filtering a list with a first item keeps that item in front exactly when it is not blank, then filters the rest |
| EditCourse.NonBlankAppend | src/pages/teacher/EditCourse.jsx:256 | filtering a concatenation is the concatenation of the filtered parts, so kept items keep their order and their number |
| EditCourse.ConsFacts | src/pages/teacher/EditCourse.jsx:256 | a list has no blank item (or no multi-line item) exactly when its head and its tail have none |
| EditCourse.ListText | src/pages/teacher/EditCourse.jsx:255 | the text shown for a non-empty list of single-line items splits back into exactly those items, one per line |
| EditCourse.JoinedLines | src/pages/teacher/EditCourse.jsx:255 | the `'\n'`-join of a non-empty list of single-line items splits back into the list |
| EditCourse.ParseList | src/pages/teacher/EditCourse.jsx:256 | the list stored from a text area contains no blank item and no item with a line break, and a string is in it exactly when it is a non-blank line of the text |
| EditCourse.ParseListTrailingNewline | src/pages/teacher/EditCourse.jsx:256 | text ending in a line break reads as the same list as the text without it |
| EditCourse.ListRoundTrip | src/pages/teacher/EditCourse.jsx:255-256 | for a list of single-line, non-blank items, splitting and filtering its `'\n'`-joined text gives the same list (the empty list included) |
| EditCourse.ParseListIdempotent | src/pages/teacher/EditCourse.jsx:255-256 | the text shown after an edit reads back as the list stored by that edit |
| EditCourse.EditLearningOutcomes | src/pages/teacher/EditCourse.jsx:256 | editing the learning outcomes text stores its parsed list there and changes no other field |
| EditCourse.EditRequirements | src/pages/teacher/EditCourse.jsx:270 | editing the requirements text stores its parsed list there and changes no other field |
| NewCourseForm.MessageText | src/pages/teacher/TeacherDashboard.jsx:74-90 | every validation message is non-empty (truthy) text; only the cleared entry is the empty string |
| NewCourseForm.TitleError | src/pages/teacher/TeacherDashboard.jsx:73-77 | a blank title is "required"; a non-blank title of fewer than 3 UTF-16 code units (`Utf16Length`), counted before trimming, is "too short"; otherwise there is no error |
| NewCourseForm.DescriptionError | src/pages/teacher/TeacherDashboard.jsx:79-83 | a blank description is "required"; a non-blank one of fewer than 10 UTF-16 code units is "too short"; otherwise there is no error |
| NewCourseForm.TitleLengthInCodeUnits | src/pages/teacher/TeacherDashboard.jsx:75 | a title of two emoji has length 4 and earns no error, while `ab` is too short |
| NewCourseForm.FieldError | src/pages/teacher/TeacherDashboard.jsx:85-91 | the category is in error exactly when it is empty; the price exactly when it is below 0 (NaN is not); level and image are never in error |
| NewCourseForm.FormErrors | src/pages/teacher/TeacherDashboard.jsx:70-92 | the error map has an entry exactly for each failing field, and that entry is the field's own single error |
| NewCourseForm.FormAcceptedIff | src/pages/teacher/TeacherDashboard.jsx:70-95 | the error map is empty exactly when the title is non-blank with at least 3 code units, the description non-blank with at least 10, the category is set and the price is not negative |
| NewCourseForm.EmptyPriceAccepted | src/pages/teacher/TeacherDashboard.jsx:89-91 | a price field emptied by the user reads as 0 and is accepted |
| NewCourseForm.CreateAccess | src/pages/teacher/TeacherDashboard.jsx:37-52 | login is required exactly when neither `token` nor `accessToken` is truthy (`Truthy`: present and not empty); with a token, access is denied exactly when the stored role is truthy and is neither `teacher` nor `admin`, and allowed otherwise |
| NewCourseForm.CreateCourseForm.constructor | src/pages/teacher/TeacherDashboard.jsx:6-15 | the form starts empty with level `beginner`, price 0 and no errors |
| NewCourseForm.CreateCourseForm.HandleChange | src/pages/teacher/TeacherDashboard.jsx:54-68 | only the named field changes; the price is stored as `Number(value)` and the others as the string; the field's error is blanked only if it had a non-empty one; the error map keeps its key set and no other entry changes |
| NewCourseForm.CreateCourseForm.ValidateForm | src/pages/teacher/TeacherDashboard.jsx:70-95 | the committed error map is `FormErrors` of the current course, built by checking title, description, category and price in turn; the result is true exactly when the map is empty |
| CourseView.FindIndex | src/pages/student/CourseView.jsx:173-174 | `findIndex` by id returns the first position holding the id, or -1 exactly when the id is absent |
| CourseView.FindIndexOfUnique | src/pages/student/CourseView.jsx:173-174 | with unique ids, `findIndex` returns the position of each id |
| CourseView.Next | src/pages/student/CourseView.jsx:170-190 | with no module or no lesson selected nothing changes; a valid selection (a course module and one of its lessons) stays valid |
| CourseView.Previous | src/pages/student/CourseView.jsx:193-213 | with no module or no lesson selected nothing changes; a valid selection stays valid |
| CourseView.Locate | src/pages/student/CourseView.jsx:173-174 | in a course with unique ids, the positions `findIndex` reports for a valid selection are those of the selected module and lesson |
| CourseView.NextSteps | src/pages/student/CourseView.jsx:170-190 | from lesson `i` of module `j`: inside a module, next gives lesson `i+1` of the same module; at a module's end it gives the following module with its first lesson (`FirstLesson`), or no lesson when that module is empty; at the last lesson of the last module nothing changes |
| CourseView.PreviousSteps | src/pages/student/CourseView.jsx:193-213 | from lesson `i` of module `j`: inside a module, previous gives lesson `i-1`; at a module's start it gives the preceding module with its last lesson (`LastLesson`), or no lesson when that module is empty; at the first lesson of the first module nothing changes |
| CourseView.NextStaysOnlyAtEnd | src/pages/student/CourseView.jsx:177-189 | next leaves a complete, valid selection unchanged if and only if it is the last lesson of the last module |
| CourseView.PreviousAfterNextAt | src/pages/student/CourseView.jsx:170-213 | from lesson `i` of module `j` of a course with unique ids, previous after a next that moved to a lesson returns to that lesson |
| CourseView.NextAfterPreviousAt | src/pages/student/CourseView.jsx:170-213 | from lesson `i` of module `j` of a course with unique ids, next after a previous that moved to a lesson returns to that lesson |
| CourseView.ThenPrevious | src/pages/student/CourseView.jsx:193-213 | from a lesson a forward step can reach, previous gives the lesson before it in its module, or the last lesson of the preceding non-empty module |
| CourseView.ThenNext | src/pages/student/CourseView.jsx:170-190 | from a lesson a backward step can reach, next gives the lesson after it in its module, or the first lesson of the following non-empty module |
| CourseView.PreviousAfterNext | src/pages/student/CourseView.jsx:170-213 | with unique ids, previous after a next that moved to a lesson restores the original module and lesson |
| CourseView.NextAfterPrevious | src/pages/student/CourseView.jsx:170-213 | with unique ids, next after a previous that moved to a lesson restores the original module and lesson |
| CourseView.EmptyModuleStopsNavigation | src/pages/student/CourseView.jsx:170-190 | after next leaves no lesson selected, a further next and a further previous both leave the selection as it is |
| CourseView.NextScenario | src/pages/student/CourseView.jsx:170-190 | with module A = [A1, A2] and module B = [B1], three nexts from A1 visit A2, then B1, then stay at B1 |
| CourseView.SelectModule | src/pages/student/CourseView.jsx:216-223 | selecting a module selects it with its first lesson (`FirstLesson`), or with no lesson when it has none |
| CourseView.InitialSelection | src/pages/student/CourseView.jsx:72-79 | once modules arrive, the first module is selected with its first lesson; if it has no lessons the earlier lesson is kept; with no modules nothing changes; from no selection the result is valid |
| CourseView.SelectKeepsValid | src/pages/student/CourseView.jsx:216-228 | selecting a course module, or a lesson of the selected module, keeps the selection valid |
| CourseView.CalculateProgress | src/pages/student/CourseView.jsx:236-239 | 0 without an enrolment or its progress; otherwise the server's `completionPercentage`, or 0 when it is missing; never a count of the completed lessons |
| CourseView.WatchedFrom | src/pages/student/CourseView.jsx:40-43 | the watched table built by the `forEach` holds exactly the listed lesson ids |
| CourseView.CourseViewer.constructor | src/pages/student/CourseView.jsx:5-13 | the page starts with no modules, no selection, nothing watched, loading, no error and not enrolled |
| CourseView.CourseViewer.CheckEnrollment | src/pages/student/CourseView.jsx:21-53 | with a token and a successful reply, the learner is enrolled with the returned record; the watched set becomes exactly the record's completed lessons when `progress.completedLessons` is present (`CompletedLessons`) and is otherwise kept; without a token or on failure nothing changes |
| CourseView.CourseViewer.LoadContent | src/pages/student/CourseView.jsx:56-90 | on success the modules are stored and the initial selection made; a body without `success` changes nothing; an exception records its message; loading is false afterwards |
| CourseView.CourseViewer.Enroll | src/pages/student/CourseView.jsx:94-122 | without a token the result is a redirect to `/login` and nothing changes; with one, a successful reply enrols with the returned record and a failure changes nothing |
| CourseView.CourseViewer.CompleteLesson | src/pages/student/CourseView.jsx:125-158 | when enrolled and with a token, success adds exactly `lessonId` to the watched set and stores the returned record, failure leaves both, and `completingLesson` ends false; a completed selected lesson no longer arms the video; otherwise nothing changes |
| CourseView.CourseViewer.VideoPlayTarget | src/pages/student/CourseView.jsx:161-167 | a play arms completion of the selected lesson exactly when the learner is enrolled, a lesson is selected and it is not yet watched |
| CourseView.CourseViewer.GoToNextLesson | src/pages/student/CourseView.jsx:170-190 | the new selection is `Next` of the old one over the page's modules; nothing else changes |
| CourseView.CourseViewer.GoToPreviousLesson | src/pages/student/CourseView.jsx:193-213 | the new selection is `Previous` of the old one over the page's modules; nothing else changes |
| CourseView.CourseViewer.HandleModuleSelect | src/pages/student/CourseView.jsx:216-223 | the selection becomes the module with its first lesson, or no lesson |
| CourseView.CourseViewer.HandleLessonSelect | src/pages/student/CourseView.jsx:226-228 | the lesson becomes the chosen one; the module is not changed |

## Left out

- Network requests, JSON decoding, `localStorage`, `navigate`, `alert` and `console` are not modelled. Each server reply is an input: success with its record, or failure. An error status and a thrown exception have the same effect on the state, except when loading modules, where an exception records its message.
- The 30-second `setTimeout` in `handleVideoPlay` is not modelled, nor races between asynchronous handlers. Only the guard that arms the timer is modelled.
- Rendering is not modelled: class names, conditional display, which buttons are disabled, and the back button (`handleBack`, a navigation only). The lesson list under a module is shown only for the selected module; this shows up only in the lemma's precondition that a selected lesson belongs to the selected module.
- CourseView.CourseViewer.LoadContent: a module whose `lessons` is missing is not modelled; every module has a (possibly empty) lesson list.
- CourseView.CalculateProgress: assumes the server's `completionPercentage` is an integer. A NaN from the server, which `|| 0` would also turn into 0, is not modelled.
- JsNumbers.ToNumber: results are exact reals. IEEE-754 rounding, overflow to Infinity and the sign of zero are not modelled.
- JsStrings: strings are sequences of Unicode scalar values, one `char` each, so a lone surrogate, which a JavaScript string can hold, cannot be represented. `trim` and `split` on `'\n'` treat a surrogate pair like any other non-separator, non-whitespace text, so they are unaffected. `length` is modelled by `Utf16Length`, which counts a character outside the Basic Multilingual Plane as two.
- EditCourse.HandlePriceChange: the amount is an integer. The NaN that `parseInt` returns for a non-numeric input is not modelled; with NaN, `value === 0` is false. The course always has a price sub-record. The page reads a missing one as amount 0 and currency `USD` (EditCourse.jsx:213, 226), but that case is not modelled. In the code, a currency edit with no price throws a TypeError on `prev.price.isFree` (line 95), and an amount edit with no price builds a price without a currency.
- EditCourse.HandleChange: requires the value to have the field's kind (an array for the list fields, a string otherwise). The page never passes anything else, and a mismatched value is not modelled.
- EditCourse list fields: a missing list is not modelled, though `?.join('\n') || ''` would show it as an empty text area. The course record holds only the fields the page edits; the other server fields are carried along unchanged by the spreads.
- The watched-lessons table is a JavaScript object whose values are always `true`, so it is modelled as the set of its keys.
- The rest of the front end is not modelled: the other pages, the router tables and the authentication context. It is forms and lists around I/O.
