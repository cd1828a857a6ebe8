# CS Classroom: class-question grading and the submission-download link

This project models two pieces of CS Classroom, a web application for
programming courses:

- **Grading class questions (`ClassQuestionGrader`).** A student submits the body of a Java class.
  `ClassQuestionGrader` builds a *class job* for the code runner: the question's file
  template with the submission in place of `%SUBMISSION%`, its `%` signs
  doubled, plus the class name, the imported classes, the tests and a
  line-number offset. It then compares the compiled class definition that
  the runner reports with the question's requirements: the class must
  exist, public fields must be allowed, and each required method or overload
  set must be present with the right visibility, staticness, parameter types
  and return type. Generic arguments are ignored, because Java erases them.
  Finally it scores the test results as the fraction of tests that succeed.
  The implementation of `ClassQuestionGrader` is not part of this model. Its behaviour is
  taken from its unit tests, `ClassQuestionGrader_UnitTests.cs`, which fix
  the question and job-result fixtures and assert the errors and the score
  of every scenario.
- **The "Students: …" link on the submission-download page.** For each
  section it says which students will be downloaded: all of them, none, or
  the names of the first three selected students whose code may be downloaded.

Modules:

- `Wrappers`: the `Option` type.
- `Strings`: search, replace, split, join and trim, with their laws.
- `CodeRunner`: the class job and the class job result.
- `ClassQuestions`: the question, the errors and the graded result.
- `ClassQuestionGrader`: the job builder, the structural comparison and the scorer.
- `ClassQuestionGraderProperties`: properties of the grading model.
- `ClassQuestionGraderScenarios`: the fixtures, a stub code runner and one lemma per unit test.
- `DownloadSubmission` and `DownloadSubmissionProperties`: the link text.

Grading is a set of pure functions. The code runner is a function
parameter of `GradeSubmission`, and the scenarios pass a stub for it. The
link text is an imperative method whose loop is proved against the
specification function `SummaryDisplay`.

## Model

| member | source | states |
|---|---|---|
| ClassQuestionGrader.BuildJob | Services/test/CSClassroom/CSClassroom.Service.UnitTests/Assignments/QuestionGraders/ClassQuestionGrader_UnitTests.cs:28-136 | the job carries the question's class name, its imported classes in order and its tests by name, body and return type; its line offset is minus the number of template lines before the placeholder, so it is never positive |
| ClassQuestionGrader.EscapePercent | Services/test/CSClassroom/CSClassroom.Service.UnitTests/Assignments/QuestionGraders/ClassQuestionGrader_UnitTests.cs:71-91 | escaping lengthens the submission by exactly its number of `%` signs |
| ClassQuestionGraderProperties.EscapeRoundTrip | Services/test/CSClassroom/CSClassroom.Service.UnitTests/Assignments/QuestionGraders/ClassQuestionGrader_UnitTests.cs:71-91 | un-doubling the `%` signs gives back the submission, so escaping loses nothing |
| ClassQuestionGraderProperties.EscapeDoublesPercent | Services/test/CSClassroom/CSClassroom.Service.UnitTests/Assignments/QuestionGraders/ClassQuestionGrader_UnitTests.cs:71-91 | escaping doubles the count of `%` and keeps the count of every other character |
| ClassQuestionGraderProperties.EscapeConcat | Services/test/CSClassroom/CSClassroom.Service.UnitTests/Assignments/QuestionGraders/ClassQuestionGrader_UnitTests.cs:71-91 | escaping distributes over concatenation |
| ClassQuestionGraderProperties.EscapeWithoutPercent | Services/test/CSClassroom/CSClassroom.Service.UnitTests/Assignments/QuestionGraders/ClassQuestionGrader_UnitTests.cs:71-91 | a submission without `%` is not changed by escaping |
| ClassQuestionGraderProperties.JobFileContents | Services/test/CSClassroom/CSClassroom.Service.UnitTests/Assignments/QuestionGraders/ClassQuestionGrader_UnitTests.cs:71-112 | for a template `pre + %SUBMISSION% + post` with one placeholder, the file is `pre`, the escaped submission, then `post`, and the line offset is minus the newlines in `pre` |
| ClassQuestionGrader.EraseGenerics | Services/test/CSClassroom/CSClassroom.Service.UnitTests/Assignments/QuestionGraders/ClassQuestionGrader_UnitTests.cs:564-604 | the erased type has no `<` and is a prefix of the written type |
| ClassQuestionGraderProperties.EraseIdempotent | Services/test/CSClassroom/CSClassroom.Service.UnitTests/Assignments/QuestionGraders/ClassQuestionGrader_UnitTests.cs:564-604 | erasing twice is erasing once |
| ClassQuestionGraderProperties.ErasureComparison | Services/test/CSClassroom/CSClassroom.Service.UnitTests/Assignments/QuestionGraders/ClassQuestionGrader_UnitTests.cs:554-700 | `Base<Args>` matches `Base`, and matches a plain type name exactly when that name is `Base` |
| ClassQuestionGraderProperties.SingleParamType | Services/test/CSClassroom/CSClassroom.Service.UnitTests/Assignments/QuestionGraders/ClassQuestionGrader_UnitTests.cs:564-580 | one trimmed type name without a comma is a one-element parameter list |
| ClassQuestionGraderProperties.TwoParamTypes | Services/test/CSClassroom/CSClassroom.Service.UnitTests/Assignments/QuestionGraders/ClassQuestionGrader_UnitTests.cs:597-599 | the text `a, b` is the parameter list `[a, b]` |
| ClassQuestionGraderProperties.ParamTypesRoundTrip | Services/test/CSClassroom/CSClassroom.Service.UnitTests/Assignments/QuestionGraders/ClassQuestionGrader_UnitTests.cs:564-604 | any non-empty list of trimmed, comma-free type names, joined with `, `, parses back to that list |
| ClassQuestionGrader.RequiredWithKey | Services/test/CSClassroom/CSClassroom.Service.UnitTests/Assignments/QuestionGraders/ClassQuestionGrader_UnitTests.cs:385-464 | the required methods of one overload set are exactly those whose key is the set's name |
| ClassQuestionGrader.ActualWithName | Services/test/CSClassroom/CSClassroom.Service.UnitTests/Assignments/QuestionGraders/ClassQuestionGrader_UnitTests.cs:385-464 | the compiled methods of one overload set are exactly those with that name |
| ClassQuestionGraderProperties.RequiredWithKeyConcat | Services/test/CSClassroom/CSClassroom.Service.UnitTests/Assignments/QuestionGraders/ClassQuestionGrader_UnitTests.cs:385-464 | selecting an overload set distributes over concatenation, so it keeps the declaration order and the number of entries the count check compares |
| ClassQuestionGraderProperties.ActualWithNameConcat | Services/test/CSClassroom/CSClassroom.Service.UnitTests/Assignments/QuestionGraders/ClassQuestionGrader_UnitTests.cs:385-464 | selecting compiled methods by name distributes over concatenation, so order and multiplicity are kept |
| ClassQuestionGrader.MethodKeys | Services/test/CSClassroom/CSClassroom.Service.UnitTests/Assignments/QuestionGraders/ClassQuestionGrader_UnitTests.cs:385-464 | the overload sets are the keys of the required methods, each listed once, in the order in which each key is first declared |
| ClassQuestionGrader.Distinct | Services/test/CSClassroom/CSClassroom.Service.UnitTests/Assignments/QuestionGraders/ClassQuestionGrader_UnitTests.cs:385-464 | duplicates removed: the same members, pairwise different |
| ClassQuestionGrader.DistinctOrder | Services/test/CSClassroom/CSClassroom.Service.UnitTests/Assignments/QuestionGraders/ClassQuestionGrader_UnitTests.cs:385-464 | removing duplicates keeps the elements in the order of their first appearance |
| ClassQuestionGrader.FirstParamMatch | Services/test/CSClassroom/CSClassroom.Service.UnitTests/Assignments/QuestionGraders/ClassQuestionGrader_UnitTests.cs:441-464 | the index found holds a method whose erased parameter types match, and no earlier one matches |
| ClassQuestionGrader.RemoveAt | Services/test/CSClassroom/CSClassroom.Service.UnitTests/Assignments/QuestionGraders/ClassQuestionGrader_UnitTests.cs:441-464 | a paired method leaves the pool and nothing else does: the multiset loses exactly that element |
| ClassQuestionGrader.DefinitionErrors | Services/test/CSClassroom/CSClassroom.Service.UnitTests/Assignments/QuestionGraders/ClassQuestionGrader_UnitTests.cs:281-378 | at most one definition error per required method, each naming the class and the overload set |
| ClassQuestionGrader.GroupErrors | Services/test/CSClassroom/CSClassroom.Service.UnitTests/Assignments/QuestionGraders/ClassQuestionGrader_UnitTests.cs:255-274 | an overload set yields only method errors about that set |
| ClassQuestionGrader.ErrorsForKeys | Services/test/CSClassroom/CSClassroom.Service.UnitTests/Assignments/QuestionGraders/ClassQuestionGrader_UnitTests.cs:255-464 | every method error concerns one of the overload sets |
| ClassQuestionGrader.MethodErrors | Services/test/CSClassroom/CSClassroom.Service.UnitTests/Assignments/QuestionGraders/ClassQuestionGrader_UnitTests.cs:255-464 | method errors are count or definition errors about the question's class |
| ClassQuestionGrader.PublicFieldErrors | Services/test/CSClassroom/CSClassroom.Service.UnitTests/Assignments/QuestionGraders/ClassQuestionGrader_UnitTests.cs:180-212 | a field-visibility error names field `f` exactly when the class has a public field named `f` |
| ClassQuestionGrader.CompareStructure | Services/test/CSClassroom/CSClassroom.Service.UnitTests/Assignments/QuestionGraders/ClassQuestionGrader_UnitTests.cs:143-464 | every error the comparison reports is structural |
| ClassQuestionGraderProperties.MissingClassShortCircuits | Services/test/CSClassroom/CSClassroom.Service.UnitTests/Assignments/QuestionGraders/ClassQuestionGrader_UnitTests.cs:143-173 | a class that failed to compile gives exactly one missing-class error, score 0 and no test results |
| ClassQuestionGraderProperties.FieldVisibility | Services/test/CSClassroom/CSClassroom.Service.UnitTests/Assignments/QuestionGraders/ClassQuestionGrader_UnitTests.cs:180-248 | one visibility error per public field when public fields are forbidden, none when allowed, both directions |
| ClassQuestionGraderProperties.PublicFieldErrorsCount | Services/test/CSClassroom/CSClassroom.Service.UnitTests/Assignments/QuestionGraders/ClassQuestionGrader_UnitTests.cs:180-212 | the number of field errors is the number of public fields |
| ClassQuestionGraderProperties.ErrorsOfOverloadSet | Services/test/CSClassroom/CSClassroom.Service.UnitTests/Assignments/QuestionGraders/ClassQuestionGrader_UnitTests.cs:255-464 | the errors about one overload set are exactly that set's group errors, and there are none for a name no required method has |
| ClassQuestionGraderProperties.ErrorsForKeysAbout | Services/test/CSClassroom/CSClassroom.Service.UnitTests/Assignments/QuestionGraders/ClassQuestionGrader_UnitTests.cs:255-464 | overload sets are judged independently: filtering the errors by one key gives that key's group errors |
| ClassQuestionGraderProperties.OverloadCountMismatch | Services/test/CSClassroom/CSClassroom.Service.UnitTests/Assignments/QuestionGraders/ClassQuestionGrader_UnitTests.cs:385-434 | when the number of methods differs, the set has exactly one count error, giving the expected count and staticness |
| ClassQuestionGraderProperties.OverloadCountMatch | Services/test/CSClassroom/CSClassroom.Service.UnitTests/Assignments/QuestionGraders/ClassQuestionGrader_UnitTests.cs:441-464 | when the counts agree there is no count error, only the pairing's definition errors |
| ClassQuestionGraderProperties.FirstParamMatchIsFirstMatching | Services/test/CSClassroom/CSClassroom.Service.UnitTests/Assignments/QuestionGraders/ClassQuestionGrader_UnitTests.cs:441-464 | the index search agrees with the reference "first method whose parameters match" |
| ClassQuestionGraderProperties.FirstMatchingSkips | Services/test/CSClassroom/CSClassroom.Service.UnitTests/Assignments/QuestionGraders/ClassQuestionGrader_UnitTests.cs:441-464 | removing a method that does not match leaves the first match unchanged |
| ClassQuestionGraderProperties.DefinitionErrorsReference | Services/test/CSClassroom/CSClassroom.Service.UnitTests/Assignments/QuestionGraders/ClassQuestionGrader_UnitTests.cs:441-464 | with distinct required parameter lists, the greedy pairing reports exactly the required methods that do not conform to their first matching method |
| ClassQuestionGraderProperties.SignatureErrors | Services/test/CSClassroom/CSClassroom.Service.UnitTests/Assignments/QuestionGraders/ClassQuestionGrader_UnitTests.cs:441-464 | with equal counts, an overload set's errors are those of the non-conforming required methods |
| ClassQuestionGraderProperties.NonConformingMembers | Services/test/CSClassroom/CSClassroom.Service.UnitTests/Assignments/QuestionGraders/ClassQuestionGrader_UnitTests.cs:281-378 | an error is reported for a required method exactly when it does not conform, carrying its expected values; no errors iff all conform |
| ClassQuestionGraderProperties.FirstMatchingIsUnique | Services/test/CSClassroom/CSClassroom.Service.UnitTests/Assignments/QuestionGraders/ClassQuestionGrader_UnitTests.cs:441-464 | with distinct compiled parameter lists, any matching method is the one found |
| ClassQuestionGraderProperties.OverloadOrderIrrelevant | Services/test/CSClassroom/CSClassroom.Service.UnitTests/Assignments/QuestionGraders/ClassQuestionGrader_UnitTests.cs:441-464 | the order of the compiled overloads does not change the errors |
| ClassQuestionGraderProperties.NoErrorsIffStructurallyCorrect | Services/test/CSClassroom/CSClassroom.Service.UnitTests/Assignments/QuestionGraders/ClassQuestionGrader_UnitTests.cs:143-525 | a compiled class has no structural error iff its fields are allowed and each overload set has the right count and every required method a conforming counterpart |
| ClassQuestionGraderProperties.SingleOverloadSet | Services/test/CSClassroom/CSClassroom.Service.UnitTests/Assignments/QuestionGraders/ClassQuestionGrader_UnitTests.cs:255-464 | when all methods carry one name, the errors are the field errors followed by that one set's errors |
| ClassQuestionGrader.FindTestResult | Services/test/CSClassroom/CSClassroom.Service.UnitTests/Assignments/QuestionGraders/ClassQuestionGrader_UnitTests.cs:717-730 | a result found has the test's name; none is found only when no result has it |
| ClassQuestionGrader.TestOutcome | Services/test/CSClassroom/CSClassroom.Service.UnitTests/Assignments/QuestionGraders/ClassQuestionGrader_UnitTests.cs:471-484 | the outcome carries the test's name and description, and succeeds iff the test completed with the expected output and, unless the expected return value is null, with that return value; a null expected value accepts any returned value |
| ClassQuestionGrader.TestOutcomes | Services/test/CSClassroom/CSClassroom.Service.UnitTests/Assignments/QuestionGraders/ClassQuestionGrader_UnitTests.cs:471-484 | one outcome per question test, in order |
| ClassQuestionGrader.CountSucceeded | Services/test/CSClassroom/CSClassroom.Service.UnitTests/Assignments/QuestionGraders/ClassQuestionGrader_UnitTests.cs:498-525 | at most the number of tests, and equal to it iff every test succeeded |
| ClassQuestionGrader.ScoreOf | Services/test/CSClassroom/CSClassroom.Service.UnitTests/Assignments/QuestionGraders/ClassQuestionGrader_UnitTests.cs:498-525 | the score lies in [0, 1]; it is 1 iff there are tests and all succeeded, and 0 iff none succeeded |
| ClassQuestionGrader.CountSucceededZero | Services/test/CSClassroom/CSClassroom.Service.UnitTests/Assignments/QuestionGraders/ClassQuestionGrader_UnitTests.cs:498-525 | no test counted iff no test succeeded |
| ClassQuestionGrader.RatioBounds | Services/test/CSClassroom/CSClassroom.Service.UnitTests/Assignments/QuestionGraders/ClassQuestionGrader_UnitTests.cs:498-525 | a fraction of succeeded tests is between 0 and 1, is 1 iff all succeeded and 0 iff none |
| ClassQuestionGrader.Grade | Services/test/CSClassroom/CSClassroom.Service.UnitTests/Assignments/QuestionGraders/ClassQuestionGrader_UnitTests.cs:143-525 | every grade lies in [0, 1] |
| ClassQuestionGrader.GradeSubmission | Services/test/CSClassroom/CSClassroom.Service.UnitTests/Assignments/QuestionGraders/ClassQuestionGrader_UnitTests.cs:28-525 | for the runner's answer to the job built from the submission: the score lies in [0, 1]; a class that did not compile scores 0 with the single missing-class error; the score is 1 iff there is no structural error, the tests compiled, there is at least one test and every test succeeded |
| ClassQuestionGraderProperties.StructuralErrorsScoreZero | Services/test/CSClassroom/CSClassroom.Service.UnitTests/Assignments/QuestionGraders/ClassQuestionGrader_UnitTests.cs:143-464 | any structural error gives score 0, keeps those errors and drops the test results |
| ClassQuestionGraderProperties.TestCompilationFailureScoresZero | Services/test/CSClassroom/CSClassroom.Service.UnitTests/Assignments/QuestionGraders/ClassQuestionGrader_UnitTests.cs:703-715 | tests that did not compile give score 0 and one test-compilation error |
| ClassQuestionGraderProperties.ScoreIsFractionOfSucceededTests | Services/test/CSClassroom/CSClassroom.Service.UnitTests/Assignments/QuestionGraders/ClassQuestionGrader_UnitTests.cs:471-525 | a structurally correct class with compiled tests gets one outcome per test, in order, and the score is the fraction of them that succeeded |
| ClassQuestionGraderProperties.PerfectScoreIff | Services/test/CSClassroom/CSClassroom.Service.UnitTests/Assignments/QuestionGraders/ClassQuestionGrader_UnitTests.cs:498-525 | the score is 1 iff there is no structural error, the tests compiled, there is at least one test and all succeeded |
| ClassQuestionGraderScenarios.AcceptedJob | Services/test/CSClassroom/CSClassroom.Service.UnitTests/Assignments/QuestionGraders/ClassQuestionGrader_UnitTests.cs:738-754 | a stub runner that accepts the built job answers with its fixed result |
| ClassQuestionGraderScenarios.RejectedJob | Services/test/CSClassroom/CSClassroom.Service.UnitTests/Assignments/QuestionGraders/ClassQuestionGrader_UnitTests.cs:738-754 | a job the stub does not accept scores 0 |
| ClassQuestionGraderScenarios.FixtureStructure | Services/test/CSClassroom/CSClassroom.Service.UnitTests/Assignments/QuestionGraders/ClassQuestionGrader_UnitTests.cs:530-732 | the fixture class with any fields has no method error, in each of the eight fixture variants |
| ClassQuestionGraderScenarios.FixtureTestPasses | Services/test/CSClassroom/CSClassroom.Service.UnitTests/Assignments/QuestionGraders/ClassQuestionGrader_UnitTests.cs:530-732 | the fixture's one test succeeds and carries its description |
| ClassQuestionGraderScenarios.FixtureGrade | Services/test/CSClassroom/CSClassroom.Service.UnitTests/Assignments/QuestionGraders/ClassQuestionGrader_UnitTests.cs:530-732 | the fixture result scores 1 with no error and one described outcome |
| ClassQuestionGraderScenarios.JobHasImportedClasses | Services/test/CSClassroom/CSClassroom.Service.UnitTests/Assignments/QuestionGraders/ClassQuestionGrader_UnitTests.cs:28-44 | for any submission the job imports `package.classToImport` only, and a runner checking this scores 1 |
| ClassQuestionGraderScenarios.JobHasClassName | Services/test/CSClassroom/CSClassroom.Service.UnitTests/Assignments/QuestionGraders/ClassQuestionGrader_UnitTests.cs:50-65 | for any submission the job's class name is `ExpectedClass`, and a runner checking this scores 1 |
| ClassQuestionGraderScenarios.JobHasFileContents | Services/test/CSClassroom/CSClassroom.Service.UnitTests/Assignments/QuestionGraders/ClassQuestionGrader_UnitTests.cs:71-91 | a submission ending in `%`, such as `Submission %`, arrives after the four template lines with that `%` doubled |
| ClassQuestionGraderScenarios.TemplateLineCount | Services/test/CSClassroom/CSClassroom.Service.UnitTests/Assignments/QuestionGraders/ClassQuestionGrader_UnitTests.cs:97-112 | the template holds four newlines before the placeholder |
| ClassQuestionGraderScenarios.JobHasLineOffset | Services/test/CSClassroom/CSClassroom.Service.UnitTests/Assignments/QuestionGraders/ClassQuestionGrader_UnitTests.cs:97-112 | for any submission the line offset is -4, and a runner checking this scores 1 |
| ClassQuestionGraderScenarios.JobHasTests | Services/test/CSClassroom/CSClassroom.Service.UnitTests/Assignments/QuestionGraders/ClassQuestionGrader_UnitTests.cs:118-136 | for any submission the job carries the one test `test1` with its body and return type |
| ClassQuestionGraderScenarios.MissingExpectedClass | Services/test/CSClassroom/CSClassroom.Service.UnitTests/Assignments/QuestionGraders/ClassQuestionGrader_UnitTests.cs:143-173 | a class that failed to compile scores 0 with the single missing-class error for `ExpectedClass` |
| ClassQuestionGraderScenarios.ForbiddenPublicFields | Services/test/CSClassroom/CSClassroom.Service.UnitTests/Assignments/QuestionGraders/ClassQuestionGrader_UnitTests.cs:180-212 | a public `field1` next to a private `field2` scores 0 with one visibility error, for `field1` |
| ClassQuestionGraderScenarios.PermittedPublicFields | Services/test/CSClassroom/CSClassroom.Service.UnitTests/Assignments/QuestionGraders/ClassQuestionGrader_UnitTests.cs:219-248 | the same fields score 1 with no error when public fields are allowed |
| ClassQuestionGraderScenarios.MissingRequiredMethod | Services/test/CSClassroom/CSClassroom.Service.UnitTests/Assignments/QuestionGraders/ClassQuestionGrader_UnitTests.cs:255-274 | no methods: score 0 and a count error expecting one non-static `requiredMethod` |
| ClassQuestionGraderScenarios.WrongMethodVisibility | Services/test/CSClassroom/CSClassroom.Service.UnitTests/Assignments/QuestionGraders/ClassQuestionGrader_UnitTests.cs:281-300 | a private method: score 0 and one definition error that expects a public method |
| ClassQuestionGraderScenarios.UnexpectedStaticMethod | Services/test/CSClassroom/CSClassroom.Service.UnitTests/Assignments/QuestionGraders/ClassQuestionGrader_UnitTests.cs:307-326 | a static method: score 0 and one definition error that expects a non-static method |
| ClassQuestionGraderScenarios.WrongReturnType | Services/test/CSClassroom/CSClassroom.Service.UnitTests/Assignments/QuestionGraders/ClassQuestionGrader_UnitTests.cs:333-352 | returning `boolean`: score 0 and one definition error expecting `String` |
| ClassQuestionGraderScenarios.WrongParameterTypes | Services/test/CSClassroom/CSClassroom.Service.UnitTests/Assignments/QuestionGraders/ClassQuestionGrader_UnitTests.cs:359-378 | parameters `int, double`: score 0 and one definition error expecting `int, int` |
| ClassQuestionGraderScenarios.TooFewOverloads | Services/test/CSClassroom/CSClassroom.Service.UnitTests/Assignments/QuestionGraders/ClassQuestionGrader_UnitTests.cs:385-406 | one of two overloads: score 0 and a count error expecting two non-static overloads |
| ClassQuestionGraderScenarios.TooManyOverloads | Services/test/CSClassroom/CSClassroom.Service.UnitTests/Assignments/QuestionGraders/ClassQuestionGrader_UnitTests.cs:413-434 | two overloads where one is required: score 0 and a count error expecting one |
| ClassQuestionGraderScenarios.WrongOverloadSignature | Services/test/CSClassroom/CSClassroom.Service.UnitTests/Assignments/QuestionGraders/ClassQuestionGrader_UnitTests.cs:441-464 | an overload re-typed to `String`: score 0 and one definition error naming the `int` overload returning `boolean` |
| ClassQuestionGraderScenarios.TwoAgainstTwo | Services/test/CSClassroom/CSClassroom.Service.UnitTests/Assignments/QuestionGraders/ClassQuestionGrader_UnitTests.cs:441-464 | pairing two required overloads with two compiled ones, both when the first pair matches and when the first required one matches nothing |
| ClassQuestionGraderScenarios.CorrectSubmissionTestDescription | Services/test/CSClassroom/CSClassroom.Service.UnitTests/Assignments/QuestionGraders/ClassQuestionGrader_UnitTests.cs:471-484 | a correct submission yields one test outcome, described `Description` |
| ClassQuestionGraderScenarios.CorrectSubmissionCorrectScore | Services/test/CSClassroom/CSClassroom.Service.UnitTests/Assignments/QuestionGraders/ClassQuestionGrader_UnitTests.cs:489-525 | in all eight combinations of constructor, generics and overloads a correct submission scores 1 with no error |
| Strings.IndexOf | Services/test/CSClassroom/CSClassroom.Service.UnitTests/Assignments/QuestionGraders/ClassQuestionGrader_UnitTests.cs:71-112 | the placeholder is found at its first occurrence, or reported absent only when it does not occur |
| Strings.JoinSplit | Services/test/CSClassroom/CSClassroom.Service.UnitTests/Assignments/QuestionGraders/ClassQuestionGrader_UnitTests.cs:597-599 | splitting the parameter text at commas and re-joining gives it back |
| DownloadSubmission.StudentName | Services/src/CSClassroom/CSClassroom.WebApp/ViewModels/Submission/DownloadSubmissionViewModel.cs:190-193 | the name is the last name, `, `, then the first name |
| DownloadSubmission.Eligible | Services/src/CSClassroom/CSClassroom.WebApp/ViewModels/Submission/DownloadSubmissionViewModel.cs:151-167 | the students the link may name number no more than the section's students |
| DownloadSubmission.EligibleMembers | Services/src/CSClassroom/CSClassroom.WebApp/ViewModels/Submission/DownloadSubmissionViewModel.cs:141-167 | a student is eligible iff they are in the section, selected, and submitted or unsubmitted code is included |
| DownloadSubmission.EligibleConcat | Services/src/CSClassroom/CSClassroom.WebApp/ViewModels/Submission/DownloadSubmissionViewModel.cs:161-167 | the loop's filter is compositional: the eligible students of `a + b` are those of `a`, then those of `b` |
| DownloadSubmission.AppendStudentNames | Services/src/CSClassroom/CSClassroom.WebApp/ViewModels/Submission/DownloadSubmissionViewModel.cs:159-179 | the loop builds `Students: ` and the names of the first three eligible students, separated by `; `, and counts the names it appended |
| DownloadSubmission.GetStudentSummaryDisplay | Services/src/CSClassroom/CSClassroom.WebApp/ViewModels/Submission/DownloadSubmissionViewModel.cs:138-188 | the method computes `SummaryDisplay`: All, None, or the first three names, with no count after them |
| DownloadSubmissionProperties.AllIff | Services/src/CSClassroom/CSClassroom.WebApp/ViewModels/Submission/DownloadSubmissionViewModel.cs:141-149 | the link says All (with `(except unsubmitted)` when unsubmitted code is excluded) iff every allowable student is selected |
| DownloadSubmissionProperties.NoneIff | Services/src/CSClassroom/CSClassroom.WebApp/ViewModels/Submission/DownloadSubmissionViewModel.cs:151-157 | the link says None iff some allowable student is unselected and none is both selected and allowable |
| DownloadSubmissionProperties.EligibleEmptyIff | Services/src/CSClassroom/CSClassroom.WebApp/ViewModels/Submission/DownloadSubmissionViewModel.cs:151-157 | the count of selected allowable students is 0 iff there is no such student |
| DownloadSubmissionProperties.ListedTextHasComma | Services/src/CSClassroom/CSClassroom.WebApp/ViewModels/Submission/DownloadSubmissionViewModel.cs:159-179 | a listing of names always holds a comma, so it is never mistaken for All or None |
| DownloadSubmissionProperties.EligibleAllListed | Services/src/CSClassroom/CSClassroom.WebApp/ViewModels/Submission/DownloadSubmissionViewModel.cs:161-167 | a run of selected allowable students is kept whole and in order |
| DownloadSubmissionProperties.ShowsLeadingListed | Services/src/CSClassroom/CSClassroom.WebApp/ViewModels/Submission/DownloadSubmissionViewModel.cs:159-179 | the names shown are the first ones in list order: a list opening with selected allowable students names the first three of them |
| DownloadSubmissionProperties.UnallowableIgnored | Services/src/CSClassroom/CSClassroom.WebApp/ViewModels/Submission/DownloadSubmissionViewModel.cs:141-167 | a student who may not be downloaded does not change the link, selected or not, in the code's text and in the corrected one |
| DownloadSubmissionProperties.UnselectedAllowableNotAll | Services/src/CSClassroom/CSClassroom.WebApp/ViewModels/Submission/DownloadSubmissionViewModel.cs:144-149 | one allowable unselected student rules out All |
| DownloadSubmissionProperties.NatToStringRoundTrip | Services/src/CSClassroom/CSClassroom.WebApp/ViewModels/Submission/DownloadSubmissionViewModel.cs:181-185 | the decimal text of the remaining count reads back as that count |
| DownloadSubmissionProperties.AsWrittenOmitsRest | Services/src/CSClassroom/CSClassroom.WebApp/ViewModels/Submission/DownloadSubmissionViewModel.cs:159-185 | as written, once more than three students are eligible the link names three and says nothing of the others, unlike the corrected text |
| DownloadSubmissionProperties.FourListedOneUnselected | Services/src/CSClassroom/CSClassroom.WebApp/ViewModels/Submission/DownloadSubmissionViewModel.cs:159-185 | four eligible students: the code names three with no suffix, the corrected text adds `; and 1 more` |
| DownloadSubmissionProperties.FourOfFiveOmitsOne | Services/src/CSClassroom/CSClassroom.WebApp/ViewModels/Submission/DownloadSubmissionViewModel.cs:159-185 | a concrete section where the code shows `Students: Ames, Ann; Bell, Bob; Cole, Cat` and the corrected text adds `; and 1 more` |
| DownloadSubmission.GetStudentSummaryDisplayCorrected | Services/src/CSClassroom/CSClassroom.WebApp/ViewModels/Submission/DownloadSubmissionViewModel.cs:138-188 | the corrected method computes `SummaryDisplayCorrected`, counting the students beyond the first three |
| DownloadSubmissionProperties.CorrectedAccountsForEveryone | Services/src/CSClassroom/CSClassroom.WebApp/ViewModels/Submission/DownloadSubmissionViewModel.cs:159-185 | the corrected text names the first three eligible students and counts exactly the ones not named; a suffix appears iff more than three are eligible |
| DownloadSubmissionProperties.MoreSuffixCounts | Services/src/CSClassroom/CSClassroom.WebApp/ViewModels/Submission/DownloadSubmissionViewModel.cs:181-185 | the suffix reads `; and N more`, where N reads back as the number not named |

## Left out

- The implementation of `ClassQuestionGrader` is not part of this model. Its behaviour is inferred from the unit tests and their fixtures. Where the tests are silent, the model chooses:
  - a constructor, which has no return type, is grouped under the class name;
  - parameter types are compared after erasing everything from the first `<`;
  - a test result is looked up by test name;
  - a null expected return value accepts any returned value, while a non-null one must be returned exactly. The fixtures only pair a null expected value with a null result, so they do not tell the two rules apart;
  - tests that did not compile, with no structural error, give one test-compilation error and score 0. No unit test covers this path.
- Job status: the runner's status field is left out. Every fixture completes, and the handling of other statuses is not shown.
- The code runner service, async calls and Moq: the runner is a function parameter. The Moq stub answers `null` when its predicate rejects the job; the model answers instead with a result in which nothing compiled, so that case also scores 0.
- Error message text: errors are modelled by their fields, not by their rendered messages.
- Generic arguments that hold commas, such as `Map<K, V>`: the parameter-type text is split at every comma.
- Overload pairing tie-breaks when two compiled overloads have the same erased parameter list: the model takes the first.
- ClassQuestionGrader.ScoreOf: a question with no tests scores 0.0. The division in C# would give NaN. Scores are exact reals, not doubles.
- The Display attributes, `SelectListItem`, `SectionName` and the submit-button text of the download view model are presentation-only.
- Startup.cs, CheckpointDownloadCandidateResult.cs, ISectionService.cs, IAssignmentGroupResultGenerator.cs, ProgarmQuestionLoader.cs and ClassJobResult.cs are context. Only the record shapes of ClassJobResult.cs are modelled, in `CodeRunner`.
- `(except unsubmitted)` is appended without a leading space, exactly as written.

## Findings

| source | as written | input that shows it | evidently intended | confidence | as-written member | corrected member |
|---|---|---|---|---|---|---|
| Services/src/CSClassroom/CSClassroom.WebApp/ViewModels/Submission/DownloadSubmissionViewModel.cs:181-185 | the count after the names is `numStudentsAppended - 3`, but the loop stops at three, so the count is never positive and `; and N more` never appears | four selected students who submitted and one unselected student, with unsubmitted code included: the link reads `Students: Ames, Ann; Bell, Bob; Cole, Cat`, and the fourth student goes unmentioned | the count is `numStudents - 3`, the number of eligible students not named | high; not executed | DownloadSubmissionProperties.AsWrittenOmitsRest | DownloadSubmissionProperties.CorrectedAccountsForEveryone |
