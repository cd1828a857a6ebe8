/**
 * The unit-test scenarios of `ClassQuestionGrader`, stated over the model: the fixture
 * question and job result, a stub code runner that answers only a job it
 * accepts, and one lemma per scenario.
 */
module ClassQuestionGraderScenarios {
  import opened Wrappers
  import opened Strings
  import opened CodeRunner
  import opened ClassQuestions
  import opened ClassQuestionGrader
  import opened ClassQuestionGraderProperties

  // ---------------------------------------------------------------------
  // Fixtures
  // ---------------------------------------------------------------------

  const TemplatePrefix: string := "class InternalClass\n{\n}\n\n"

  /** The fixture question; its four switches select the scenario. */
  function Question(allowPublicFields: bool, overloadedMethods: bool, useGenerics: bool, isConstructor: bool)
    : ClassQuestion
  {
    var name := if isConstructor then "ExpectedClass"
                else if overloadedMethods then "requiredOverloadedMethod" else "requiredMethod";
    var methods :=
      if overloadedMethods then
        [ RequiredMethod(name, true, false,
            if useGenerics then "ArrayList<Integer>" else "int",
            if isConstructor then None else Some(if useGenerics then "ArrayList<Boolean>" else "boolean")),
          RequiredMethod(name, true, false, "double",
            if isConstructor then None else Some(if useGenerics then "ArrayList<String>" else "String")) ]
      else
        [ RequiredMethod(name, true, false,
            if useGenerics then "ArrayList<Integer>, ArrayList<Integer>" else "int, int",
            if isConstructor then None else Some(if useGenerics then "ArrayList<String>" else "String")) ];
    ClassQuestion(
      "ExpectedClass",
      TemplatePrefix + SubmissionPlaceholder,
      allowPublicFields,
      [ImportedClass("package.classToImport")],
      methods,
      [ClassQuestionTest("test1", 1, "Description", "Method Body", "String",
         if isConstructor then None else Some("expectedReturnValue"), "expectedOutput")])
  }

  /** The fixture question with every switch off. */
  function DefaultQuestion(): ClassQuestion
  {
    Question(false, false, false, false)
  }

  /** The fixture's compiled methods. */
  function FixtureMethods(overloadedMethods: bool, useGenerics: bool, isConstructor: bool): seq<MethodDefinition>
  {
    var name := if isConstructor then "ExpectedClass"
                else if overloadedMethods then "requiredOverloadedMethod" else "requiredMethod";
    var generic := if useGenerics then "ArrayList" else "int";
    if overloadedMethods then
      [ MethodDefinition(name, true, false, [generic],
          if isConstructor then None else Some(if useGenerics then "ArrayList" else "boolean")),
        MethodDefinition(name, true, false, ["double"],
          if isConstructor then None else Some(if useGenerics then "ArrayList" else "String")) ]
    else
      [ MethodDefinition(name, true, false, [generic, generic],
          if isConstructor then None else Some(if useGenerics then "ArrayList" else "String")) ]
  }

  /** The fixture job result; `success` decides whether the tests compiled and ran. */
  function JobResult(success: bool, overloadedMethods: bool, useGenerics: bool, isConstructor: bool): ClassJobResult
  {
    ClassJobResult(
      CompilationResult(true, []),
      Some(ClassDefinition("ExpectedClass", [], FixtureMethods(overloadedMethods, useGenerics, isConstructor))),
      Some(if success then CompilationResult(true, [])
           else CompilationResult(false, [CompileError("", "Test compilation failure")])),
      if success then Some([CodeTestResult("test1", true, "expectedOutput",
                              if isConstructor then None else Some("expectedReturnValue"))])
      else None)
  }

  /** The default job result with its compiled methods replaced. */
  function WithMethods(result: ClassJobResult, methods: seq<MethodDefinition>): ClassJobResult
    requires result.classDefinition.Some?
  {
    result.(classDefinition := Some(result.classDefinition.value.(methods := methods)))
  }

  /** The default job result with its compiled fields replaced. */
  function WithFields(result: ClassJobResult, fields: seq<FieldDefinition>): ClassJobResult
    requires result.classDefinition.Some?
  {
    result.(classDefinition := Some(result.classDefinition.value.(fields := fields)))
  }

  /** What the stub code runner answers for a job it does not accept: nothing compiled. */
  const Unanswered: ClassJobResult :=
    ClassJobResult(CompilationResult(false, []), None, None, None)

  /** A stub code runner that answers `answer` to jobs satisfying `accepts`. */
  function StubRunner(answer: ClassJobResult, accepts: ClassJob -> bool): ClassJob -> ClassJobResult
  {
    job => if accepts(job) then answer else Unanswered
  }

  function AnyJob(): ClassJob -> bool
  {
    job => true
  }

  // ---------------------------------------------------------------------
  // The greedy pairing on overload sets of one and two methods
  // ---------------------------------------------------------------------

  /** The error for a required method paired with a compiled one, if their signatures differ. */
  function PairErrors(className: string, key: string, m: RequiredMethod, d: MethodDefinition): seq<CodeQuestionError>
  {
    if SignatureMatches(m, d) then [] else [DefinitionError(className, key, m)]
  }

  lemma OneAgainstOne(className: string, key: string, m: RequiredMethod, d: MethodDefinition)
    ensures DefinitionErrors(className, key, [m], [d])
            == if ParamsMatch(m, d) then PairErrors(className, key, m, d) else [DefinitionError(className, key, m)]
  {
    assert [m][1..] == [];
    if ParamsMatch(m, d) {
      assert FirstParamMatch(m, [d]) == 0;
      assert RemoveAt([d], 0) == [];
    } else {
      assert [d][1..] == [];
      assert FirstParamMatch(m, [d]) == 1;
    }
  }

  lemma OneAgainstTwo(className: string, key: string, m: RequiredMethod, d1: MethodDefinition, d2: MethodDefinition)
    requires !ParamsMatch(m, d1) && ParamsMatch(m, d2)
    ensures DefinitionErrors(className, key, [m], [d1, d2]) == PairErrors(className, key, m, d2)
  {
    assert [m][1..] == [];
    assert [d1, d2][1..] == [d2];
    assert FirstParamMatch(m, [d1, d2]) == 1;
    assert RemoveAt([d1, d2], 1) == [d1];
  }

  lemma TwoAgainstTwo(
    className: string, key: string, m1: RequiredMethod, m2: RequiredMethod, d1: MethodDefinition, d2: MethodDefinition)
    requires ParamsMatch(m2, d2)
    ensures ParamsMatch(m1, d1) ==>
              DefinitionErrors(className, key, [m1, m2], [d1, d2])
              == PairErrors(className, key, m1, d1) + PairErrors(className, key, m2, d2)
    ensures !ParamsMatch(m1, d1) && !ParamsMatch(m1, d2) && !ParamsMatch(m2, d1) ==>
              DefinitionErrors(className, key, [m1, m2], [d1, d2])
              == [DefinitionError(className, key, m1)] + PairErrors(className, key, m2, d2)
  {
    assert [m1, m2][1..] == [m2];
    if ParamsMatch(m1, d1) {
      assert FirstParamMatch(m1, [d1, d2]) == 0;
      assert RemoveAt([d1, d2], 0) == [d2];
      OneAgainstOne(className, key, m2, d2);
    } else if !ParamsMatch(m1, d2) && !ParamsMatch(m2, d1) {
      assert [d1, d2][1..] == [d2];
      assert [d2][1..] == [];
      assert FirstParamMatch(m1, [d1, d2]) == 2;
      OneAgainstTwo(className, key, m2, d1, d2);
    }
  }

  // ---------------------------------------------------------------------
  // The fixture's overload sets
  // ---------------------------------------------------------------------

  function SingleRequired(useGenerics: bool, isConstructor: bool): RequiredMethod
  {
    Question(false, false, useGenerics, isConstructor).requiredMethods[0]
  }

  function SingleActual(useGenerics: bool, isConstructor: bool): MethodDefinition
  {
    FixtureMethods(false, useGenerics, isConstructor)[0]
  }

  lemma IntPairMatches()
    ensures ParamTypesMatch(ExpectedParamTypeList("int, int"), ["int", "int"])
  {
    TwoParamTypes("int, int", "int", "int");
  }

  /** `ArrayList<T>` matches the erased `ArrayList` the compiler reports. */
  lemma ArrayListMatches(t: string)
    requires t == "ArrayList<Integer>" || t == "ArrayList<Boolean>" || t == "ArrayList<String>"
    ensures TypesMatch(t, "ArrayList")
  {
    var args := t[|"ArrayList<"|..];
    assert t == "ArrayList" + "<" + args;
    ErasureComparison("ArrayList", "ArrayList", args);
  }

  lemma PairMatches(t: string, a: string)
    requires TypesMatch(t, a)
    ensures ParamTypesMatch([t, t], [a, a])
  {
  }

  lemma ArrayListPairMatches()
    ensures ParamTypesMatch(ExpectedParamTypeList("ArrayList<Integer>, ArrayList<Integer>"), ["ArrayList", "ArrayList"])
  {
    var t := "ArrayList<Integer>";
    ArrayListPairText();
    TwoParamTypes("ArrayList<Integer>, ArrayList<Integer>", t, t);
    ArrayListMatches(t);
    PairMatches(t, "ArrayList");
  }

  lemma ArrayListPairText()
    ensures "ArrayList<Integer>, ArrayList<Integer>" == "ArrayList<Integer>" + ", " + "ArrayList<Integer>"
    ensures TrimmedName("ArrayList<Integer>") && ',' !in "ArrayList<Integer>"
  {
  }

  /** The fixture's one required method matches the fixture's compiled method. */
  lemma SingleMatches(useGenerics: bool, isConstructor: bool)
    ensures ParamsMatch(SingleRequired(useGenerics, isConstructor), SingleActual(useGenerics, isConstructor))
    ensures SignatureMatches(SingleRequired(useGenerics, isConstructor), SingleActual(useGenerics, isConstructor))
  {
    var m := SingleRequired(useGenerics, isConstructor);
    var d := SingleActual(useGenerics, isConstructor);
    if useGenerics {
      assert m.paramTypes == "ArrayList<Integer>, ArrayList<Integer>";
      assert d.parameterTypes == ["ArrayList", "ArrayList"];
      ArrayListPairMatches();
      ArrayListMatches("ArrayList<String>");
    } else {
      assert m.paramTypes == "int, int";
      assert d.parameterTypes == ["int", "int"];
      IntPairMatches();
    }
  }

  function OverloadRequired(i: nat, useGenerics: bool, isConstructor: bool): RequiredMethod
    requires i < 2
  {
    Question(false, true, useGenerics, isConstructor).requiredMethods[i]
  }

  function OverloadActual(i: nat, useGenerics: bool, isConstructor: bool): MethodDefinition
    requires i < 2
  {
    FixtureMethods(true, useGenerics, isConstructor)[i]
  }

  lemma PlainParamMatches(t: string)
    requires t == "int" || t == "double"
    ensures ParamTypesMatch(ExpectedParamTypeList(t), [t])
  {
    SingleParamType(t);
  }

  lemma SingletonMatches(t: string, a: string)
    requires TypesMatch(t, a)
    ensures ParamTypesMatch([t], [a])
  {
  }

  lemma ArrayListParamMatches()
    ensures ParamTypesMatch(ExpectedParamTypeList("ArrayList<Integer>"), ["ArrayList"])
  {
    var t := "ArrayList<Integer>";
    SingleParamType(t);
    ArrayListMatches(t);
    SingletonMatches(t, "ArrayList");
  }

  /** The fixture's first required overload matches the first compiled overload. */
  lemma FirstOverloadMatches(useGenerics: bool, isConstructor: bool)
    ensures ParamsMatch(OverloadRequired(0, useGenerics, isConstructor), OverloadActual(0, useGenerics, isConstructor))
    ensures SignatureMatches(OverloadRequired(0, useGenerics, isConstructor), OverloadActual(0, useGenerics, isConstructor))
  {
    var m := OverloadRequired(0, useGenerics, isConstructor);
    var d := OverloadActual(0, useGenerics, isConstructor);
    if useGenerics {
      assert m.paramTypes == "ArrayList<Integer>" && d.parameterTypes == ["ArrayList"];
      ArrayListParamMatches();
      ArrayListMatches("ArrayList<Boolean>");
    } else {
      assert m.paramTypes == "int" && d.parameterTypes == ["int"];
      PlainParamMatches("int");
    }
  }

  /** The fixture's second required overload matches the second compiled overload. */
  lemma SecondOverloadMatches(useGenerics: bool, isConstructor: bool)
    ensures ParamsMatch(OverloadRequired(1, useGenerics, isConstructor), OverloadActual(1, useGenerics, isConstructor))
    ensures SignatureMatches(OverloadRequired(1, useGenerics, isConstructor), OverloadActual(1, useGenerics, isConstructor))
  {
    var m := OverloadRequired(1, useGenerics, isConstructor);
    var d := OverloadActual(1, useGenerics, isConstructor);
    assert m.paramTypes == "double" && d.parameterTypes == ["double"];
    PlainParamMatches("double");
    if useGenerics {
      ArrayListMatches("ArrayList<String>");
    }
  }

  /** The fixture's methods raise no error against the fixture's question. */
  lemma FixtureGroupHasNoErrors(overloadedMethods: bool, useGenerics: bool, isConstructor: bool)
    ensures var q := Question(false, overloadedMethods, useGenerics, isConstructor);
            GroupErrors(q.className, MethodKey(q.className, q.requiredMethods[0]), q.requiredMethods,
              FixtureMethods(overloadedMethods, useGenerics, isConstructor)) == []
  {
    var q := Question(false, overloadedMethods, useGenerics, isConstructor);
    var key := MethodKey(q.className, q.requiredMethods[0]);
    if overloadedMethods {
      FirstOverloadMatches(useGenerics, isConstructor);
      SecondOverloadMatches(useGenerics, isConstructor);
      var m1, m2 := OverloadRequired(0, useGenerics, isConstructor), OverloadRequired(1, useGenerics, isConstructor);
      var d1, d2 := OverloadActual(0, useGenerics, isConstructor), OverloadActual(1, useGenerics, isConstructor);
      assert q.requiredMethods == [m1, m2];
      assert FixtureMethods(overloadedMethods, useGenerics, isConstructor) == [d1, d2];
      TwoAgainstTwo(q.className, key, m1, m2, d1, d2);
    } else {
      var m, d := SingleRequired(useGenerics, isConstructor), SingleActual(useGenerics, isConstructor);
      SingleMatches(useGenerics, isConstructor);
      assert q.requiredMethods == [m];
      assert FixtureMethods(overloadedMethods, useGenerics, isConstructor) == [d];
      OneAgainstOne(q.className, key, m, d);
    }
  }

  /** The name every required and compiled method of the fixture carries. */
  function FixtureKey(overloadedMethods: bool, isConstructor: bool): string
  {
    if isConstructor then "ExpectedClass"
    else if overloadedMethods then "requiredOverloadedMethod" else "requiredMethod"
  }

  lemma FixtureNames(allowPublicFields: bool, overloadedMethods: bool, useGenerics: bool, isConstructor: bool)
    ensures var q := Question(allowPublicFields, overloadedMethods, useGenerics, isConstructor);
            var key := FixtureKey(overloadedMethods, isConstructor);
            q.requiredMethods == Question(false, overloadedMethods, useGenerics, isConstructor).requiredMethods
            && q.requiredMethods != []
            && MethodKey(q.className, q.requiredMethods[0]) == key
            && (forall m :: m in q.requiredMethods ==> MethodKey(q.className, m) == key)
            && (forall d :: d in FixtureMethods(overloadedMethods, useGenerics, isConstructor) ==> d.name == key)
  {
  }

  /**
   * The fixture's compiled class, with any fields, has no method error; with
   * no public field it has no structural error at all.
   */
  lemma FixtureStructure(allowPublicFields: bool, overloadedMethods: bool, useGenerics: bool, isConstructor: bool,
                         success: bool, fields: seq<FieldDefinition>)
    ensures var q := Question(allowPublicFields, overloadedMethods, useGenerics, isConstructor);
            CompareStructure(q, WithFields(JobResult(success, overloadedMethods, useGenerics, isConstructor), fields))
            == if allowPublicFields then [] else PublicFieldErrors(q.className, fields)
  {
    var q := Question(allowPublicFields, overloadedMethods, useGenerics, isConstructor);
    var r := WithFields(JobResult(success, overloadedMethods, useGenerics, isConstructor), fields);
    FixtureNames(allowPublicFields, overloadedMethods, useGenerics, isConstructor);
    FixtureGroupHasNoErrors(overloadedMethods, useGenerics, isConstructor);
    SingleOverloadSet(q, r, FixtureKey(overloadedMethods, isConstructor));
  }

  /** The fixture's test passes against the fixture's successful test results. */
  lemma FixtureTestPasses(overloadedMethods: bool, useGenerics: bool, isConstructor: bool)
    ensures var q := Question(false, overloadedMethods, useGenerics, isConstructor);
            var rs := JobResult(true, overloadedMethods, useGenerics, isConstructor).testResults.value;
            TestOutcomes(q.tests, rs) == [TestOutcome(q.tests[0], rs)]
            && TestOutcome(q.tests[0], rs).succeeded
            && TestOutcome(q.tests[0], rs).description == "Description"
  {
  }

  // ---------------------------------------------------------------------
  // The stub code runner
  // ---------------------------------------------------------------------

  /** A job the stub accepts is graded on the stub's answer. */
  lemma AcceptedJob(question: ClassQuestion, submission: string, answer: ClassJobResult, accepts: ClassJob -> bool)
    requires accepts(BuildJob(question, submission))
    ensures GradeSubmission(question, submission, StubRunner(answer, accepts)) == Grade(question, answer)
  {
  }

  /** A job the stub rejects finds no compiled class and scores 0. */
  lemma RejectedJob(question: ClassQuestion, submission: string, answer: ClassJobResult, accepts: ClassJob -> bool)
    requires !accepts(BuildJob(question, submission))
    ensures GradeSubmission(question, submission, StubRunner(answer, accepts)).score == 0.0
  {
    MissingClassShortCircuits(question, Unanswered);
  }

  /** A correct submission against the fixture scores 1 with no error and one described outcome. */
  lemma FixtureGrade(overloadedMethods: bool, useGenerics: bool, isConstructor: bool)
    ensures var g := Grade(Question(false, overloadedMethods, useGenerics, isConstructor),
                           JobResult(true, overloadedMethods, useGenerics, isConstructor));
            g.score == 1.0 && g.result.errors == []
            && |g.result.testResults| == 1 && g.result.testResults[0].description == "Description"
  {
    var r := JobResult(true, overloadedMethods, useGenerics, isConstructor);
    assert WithFields(r, []) == r;
    FixtureStructure(false, overloadedMethods, useGenerics, isConstructor, true, []);
    FixtureTestPasses(overloadedMethods, useGenerics, isConstructor);
  }

  // ---------------------------------------------------------------------
  // The job sent to the code runner
  // ---------------------------------------------------------------------

  /** A stub that accepts the job built for the default question answers a perfect grade. */
  lemma AcceptedDefaultJob(submission: string, accepts: ClassJob -> bool)
    requires accepts(BuildJob(DefaultQuestion(), submission))
    ensures GradeSubmission(DefaultQuestion(), submission, StubRunner(JobResult(true, false, false, false), accepts)).score
            == 1.0
  {
    AcceptedJob(DefaultQuestion(), submission, JobResult(true, false, false, false), accepts);
    FixtureGrade(false, false, false);
  }

  /** The job imports the question's one imported class; a stub that checks this accepts it. */
  lemma JobHasImportedClasses(submission: string)
    ensures var job := BuildJob(DefaultQuestion(), submission);
            |job.classesToImport| == 1 && job.classesToImport[0] == "package.classToImport"
    ensures GradeSubmission(DefaultQuestion(), submission,
              StubRunner(JobResult(true, false, false, false),
                (job: ClassJob) => |job.classesToImport| == 1 && job.classesToImport[0] == "package.classToImport")).score == 1.0
  {
    AcceptedDefaultJob(submission,
      (job: ClassJob) => |job.classesToImport| == 1 && job.classesToImport[0] == "package.classToImport");
  }

  /** The job carries the question's class name. */
  lemma JobHasClassName(submission: string)
    ensures BuildJob(DefaultQuestion(), submission).className == "ExpectedClass"
    ensures GradeSubmission(DefaultQuestion(), submission,
              StubRunner(JobResult(true, false, false, false), (job: ClassJob) => job.className == "ExpectedClass")).score == 1.0
  {
    AcceptedDefaultJob(submission, (job: ClassJob) => job.className == "ExpectedClass");
  }

  /** The default template yields its prefix followed by the escaped submission. */
  lemma DefaultTemplate(submission: string)
    ensures BuildJob(DefaultQuestion(), submission).fileContents == TemplatePrefix + EscapePercent(submission)
    ensures BuildJob(DefaultQuestion(), submission).lineNumberOffset == -(CountChar(TemplatePrefix, '\n') as int)
  {
    var q := DefaultQuestion();
    assert q.fileTemplate == TemplatePrefix + SubmissionPlaceholder + "";
    IndexOfAfterPrefix(TemplatePrefix, SubmissionPlaceholder, "");
    JobFileContents(q, submission, TemplatePrefix, "");
  }

  lemma EscapeTrailingPercent(a: string)
    requires '%' !in a
    ensures EscapePercent(a + "%") == a + "%%"
  {
    EscapeConcat(a, "%");
    EscapeWithoutPercent(a);
    EscapeOnePercent();
  }

  lemma EscapeOnePercent()
    ensures EscapePercent("%") == "%%"
  {
    assert EscapePercent("%") == "%%" + EscapePercent("");
  }

  /**
   * The placeholder is replaced by the submission with its `%` doubled: a
   * submission such as `Submission %` arrives as `Submission %%`.
   */
  lemma JobHasFileContents(a: string)
    requires '%' !in a
    ensures BuildJob(DefaultQuestion(), a + "%").fileContents == TemplatePrefix + a + "%%"
    ensures GradeSubmission(DefaultQuestion(), a + "%",
              StubRunner(JobResult(true, false, false, false),
                (job: ClassJob) => job.fileContents == TemplatePrefix + a + "%%")).score == 1.0
  {
    DefaultTemplate(a + "%");
    EscapeTrailingPercent(a);
    AcceptedDefaultJob(a + "%", (job: ClassJob) => job.fileContents == TemplatePrefix + a + "%%");
  }

  /** Four lines, each ended by a newline, hold four newlines. */
  lemma FourLines(l1: string, l2: string, l3: string)
    requires '\n' !in l1 && '\n' !in l2 && '\n' !in l3
    ensures CountChar(l1 + "\n" + l2 + "\n" + l3 + "\n" + "\n", '\n') == 4
  {
    var nl := "\n";
    assert CountChar(nl, '\n') == 1 by {
      assert nl[..0] == [];
    }
    CountCharConcat(l1 + nl + l2 + nl + l3 + nl, nl, '\n');
    CountCharConcat(l1 + nl + l2 + nl + l3, nl, '\n');
    CountCharConcat(l1 + nl + l2 + nl, l3, '\n');
    CountCharConcat(l1 + nl + l2, nl, '\n');
    CountCharConcat(l1 + nl, l2, '\n');
    CountCharConcat(l1, nl, '\n');
  }

  lemma TemplateLineCount()
    ensures CountChar(TemplatePrefix, '\n') == 4
  {
    var line1, line2, line3 := "class InternalClass", "{", "}";
    assert TemplatePrefix == line1 + "\n" + line2 + "\n" + line3 + "\n" + "\n";
    FourLines(line1, line2, line3);
  }

  /** The line offset is minus the four template lines before the placeholder. */
  lemma JobHasLineOffset(submission: string)
    ensures BuildJob(DefaultQuestion(), submission).lineNumberOffset == -4
    ensures GradeSubmission(DefaultQuestion(), submission,
              StubRunner(JobResult(true, false, false, false), (job: ClassJob) => job.lineNumberOffset == -4)).score == 1.0
  {
    DefaultTemplate(submission);
    TemplateLineCount();
    AcceptedDefaultJob(submission, (job: ClassJob) => job.lineNumberOffset == -4);
  }

  lemma JobTests(q: ClassQuestion, submission: string)
    requires q == DefaultQuestion()
    ensures BuildJob(q, submission).tests == [CodeTest("test1", "Method Body", "String")]
  {
    var tests := BuildJob(q, submission).tests;
    assert |tests| == 1;
    assert tests[0] == CodeTest("test1", "Method Body", "String");
  }

  /** The job carries the question's test, by name, body and return type. */
  lemma JobHasTests(submission: string)
    ensures BuildJob(DefaultQuestion(), submission).tests == [CodeTest("test1", "Method Body", "String")]
    ensures GradeSubmission(DefaultQuestion(), submission,
              StubRunner(JobResult(true, false, false, false),
                (job: ClassJob) => |job.tests| == 1 && job.tests[0].testName == "test1"
                       && job.tests[0].methodBody == "Method Body" && job.tests[0].returnType == "String")).score == 1.0
  {
    JobTests(DefaultQuestion(), submission);
    AcceptedDefaultJob(submission,
      (job: ClassJob) => |job.tests| == 1 && job.tests[0].testName == "test1"
                         && job.tests[0].methodBody == "Method Body" && job.tests[0].returnType == "String");
  }

  // ---------------------------------------------------------------------
  // Structural errors
  // ---------------------------------------------------------------------

  /** A class that failed to compile is reported missing, naming the expected class. */
  lemma MissingExpectedClass()
    ensures var result := JobResult(false, false, false, false).(
                            classCompilationResult := CompilationResult(false,
                              [CompileError("class ExpectedClass should be declared in ExpectedClass.java", "")]),
                            classDefinition := None,
                            testsCompilationResult := None);
            var g := GradeSubmission(DefaultQuestion(), "Submission", StubRunner(result, AnyJob()));
            g.score == 0.0 && g.result.errors == [MissingRequiredClassError("ExpectedClass")]
  {
  }

  const PublicAndPrivateFields: seq<FieldDefinition> :=
    [FieldDefinition("field1", true, "String"), FieldDefinition("field2", false, "String")]

  /** A public field is an error when the question forbids them. */
  lemma ForbiddenPublicFields()
    ensures var result := WithFields(JobResult(false, false, false, false), PublicAndPrivateFields);
            var g := GradeSubmission(DefaultQuestion(), "Submission", StubRunner(result, AnyJob()));
            g.score == 0.0 && g.result.errors == [FieldVisibilityError("ExpectedClass", "field1")]
  {
    FixtureStructure(false, false, false, false, false, PublicAndPrivateFields);
    assert PublicFieldErrors("ExpectedClass", PublicAndPrivateFields)
           == [FieldVisibilityError("ExpectedClass", "field1")];
  }

  /** Public fields are accepted when the question allows them. */
  lemma PermittedPublicFields()
    ensures var result := WithFields(JobResult(true, false, false, false), PublicAndPrivateFields);
            var g := GradeSubmission(Question(true, false, false, false), "Submission", StubRunner(result, AnyJob()));
            g.score == 1.0 && g.result.errors == []
  {
    FixtureStructure(true, false, false, false, true, PublicAndPrivateFields);
    FixtureTestPasses(false, false, false);
  }

  /** The default required method, as the errors about it report it. */
  function DefaultMethodError(): CodeQuestionError
  {
    MethodDefinitionError("ExpectedClass", "requiredMethod", true, false, "int, int", Some("String"))
  }

  /**
   * The default question against the default class with its one compiled
   * method replaced by `d`, which still carries the required name.
   */
  lemma DefaultWithMethod(d: MethodDefinition)
    requires d.name == "requiredMethod"
    ensures CompareStructure(DefaultQuestion(), WithMethods(JobResult(false, false, false, false), [d]))
            == if ParamsMatch(SingleRequired(false, false), d) then PairErrors("ExpectedClass", "requiredMethod", SingleRequired(false, false), d)
               else [DefinitionError("ExpectedClass", "requiredMethod", SingleRequired(false, false))]
  {
    var q := DefaultQuestion();
    var m := SingleRequired(false, false);
    assert q.requiredMethods == [m];
    SingleOverloadSet(q, WithMethods(JobResult(false, false, false, false), [d]), "requiredMethod");
    OneAgainstOne("ExpectedClass", "requiredMethod", m, d);
  }

  /** Without the required method there is a count error for it. */
  lemma MissingRequiredMethod()
    ensures var result := WithMethods(JobResult(false, false, false, false), []);
            var g := GradeSubmission(DefaultQuestion(), "Submission", StubRunner(result, AnyJob()));
            g.score == 0.0 && g.result.errors == [MethodCountError("ExpectedClass", "requiredMethod", 1, false)]
  {
    var q := DefaultQuestion();
    var m := SingleRequired(false, false);
    assert q.requiredMethods == [m];
    SingleOverloadSet(q, WithMethods(JobResult(false, false, false, false), []), "requiredMethod");
  }

  /** A private required method is a definition error that expects it public. */
  lemma WrongMethodVisibility()
    ensures var result := WithMethods(JobResult(false, false, false, false), [SingleActual(false, false).(isPublic := false)]);
            var g := GradeSubmission(DefaultQuestion(), "Submission", StubRunner(result, AnyJob()));
            g.score == 0.0 && g.result.errors == [DefaultMethodError()] && g.result.errors[0].expectedPublic
  {
    SingleMatches(false, false);
    DefaultWithMethod(SingleActual(false, false).(isPublic := false));
  }

  /** A static required method is a definition error that expects it not static. */
  lemma UnexpectedStaticMethod()
    ensures var result := WithMethods(JobResult(false, false, false, false), [SingleActual(false, false).(isStatic := true)]);
            var g := GradeSubmission(DefaultQuestion(), "Submission", StubRunner(result, AnyJob()));
            g.score == 0.0 && g.result.errors == [DefaultMethodError()] && !g.result.errors[0].expectedStatic
  {
    SingleMatches(false, false);
    DefaultWithMethod(SingleActual(false, false).(isStatic := true));
  }

  lemma BooleanIsNotString(d: MethodDefinition)
    requires d == SingleActual(false, false).(returnType := Some("boolean"))
    ensures ParamsMatch(SingleRequired(false, false), d)
    ensures !SignatureMatches(SingleRequired(false, false), d)
  {
    SingleMatches(false, false);
    PlainTypeUnchanged("String");
    PlainTypeUnchanged("boolean");
  }

  /** A wrong return type is a definition error that expects `String`. */
  lemma WrongReturnType()
    ensures var result := WithMethods(JobResult(false, false, false, false),
                                      [SingleActual(false, false).(returnType := Some("boolean"))]);
            var g := GradeSubmission(DefaultQuestion(), "Submission", StubRunner(result, AnyJob()));
            g.score == 0.0 && g.result.errors == [DefaultMethodError()]
            && g.result.errors[0].expectedReturnType == Some("String")
  {
    var d := SingleActual(false, false).(returnType := Some("boolean"));
    BooleanIsNotString(d);
    DefaultWithMethod(d);
  }

  /** Parameter lists that differ in one position, after erasure, do not match. */
  lemma ParamDiffers(expected: seq<string>, actual: seq<string>, i: nat)
    requires i < |expected| && i < |actual| && !TypesMatch(expected[i], actual[i])
    ensures !ParamTypesMatch(expected, actual)
  {
  }

  lemma DoubleIsNotInt(d: MethodDefinition)
    requires d == SingleActual(false, false).(parameterTypes := ["int", "double"])
    ensures !ParamsMatch(SingleRequired(false, false), d)
  {
    IntPairList();
    IntIsNotDouble();
    ParamDiffers(ExpectedParamTypeList(SingleRequired(false, false).paramTypes), d.parameterTypes, 1);
  }

  lemma IntPairList()
    ensures ExpectedParamTypeList(SingleRequired(false, false).paramTypes) == ["int", "int"]
  {
    assert SingleRequired(false, false).paramTypes == "int, int";
    TwoParamTypes("int, int", "int", "int");
  }

  lemma IntIsNotDouble()
    ensures !TypesMatch("int", "double")
  {
    PlainTypeUnchanged("int");
    PlainTypeUnchanged("double");
  }

  /** A wrong parameter type is a definition error that expects `int, int`. */
  lemma WrongParameterTypes()
    ensures var result := WithMethods(JobResult(false, false, false, false),
                                      [SingleActual(false, false).(parameterTypes := ["int", "double"])]);
            var g := GradeSubmission(DefaultQuestion(), "Submission", StubRunner(result, AnyJob()));
            g.score == 0.0 && g.result.errors == [DefaultMethodError()]
            && g.result.errors[0].expectedParamTypes == "int, int"
  {
    var d := SingleActual(false, false).(parameterTypes := ["int", "double"]);
    DoubleIsNotInt(d);
    DefaultWithMethod(d);
  }

  /** Structural errors reach the grade of a submission the stub answers, with score 0. */
  lemma StubbedErrors(question: ClassQuestion, result: ClassJobResult, errs: seq<CodeQuestionError>)
    requires CompareStructure(question, result) == errs && errs != []
    ensures var g := GradeSubmission(question, "Submission", StubRunner(result, AnyJob()));
            g.score == 0.0 && g.result.errors == errs
  {
    AcceptedJob(question, "Submission", result, AnyJob());
  }

  /** The overloaded fixture question's methods are one overload set. */
  lemma OverloadSetStructure(q: ClassQuestion, result: ClassJobResult)
    requires q.className == "ExpectedClass" && q.allowPublicFields == false
    requires q.requiredMethods != []
    requires forall m :: m in q.requiredMethods ==> m.name == "requiredOverloadedMethod" && m.returnType.Some?
    requires result.classCompilationResult.success && result.classDefinition.Some?
    requires result.classDefinition.value.fields == []
    requires forall d :: d in result.classDefinition.value.methods ==> d.name == "requiredOverloadedMethod"
    ensures CompareStructure(q, result)
            == GroupErrors("ExpectedClass", "requiredOverloadedMethod", q.requiredMethods, result.classDefinition.value.methods)
  {
    SingleOverloadSet(q, result, "requiredOverloadedMethod");
    assert PublicFieldErrors(q.className, []) == [];
  }

  /** One overload missing: a count error expecting two non-static overloads. */
  lemma TooFewOverloads()
    ensures var result := WithMethods(JobResult(false, true, false, false), [OverloadActual(1, false, false)]);
            var g := GradeSubmission(Question(false, true, false, false), "Submission", StubRunner(result, AnyJob()));
            g.score == 0.0
            && g.result.errors == [MethodCountError("ExpectedClass", "requiredOverloadedMethod", 2, false)]
  {
    var q := Question(false, true, false, false);
    var result := WithMethods(JobResult(false, true, false, false), [OverloadActual(1, false, false)]);
    assert q.requiredMethods == [OverloadRequired(0, false, false), OverloadRequired(1, false, false)];
    OverloadSetStructure(q, result);
    StubbedErrors(q, result, [MethodCountError("ExpectedClass", "requiredOverloadedMethod", 2, false)]);
  }

  /** One overload too many: a count error expecting one non-static overload. */
  lemma TooManyOverloads()
    ensures var q := Question(false, true, false, false);
            var question := q.(requiredMethods := q.requiredMethods[1..]);
            var g := GradeSubmission(question, "Submission", StubRunner(JobResult(false, true, false, false), AnyJob()));
            g.score == 0.0
            && g.result.errors == [MethodCountError("ExpectedClass", "requiredOverloadedMethod", 1, false)]
  {
    var q := Question(false, true, false, false);
    var question := q.(requiredMethods := q.requiredMethods[1..]);
    var result := JobResult(false, true, false, false);
    assert question.requiredMethods == [OverloadRequired(1, false, false)];
    OverloadSetStructure(question, result);
    StubbedErrors(question, result, [MethodCountError("ExpectedClass", "requiredOverloadedMethod", 1, false)]);
  }

  /** The first compiled overload, with `String` for its parameter. */
  function RetypedOverload(): MethodDefinition
  {
    OverloadActual(0, false, false).(parameterTypes := ["String"])
  }

  /** A one-parameter method does not match a different plain parameter type. */
  lemma PlainParamMismatch(m: RequiredMethod, d: MethodDefinition, t: string, u: string)
    requires TrimmedName(t) && ',' !in t && '<' !in t && '<' !in u && t != u
    requires m.paramTypes == t && d.parameterTypes == [u]
    ensures !ParamsMatch(m, d)
  {
    SingleParamType(t);
    PlainTypeUnchanged(t);
    PlainTypeUnchanged(u);
    ParamDiffers([t], [u], 0);
  }

  lemma RetypedMissesFirst()
    ensures !ParamsMatch(OverloadRequired(0, false, false), RetypedOverload())
  {
    PlainParamMismatch(OverloadRequired(0, false, false), RetypedOverload(), "int", "String");
  }

  lemma SecondMissesFirst()
    ensures !ParamsMatch(OverloadRequired(0, false, false), OverloadActual(1, false, false))
  {
    PlainParamMismatch(OverloadRequired(0, false, false), OverloadActual(1, false, false), "int", "double");
  }

  lemma RetypedMissesSecond()
    ensures !ParamsMatch(OverloadRequired(1, false, false), RetypedOverload())
  {
    PlainParamMismatch(OverloadRequired(1, false, false), RetypedOverload(), "double", "String");
  }

  const RetypedOverloadError: CodeQuestionError :=
    MethodDefinitionError("ExpectedClass", "requiredOverloadedMethod", true, false, "int", Some("boolean"))

  lemma RetypedOverloadSetErrors()
    ensures GroupErrors("ExpectedClass", "requiredOverloadedMethod",
              [OverloadRequired(0, false, false), OverloadRequired(1, false, false)],
              [RetypedOverload(), OverloadActual(1, false, false)])
            == [RetypedOverloadError]
  {
    var m1, m2 := OverloadRequired(0, false, false), OverloadRequired(1, false, false);
    var d1, d2 := RetypedOverload(), OverloadActual(1, false, false);
    RetypedMissesFirst();
    SecondMissesFirst();
    RetypedMissesSecond();
    SecondOverloadMatches(false, false);
    TwoAgainstTwo("ExpectedClass", "requiredOverloadedMethod", m1, m2, d1, d2);
    assert PairErrors("ExpectedClass", "requiredOverloadedMethod", m2, d2) == [];
  }

  /**
   * An overload whose parameter type changed matches no required overload:
   * the one definition error names the overload it should have been.
   */
  lemma WrongOverloadSignature()
    ensures var result := WithMethods(JobResult(false, true, false, false),
                                      [RetypedOverload(), OverloadActual(1, false, false)]);
            var g := GradeSubmission(Question(false, true, false, false), "Submission", StubRunner(result, AnyJob()));
            g.score == 0.0 && g.result.errors == [RetypedOverloadError]
  {
    var q := Question(false, true, false, false);
    var result := WithMethods(JobResult(false, true, false, false), [RetypedOverload(), OverloadActual(1, false, false)]);
    assert q.requiredMethods == [OverloadRequired(0, false, false), OverloadRequired(1, false, false)];
    OverloadSetStructure(q, result);
    RetypedOverloadSetErrors();
    StubbedErrors(q, result, [RetypedOverloadError]);
  }

  // ---------------------------------------------------------------------
  // Correct submissions
  // ---------------------------------------------------------------------

  /** The test outcome of a correct submission carries the test's description. */
  lemma CorrectSubmissionTestDescription()
    ensures var g := GradeSubmission(DefaultQuestion(), "Submission",
                                     StubRunner(JobResult(true, false, false, false), AnyJob()));
            |g.result.testResults| == 1 && g.result.testResults[0].description == "Description"
  {
    FixtureGrade(false, false, false);
  }

  /**
   * Every combination of constructor, generic types and overloads: the
   * correct submission scores 1 with no error.
   */
  lemma CorrectSubmissionCorrectScore(isConstructor: bool, useGenerics: bool, overloadedMethods: bool)
    ensures var g := GradeSubmission(Question(false, overloadedMethods, useGenerics, isConstructor), "Submission",
                                     StubRunner(JobResult(true, overloadedMethods, useGenerics, isConstructor), AnyJob()));
            g.score == 1.0 && g.result.errors == []
  {
    FixtureGrade(overloadedMethods, useGenerics, isConstructor);
  }
}
