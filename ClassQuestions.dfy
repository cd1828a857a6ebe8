/**
 * A class question as an instructor writes it, the errors that grading a
 * submission against it can report, and the graded result.
 */
module ClassQuestions {
  import opened Wrappers

  datatype ImportedClass = ImportedClass(className: string)

  /**
   * A method the submitted class must declare. `paramTypes` is the
   * comma-joined list of parameter types; a missing return type marks a
   * constructor.
   */
  datatype RequiredMethod = RequiredMethod(
    name: string,
    isPublic: bool,
    isStatic: bool,
    paramTypes: string,
    returnType: Option<string>)

  /** A test; a missing expected return value stands for null. */
  datatype ClassQuestionTest = ClassQuestionTest(
    name: string,
    order: int,
    description: string,
    methodBody: string,
    returnType: string,
    expectedReturnValue: Option<string>,
    expectedOutput: string)

  datatype ClassQuestion = ClassQuestion(
    className: string,
    fileTemplate: string,
    allowPublicFields: bool,
    importedClasses: seq<ImportedClass>,
    requiredMethods: seq<RequiredMethod>,
    tests: seq<ClassQuestionTest>)

  /** The errors a graded class question can carry; each carries only its own data. */
  datatype CodeQuestionError =
    | MissingRequiredClassError(requiredClassName: string)
    | FieldVisibilityError(className: string, fieldName: string)
    | MethodCountError(className: string, expectedMethodName: string, expectedCount: nat, expectedStatic: bool)
    | MethodDefinitionError(
        className: string,
        expectedMethodName: string,
        expectedPublic: bool,
        expectedStatic: bool,
        expectedParamTypes: string,
        expectedReturnType: Option<string>)
    | TestCompilationError(fullErrors: seq<string>)
  {
    /** Structural errors are the ones the comparator reports about the class's shape. */
    predicate IsStructural()
    {
      !TestCompilationError?
    }
  }

  /** The outcome of one question test, carrying the question test's description. */
  datatype CodeTestOutcome = CodeTestOutcome(
    name: string,
    description: string,
    completed: bool,
    expectedOutput: string,
    actualOutput: Option<string>,
    expectedReturnValue: Option<string>,
    actualReturnValue: Option<string>,
    succeeded: bool)

  datatype CodeQuestionResult = CodeQuestionResult(
    errors: seq<CodeQuestionError>,
    testResults: seq<CodeTestOutcome>)

  /** The score is an exact rational in [0, 1]. */
  datatype ScoredQuestionResult = ScoredQuestionResult(score: real, result: CodeQuestionResult)
}
