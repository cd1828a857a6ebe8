/**
 * The records exchanged with the external code runner: the class job the
 * `ClassQuestionGrader` sends, and the class job result it gets back. The runner itself
 * is not modelled; its answer is an input of `ClassQuestionGrader`.
 */
module CodeRunner {
  import opened Wrappers

  /** One test the runner executes against the compiled class. */
  datatype CodeTest = CodeTest(testName: string, methodBody: string, returnType: string)

  /** The job for a class question. */
  datatype ClassJob = ClassJob(
    className: string,
    fileContents: string,
    lineNumberOffset: int,
    classesToImport: seq<string>,
    tests: seq<CodeTest>)

  datatype CompileError = CompileError(message: string, fullError: string)

  datatype CompilationResult = CompilationResult(success: bool, errors: seq<CompileError>)

  datatype FieldDefinition = FieldDefinition(name: string, isPublic: bool, fieldType: string)

  /** A compiled method or constructor; a constructor has no return type. */
  datatype MethodDefinition = MethodDefinition(
    name: string,
    isPublic: bool,
    isStatic: bool,
    parameterTypes: seq<string>,
    returnType: Option<string>)

  datatype ClassDefinition = ClassDefinition(
    name: string,
    fields: seq<FieldDefinition>,
    methods: seq<MethodDefinition>)

  /** The outcome of one test run; `returnValue` is None for a null return value. */
  datatype CodeTestResult = CodeTestResult(
    name: string,
    completed: bool,
    output: string,
    returnValue: Option<string>)

  /**
   * The result of a class job. `classDefinition` is present only when the
   * class compiled; the tests' compilation result and the test results are
   * present only when there was something to compile or run.
   */
  datatype ClassJobResult = ClassJobResult(
    classCompilationResult: CompilationResult,
    classDefinition: Option<ClassDefinition>,
    testsCompilationResult: Option<CompilationResult>,
    testResults: Option<seq<CodeTestResult>>)
}
