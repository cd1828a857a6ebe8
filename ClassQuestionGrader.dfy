/**
 * Grading of a class question: building the job for the code runner,
 * comparing the compiled class with the question's required shape, and
 * scoring the result. The code runner's answer is an input.
 */
module ClassQuestionGrader {
  import opened Wrappers
  import opened Strings
  import opened CodeRunner
  import opened ClassQuestions

  /** The marker in a file template where the submission goes. */
  const SubmissionPlaceholder: string := "%SUBMISSION%"

  // ---------------------------------------------------------------------
  // Job builder
  // ---------------------------------------------------------------------

  /** Doubles every `%` of the submission before it enters the template. */
  function EscapePercent(s: string): (r: string)
    ensures |r| == |s| + CountChar(s, '%')
  {
    if s == [] then []
    else
      var rest := EscapePercent(s[1..]);
      CountCharConcat(s[..1], s[1..], '%');
      assert s[..1] + s[1..] == s;
      (if s[0] == '%' then "%%" else [s[0]]) + rest
  }

  /** The inverse of EscapePercent: every `%%` becomes `%`. */
  function UnescapePercent(s: string): string
  {
    if s == [] then []
    else if |s| >= 2 && s[0] == '%' && s[1] == '%' then "%" + UnescapePercent(s[2..])
    else [s[0]] + UnescapePercent(s[1..])
  }

  /** Number of template lines that precede the submission placeholder. */
  function LinesBeforePlaceholder(template: string): nat
  {
    CountChar(template[..IndexOf(template, SubmissionPlaceholder)], '\n')
  }

  /** Builds the job sent to the code runner for a submission. */
  function BuildJob(question: ClassQuestion, submission: string): (job: ClassJob)
    ensures job.className == question.className
    ensures |job.classesToImport| == |question.importedClasses|
    ensures forall i :: 0 <= i < |job.classesToImport| ==>
              job.classesToImport[i] == question.importedClasses[i].className
    ensures |job.tests| == |question.tests|
    ensures forall i :: 0 <= i < |job.tests| ==>
              job.tests[i].testName == question.tests[i].name
              && job.tests[i].methodBody == question.tests[i].methodBody
              && job.tests[i].returnType == question.tests[i].returnType
    ensures job.lineNumberOffset <= 0
    ensures job.lineNumberOffset == -(LinesBeforePlaceholder(question.fileTemplate) as int)
  {
    var imports := question.importedClasses;
    var tests := question.tests;
    ClassJob(
      question.className,
      ReplaceAll(question.fileTemplate, SubmissionPlaceholder, EscapePercent(submission)),
      -(LinesBeforePlaceholder(question.fileTemplate) as int),
      seq(|imports|, i requires 0 <= i < |imports| => imports[i].className),
      seq(|tests|, i requires 0 <= i < |tests| =>
        CodeTest(tests[i].name, tests[i].methodBody, tests[i].returnType)))
  }

  // ---------------------------------------------------------------------
  // Structural comparator
  // ---------------------------------------------------------------------

  /** A type name with its generic arguments erased: the text before the first `<`. */
  function EraseGenerics(t: string): (r: string)
    ensures '<' !in r
    ensures r <= t
  {
    t[..IndexOfChar(t, '<')]
  }

  /** Two type names agree when they agree once generic arguments are erased. */
  predicate TypesMatch(expected: string, actual: string)
  {
    EraseGenerics(expected) == EraseGenerics(actual)
  }

  /** The expected parameter types, from the question's comma-joined text. */
  function ExpectedParamTypeList(paramTypes: string): (r: seq<string>)
  {
    if Trim(paramTypes) == "" then []
    else
      var parts := SplitOn(paramTypes, ',');
      seq(|parts|, i requires 0 <= i < |parts| => Trim(parts[i]))
  }

  /** Parameter lists agree element by element, in order, after erasure. */
  predicate ParamTypesMatch(expected: seq<string>, actual: seq<string>)
  {
    |expected| == |actual|
    && forall i :: 0 <= i < |expected| ==> TypesMatch(expected[i], actual[i])
  }

  /** Return types agree: both absent (constructors), or both present and equal after erasure. */
  predicate ReturnTypesMatch(expected: Option<string>, actual: Option<string>)
  {
    match (expected, actual)
    case (None, None) => true
    case (Some(e), Some(a)) => TypesMatch(e, a)
    case _ => false
  }

  predicate ParamsMatch(required: RequiredMethod, actual: MethodDefinition)
  {
    ParamTypesMatch(ExpectedParamTypeList(required.paramTypes), actual.parameterTypes)
  }

  /** Visibility, staticness and return type agree. */
  predicate SignatureMatches(required: RequiredMethod, actual: MethodDefinition)
  {
    required.isPublic == actual.isPublic
    && required.isStatic == actual.isStatic
    && ReturnTypesMatch(required.returnType, actual.returnType)
  }

  /** The name actual methods must carry: constructors are named after the class. */
  function MethodKey(className: string, m: RequiredMethod): string
  {
    if m.returnType.None? then className else m.name
  }

  /** The required methods with a given key, in declaration order. */
  function RequiredWithKey(className: string, ms: seq<RequiredMethod>, key: string): (r: seq<RequiredMethod>)
    ensures forall m :: m in r <==> m in ms && MethodKey(className, m) == key
    ensures |r| <= |ms|
  {
    if ms == [] then []
    else
      var rest := RequiredWithKey(className, ms[..|ms| - 1], key);
      var m := ms[|ms| - 1];
      assert ms == ms[..|ms| - 1] + [m];
      if MethodKey(className, m) == key then rest + [m] else rest
  }

  /** The actual methods with a given name, in declaration order. */
  function ActualWithName(ds: seq<MethodDefinition>, name: string): (r: seq<MethodDefinition>)
    ensures forall d :: d in r <==> d in ds && d.name == name
    ensures |r| <= |ds|
  {
    if ds == [] then []
    else
      var rest := ActualWithName(ds[..|ds| - 1], name);
      var d := ds[|ds| - 1];
      assert ds == ds[..|ds| - 1] + [d];
      if d.name == name then rest + [d] else rest
  }

  /** `xs` without its repeated elements, in order of first appearance. */
  function Distinct(xs: seq<string>): (r: seq<string>)
    ensures forall x :: x in r <==> x in xs
    ensures forall i, j :: 0 <= i < j < |r| ==> r[i] != r[j]
  {
    if xs == [] then []
    else
      var d := Distinct(xs[..|xs| - 1]);
      var x := xs[|xs| - 1];
      assert xs == xs[..|xs| - 1] + [x];
      if x in d then d else d + [x]
  }

  /** The position of the first `x` in `xs`, or `|xs|` if there is none. */
  function FirstIndexOf(xs: seq<string>, x: string): (r: nat)
    ensures r <= |xs|
    ensures r < |xs| ==> xs[r] == x
    ensures x !in xs[..r]
  {
    if xs == [] then 0
    else if xs[0] == x then 0
    else
      var j := FirstIndexOf(xs[1..], x);
      assert xs[..j + 1] == [xs[0]] + xs[1..][..j];
      1 + j
  }

  /** Any position holding the first `x` is the one `FirstIndexOf` finds. */
  lemma FirstIndexOfUnique(xs: seq<string>, x: string, r: nat)
    requires r < |xs| && xs[r] == x && x !in xs[..r]
    ensures FirstIndexOf(xs, x) == r
  {
  }

  /** Appending an element does not move the first position of an earlier element. */
  lemma FirstIndexOfExtend(init: seq<string>, x: string, y: string)
    requires y in init
    ensures FirstIndexOf(init + [x], y) == FirstIndexOf(init, y) < |init|
  {
    var k := FirstIndexOf(init, y);
    assert (init + [x])[..k] == init[..k];
    FirstIndexOfUnique(init + [x], y, k);
  }

  lemma {:induction false} DistinctOrderAt(xs: seq<string>, i: nat, j: nat)
    requires i < j < |Distinct(xs)|
    ensures FirstIndexOf(xs, Distinct(xs)[i]) < FirstIndexOf(xs, Distinct(xs)[j])
    decreases |xs|
  {
    var init, x := xs[..|xs| - 1], xs[|xs| - 1];
    var d := Distinct(init);
    assert xs == init + [x];
    if j < |d| {
      assert Distinct(xs)[..|d|] == d;
      assert Distinct(xs)[i] == d[i] && Distinct(xs)[j] == d[j];
      DistinctOrderAt(init, i, j);
      FirstIndexOfExtend(init, x, d[i]);
      FirstIndexOfExtend(init, x, d[j]);
    } else {
      assert x !in d && Distinct(xs) == d + [x];
      assert xs[..|init|] == init;
      FirstIndexOfUnique(xs, x, |init|);
      FirstIndexOfExtend(init, x, d[i]);
    }
  }

  /** Removing duplicates keeps the elements in order of their first appearance. */
  lemma DistinctOrder(xs: seq<string>)
    ensures forall i, j :: 0 <= i < j < |Distinct(xs)| ==>
              FirstIndexOf(xs, Distinct(xs)[i]) < FirstIndexOf(xs, Distinct(xs)[j])
  {
    forall i, j | 0 <= i < j < |Distinct(xs)|
      ensures FirstIndexOf(xs, Distinct(xs)[i]) < FirstIndexOf(xs, Distinct(xs)[j])
    {
      DistinctOrderAt(xs, i, j);
    }
  }

  /** The key of each required method, in declaration order. */
  function KeyNames(className: string, ms: seq<RequiredMethod>): (names: seq<string>)
    ensures |names| == |ms|
    ensures forall i :: 0 <= i < |ms| ==> names[i] == MethodKey(className, ms[i])
  {
    seq(|ms|, i requires 0 <= i < |ms| => MethodKey(className, ms[i]))
  }

  /** The keys that occur are exactly the keys of the required methods. */
  lemma KeyNamesMembers(className: string, ms: seq<RequiredMethod>)
    ensures forall k :: k in KeyNames(className, ms) <==> exists m :: m in ms && MethodKey(className, m) == k
  {
    var names := KeyNames(className, ms);
    forall k ensures k in names ==> exists m :: m in ms && MethodKey(className, m) == k {
      if k in names {
        var i :| 0 <= i < |names| && names[i] == k;
        assert ms[i] in ms;
      }
    }
    forall k ensures (exists m :: m in ms && MethodKey(className, m) == k) ==> k in names {
      if m :| m in ms && MethodKey(className, m) == k {
        var i :| 0 <= i < |ms| && ms[i] == m;
        assert names[i] == k;
      }
    }
  }

  /** The keys of the required overload sets, in order of first declaration. */
  function MethodKeys(className: string, ms: seq<RequiredMethod>): (keys: seq<string>)
    ensures forall k :: k in keys <==> exists m :: m in ms && MethodKey(className, m) == k
    ensures forall i, j :: 0 <= i < j < |keys| ==> keys[i] != keys[j]
    ensures forall i, j :: 0 <= i < j < |keys| ==>
              FirstIndexOf(KeyNames(className, ms), keys[i]) < FirstIndexOf(KeyNames(className, ms), keys[j])
  {
    var names := KeyNames(className, ms);
    KeyNamesMembers(className, ms);
    DistinctOrder(names);
    Distinct(names)
  }

  /** Index of the first method in `avail` whose parameters match, or `|avail|`. */
  function FirstParamMatch(required: RequiredMethod, avail: seq<MethodDefinition>): (j: nat)
    ensures j <= |avail|
    ensures j < |avail| ==> ParamsMatch(required, avail[j])
    ensures forall i :: 0 <= i < j ==> !ParamsMatch(required, avail[i])
  {
    if avail == [] then 0
    else if ParamsMatch(required, avail[0]) then 0
    else
      var j := FirstParamMatch(required, avail[1..]);
      assert forall i :: 1 <= i < |avail| ==> avail[i] == avail[1..][i - 1];
      1 + j
  }

  function RemoveAt<T>(s: seq<T>, j: nat): (r: seq<T>)
    requires j < |s|
    ensures |r| == |s| - 1
    ensures multiset(r) == multiset(s) - multiset{s[j]}
  {
    assert s == s[..j] + [s[j]] + s[j + 1..];
    s[..j] + s[j + 1..]
  }

  /** The error reported for a required method that has no matching counterpart. */
  function DefinitionError(className: string, key: string, m: RequiredMethod): CodeQuestionError
  {
    MethodDefinitionError(className, key, m.isPublic, m.isStatic, m.paramTypes, m.returnType)
  }

  /**
   * Signature check for an overload set whose counts agree. Each required
   * method, in declaration order, is paired with the first still-unpaired
   * actual method whose parameter types match; it is in error when there is
   * none, or when that method differs in visibility, staticness or return type.
   */
  function DefinitionErrors(className: string, key: string, exp: seq<RequiredMethod>, avail: seq<MethodDefinition>)
    : (errs: seq<CodeQuestionError>)
    ensures |errs| <= |exp|
    ensures forall e :: e in errs ==> e.MethodDefinitionError? && e.className == className && e.expectedMethodName == key
    decreases |exp|
  {
    if exp == [] then []
    else
      var m := exp[0];
      var j := FirstParamMatch(m, avail);
      if j < |avail| then
        (if SignatureMatches(m, avail[j]) then [] else [DefinitionError(className, key, m)])
        + DefinitionErrors(className, key, exp[1..], RemoveAt(avail, j))
      else
        [DefinitionError(className, key, m)] + DefinitionErrors(className, key, exp[1..], avail)
  }

  /**
   * Errors for one overload set: a count mismatch is reported alone, with
   * the required count and the staticness of the first required entry;
   * otherwise the signatures are compared.
   */
  function GroupErrors(className: string, key: string, exp: seq<RequiredMethod>, act: seq<MethodDefinition>)
    : (errs: seq<CodeQuestionError>)
    requires |exp| > 0
    ensures forall e :: e in errs ==>
              (e.MethodDefinitionError? || e.MethodCountError?) && e.className == className && e.expectedMethodName == key
  {
    if |exp| != |act| then [MethodCountError(className, key, |exp|, exp[0].isStatic)]
    else DefinitionErrors(className, key, exp, act)
  }

  /** The overload-set errors for `keys`, one set after another. */
  function ErrorsForKeys(className: string, keys: seq<string>, ms: seq<RequiredMethod>, ds: seq<MethodDefinition>)
    : (errs: seq<CodeQuestionError>)
    requires forall k :: k in keys ==> exists m :: m in ms && MethodKey(className, m) == k
    ensures forall e :: e in errs ==>
              (e.MethodDefinitionError? || e.MethodCountError?) && e.className == className && e.expectedMethodName in keys
  {
    if keys == [] then []
    else
      var k := keys[0];
      assert k in keys;
      var m :| m in ms && MethodKey(className, m) == k;
      assert m in RequiredWithKey(className, ms, k);
      GroupErrors(className, k, RequiredWithKey(className, ms, k), ActualWithName(ds, k))
      + (assert forall k :: k in keys[1..] ==> k in keys;
         ErrorsForKeys(className, keys[1..], ms, ds))
  }

  function MethodErrors(className: string, ms: seq<RequiredMethod>, ds: seq<MethodDefinition>)
    : (errs: seq<CodeQuestionError>)
    ensures forall e :: e in errs ==> (e.MethodDefinitionError? || e.MethodCountError?) && e.className == className
  {
    ErrorsForKeys(className, MethodKeys(className, ms), ms, ds)
  }

  /** One error per public field, in field order. */
  function PublicFieldErrors(className: string, fields: seq<FieldDefinition>): (errs: seq<CodeQuestionError>)
    ensures forall e :: e in errs ==> e.FieldVisibilityError? && e.className == className
    ensures forall f :: FieldVisibilityError(className, f) in errs <==>
              exists fd :: fd in fields && fd.isPublic && fd.name == f
  {
    if fields == [] then []
    else
      var rest := PublicFieldErrors(className, fields[..|fields| - 1]);
      var fd := fields[|fields| - 1];
      assert fields == fields[..|fields| - 1] + [fd];
      if fd.isPublic then rest + [FieldVisibilityError(className, fd.name)] else rest
  }

  /** True when the job result carries no compiled class. */
  predicate ClassMissing(result: ClassJobResult)
  {
    !result.classCompilationResult.success || result.classDefinition.None?
  }

  /** The structural errors of a job result against the question, in reporting order. */
  function CompareStructure(question: ClassQuestion, result: ClassJobResult): (errs: seq<CodeQuestionError>)
    ensures forall e :: e in errs ==> e.IsStructural()
  {
    if ClassMissing(result) then [MissingRequiredClassError(question.className)]
    else
      var cd := result.classDefinition.value;
      (if question.allowPublicFields then [] else PublicFieldErrors(question.className, cd.fields))
      + MethodErrors(question.className, question.requiredMethods, cd.methods)
  }

  // ---------------------------------------------------------------------
  // Scorer
  // ---------------------------------------------------------------------

  /** The first test result with the given name. */
  function FindTestResult(results: seq<CodeTestResult>, name: string): (r: Option<CodeTestResult>)
    ensures r.Some? ==> r.value in results && r.value.name == name
    ensures r.None? <==> forall x :: x in results ==> x.name != name
  {
    if results == [] then None
    else if results[0].name == name then Some(results[0])
    else FindTestResult(results[1..], name)
  }

  /**
   * A test succeeds when it completed with the expected output and, unless
   * the expected return value is null, with that return value.
   */
  function TestOutcome(test: ClassQuestionTest, results: seq<CodeTestResult>): (o: CodeTestOutcome)
    ensures o.name == test.name && o.description == test.description
    ensures o.succeeded <==> (exists r :: FindTestResult(results, test.name) == Some(r)
                                && r.completed && r.output == test.expectedOutput
                                && (test.expectedReturnValue.None? || r.returnValue == test.expectedReturnValue))
  {
    match FindTestResult(results, test.name)
    case None =>
      CodeTestOutcome(test.name, test.description, false, test.expectedOutput, None,
        test.expectedReturnValue, None, false)
    case Some(r) =>
      CodeTestOutcome(test.name, test.description, r.completed, test.expectedOutput, Some(r.output),
        test.expectedReturnValue, r.returnValue,
        r.completed && r.output == test.expectedOutput && (test.expectedReturnValue.None? || r.returnValue == test.expectedReturnValue))
  }

  function TestOutcomes(tests: seq<ClassQuestionTest>, results: seq<CodeTestResult>): (os: seq<CodeTestOutcome>)
    ensures |os| == |tests|
    ensures forall i :: 0 <= i < |os| ==> os[i] == TestOutcome(tests[i], results)
  {
    seq(|tests|, i requires 0 <= i < |tests| => TestOutcome(tests[i], results))
  }

  function CountSucceeded(os: seq<CodeTestOutcome>): (n: nat)
    ensures n <= |os|
    ensures n == |os| <==> forall i :: 0 <= i < |os| ==> os[i].succeeded
  {
    if os == [] then 0
    else CountSucceeded(os[..|os| - 1]) + (if os[|os| - 1].succeeded then 1 else 0)
  }

  /** The fraction of succeeded tests; 0 when there are no tests. */
  function ScoreOf(os: seq<CodeTestOutcome>): (score: real)
    ensures 0.0 <= score <= 1.0
    ensures score == 1.0 <==> |os| > 0 && forall i :: 0 <= i < |os| ==> os[i].succeeded
    ensures score == 0.0 <==> forall i :: 0 <= i < |os| ==> !os[i].succeeded
  {
    if |os| == 0 then 0.0
    else
      var n := CountSucceeded(os);
      CountSucceededZero(os);
      RatioBounds(n, |os|);
      (n as real) / (|os| as real)
  }

  lemma RatioBounds(n: nat, d: nat)
    requires 0 < d && n <= d
    ensures 0.0 <= (n as real) / (d as real) <= 1.0
    ensures (n as real) / (d as real) == 1.0 <==> n == d
    ensures (n as real) / (d as real) == 0.0 <==> n == 0
  {
    var q := (n as real) / (d as real);
    assert q * (d as real) == n as real;
  }

  lemma {:induction false} CountSucceededZero(os: seq<CodeTestOutcome>)
    ensures CountSucceeded(os) == 0 <==> forall i :: 0 <= i < |os| ==> !os[i].succeeded
  {
    if os != [] {
      CountSucceededZero(os[..|os| - 1]);
      assert forall i :: 0 <= i < |os| - 1 ==> os[..|os| - 1][i] == os[i];
    }
  }

  function CompileErrorTexts(errors: seq<CompileError>): seq<string>
  {
    seq(|errors|, i requires 0 <= i < |errors| => errors[i].fullError)
  }

  /**
   * Grades a job result: structural errors give 0 and no test results; a
   * test compilation failure gives 0; otherwise the score is the fraction of
   * the question's tests that succeeded.
   */
  function Grade(question: ClassQuestion, result: ClassJobResult): (scored: ScoredQuestionResult)
    ensures 0.0 <= scored.score <= 1.0
  {
    var errors := CompareStructure(question, result);
    if errors != [] then ScoredQuestionResult(0.0, CodeQuestionResult(errors, []))
    else match result.testsCompilationResult
      case None =>
        ScoredQuestionResult(0.0, CodeQuestionResult([TestCompilationError([])], []))
      case Some(c) =>
        if !c.success then
          ScoredQuestionResult(0.0, CodeQuestionResult([TestCompilationError(CompileErrorTexts(c.errors))], []))
        else
          var results := if result.testResults.Some? then result.testResults.value else [];
          var outcomes := TestOutcomes(question.tests, results);
          ScoredQuestionResult(ScoreOf(outcomes), CodeQuestionResult([], outcomes))
  }

  /**
   * Grades a submission: builds its job, hands it to the code runner and
   * grades the answer. The score is a fraction; a class that did not compile
   * scores 0; a perfect score means no structural error, compiled tests, at
   * least one test, and every test succeeded.
   */
  function GradeSubmission(question: ClassQuestion, submission: string, runner: ClassJob -> ClassJobResult)
    : (scored: ScoredQuestionResult)
    ensures 0.0 <= scored.score <= 1.0
    ensures ClassMissing(runner(BuildJob(question, submission)))
            ==> scored.score == 0.0
                && scored.result.errors == [MissingRequiredClassError(question.className)]
    ensures var res := runner(BuildJob(question, submission));
            scored.score == 1.0
            <==> CompareStructure(question, res) == []
                 && res.testsCompilationResult.Some? && res.testsCompilationResult.value.success
                 && |question.tests| > 0
                 && forall i :: 0 <= i < |scored.result.testResults| ==> scored.result.testResults[i].succeeded
  {
    Grade(question, runner(BuildJob(question, submission)))
  }
}
