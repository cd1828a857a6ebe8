/**
 * What the class-question grader guarantees for every question, submission
 * and job result: the job's contents, the short-circuit on a missing class,
 * exhaustive field checks, one count error per mis-sized overload set,
 * signature checks that ignore generic arguments, and the score.
 */
module ClassQuestionGraderProperties {
  import opened Wrappers
  import opened Strings
  import opened CodeRunner
  import opened ClassQuestions
  import opened ClassQuestionGrader

  // ---------------------------------------------------------------------
  // Job builder
  // ---------------------------------------------------------------------

  lemma {:induction false} EscapeConcat(a: string, b: string)
    ensures EscapePercent(a + b) == EscapePercent(a) + EscapePercent(b)
    decreases |a|
  {
    if a == [] {
      assert a + b == b;
    } else {
      assert (a + b)[0] == a[0];
      assert (a + b)[1..] == a[1..] + b;
      EscapeConcat(a[1..], b);
    }
  }

  /** Text without `%` is not changed by escaping. */
  lemma {:induction false} EscapeWithoutPercent(s: string)
    requires '%' !in s
    ensures EscapePercent(s) == s
    decreases |s|
  {
    if s != [] {
      EscapeWithoutPercent(s[1..]);
    }
  }

  /** Unescaping undoes escaping: no submission text is lost or altered. */
  lemma {:induction false} EscapeRoundTrip(s: string)
    ensures UnescapePercent(EscapePercent(s)) == s
    decreases |s|
  {
    if s != [] {
      EscapeRoundTrip(s[1..]);
      var e := EscapePercent(s);
      if s[0] == '%' {
        assert e == "%%" + EscapePercent(s[1..]);
        assert e[2..] == EscapePercent(s[1..]);
      } else {
        assert e == [s[0]] + EscapePercent(s[1..]);
        assert e[1..] == EscapePercent(s[1..]);
      }
    }
  }

  /** Escaping doubles every `%` and changes no other character. */
  lemma {:induction false} EscapeDoublesPercent(s: string, c: char)
    ensures CountChar(EscapePercent(s), c) == if c == '%' then 2 * CountChar(s, c) else CountChar(s, c)
    decreases |s|
  {
    if s != [] {
      EscapeDoublesPercent(s[1..], c);
      var head := if s[0] == '%' then "%%" else [s[0]];
      assert EscapePercent(s) == head + EscapePercent(s[1..]);
      assert s == [s[0]] + s[1..];
      CountCharConcat(head, EscapePercent(s[1..]), c);
      CountCharConcat([s[0]], s[1..], c);
      if s[0] == '%' {
        assert head == ['%'] + ['%'];
        CountCharConcat(['%'], ['%'], c);
      }
    }
  }

  /**
   * With the placeholder occurring exactly once, after `pre`, the job's file
   * is `pre`, then the escaped submission, then `post`; and the line offset
   * is minus the number of line breaks in `pre`.
   */
  lemma JobFileContents(question: ClassQuestion, submission: string, pre: string, post: string)
    requires question.fileTemplate == pre + SubmissionPlaceholder + post
    requires IndexOf(question.fileTemplate, SubmissionPlaceholder) == |pre|
    requires NoOccurrence(post, SubmissionPlaceholder)
    ensures BuildJob(question, submission).fileContents == pre + EscapePercent(submission) + post
    ensures BuildJob(question, submission).lineNumberOffset == -(CountChar(pre, '\n') as int)
  {
    var t := question.fileTemplate;
    var p := SubmissionPlaceholder;
    assert t[..|pre|] == pre;
    assert t[|pre| + |p|..] == post;
    assert ReplaceAll(post, p, EscapePercent(submission)) == post;
  }

  // ---------------------------------------------------------------------
  // Generic erasure
  // ---------------------------------------------------------------------

  lemma EraseIdempotent(t: string)
    ensures EraseGenerics(EraseGenerics(t)) == EraseGenerics(t)
  {
    var r := EraseGenerics(t);
    PlainTypeUnchanged(r);
  }

  /** A type name without generic arguments is its own erasure. */
  lemma PlainTypeUnchanged(t: string)
    requires '<' !in t
    ensures EraseGenerics(t) == t
  {
    IndexOfCharAbsent(t, '<');
  }

  lemma {:induction false} IndexOfCharAbsent(s: string, c: char)
    requires c !in s
    ensures IndexOfChar(s, c) == |s|
    decreases |s|
  {
    if s != [] {
      IndexOfCharAbsent(s[1..], c);
    }
  }

  lemma {:induction false} IndexOfCharAfter(pre: string, c: char, post: string)
    requires c !in pre
    ensures IndexOfChar(pre + [c] + post, c) == |pre|
    decreases |pre|
  {
    if pre != [] {
      assert (pre + [c] + post)[1..] == pre[1..] + [c] + post;
      IndexOfCharAfter(pre[1..], c, post);
    }
  }

  /** `Container<T>` erases to `Container`, whatever `T` is. */
  lemma EraseParameterized(base: string, args: string)
    requires '<' !in base
    ensures EraseGenerics(base + "<" + args) == base
  {
    IndexOfCharAfter(base, '<', args);
    assert (base + "<" + args)[..|base|] == base;
  }

  /** `Container<T>` matches `Container` and matches no other plain type name. */
  lemma ErasureComparison(base: string, other: string, args: string)
    requires '<' !in base && '<' !in other
    ensures TypesMatch(base + "<" + args, base)
    ensures TypesMatch(base + "<" + args, other) <==> other == base
  {
    EraseParameterized(base, args);
    PlainTypeUnchanged(base);
    PlainTypeUnchanged(other);
  }

  /** A type name with no surrounding whitespace. */
  predicate TrimmedName(t: string)
  {
    t != [] && !IsWhitespace(t[0]) && !IsWhitespace(t[|t| - 1])
  }

  /** A single type name is a one-element parameter list. */
  lemma SingleParamType(t: string)
    requires TrimmedName(t) && ',' !in t
    ensures ExpectedParamTypeList(t) == [t]
  {
    TrimTrimmed(t);
    IndexOfCharAbsent(t, ',');
  }

  lemma {:induction false} SplitAtFirst(a: string, c: char, rest: string)
    requires c !in a
    ensures SplitOn(a + [c] + rest, c) == [a] + SplitOn(rest, c)
  {
    var s := a + [c] + rest;
    IndexOfCharAfter(a, c, rest);
    assert s[..|a|] == a;
    assert s[|a| + 1..] == rest;
  }

  lemma {:induction false} SplitAbsent(t: string, c: char)
    requires c !in t
    ensures SplitOn(t, c) == [t]
  {
    IndexOfCharAbsent(t, c);
  }

  lemma {:induction false} TrimLeadingSpace(b: string)
    requires TrimmedName(b)
    ensures Trim(" " + b) == b
  {
    assert (" " + b)[1..] == b;
    TrimTrimmed(b);
  }

  /** `a, b` splits at its comma into `a` and ` b`. */
  lemma TwoParts(a: string, b: string)
    requires ',' !in a && ',' !in b
    ensures SplitOn(a + ", " + b, ',') == [a, " " + b]
  {
    var tail := " " + b;
    assert a + ", " + b == a + [','] + tail;
    SplitAtFirst(a, ',', tail);
    assert ',' !in tail;
    SplitAbsent(tail, ',');
  }

  /** `a, b` with trimmed names is not blank. */
  lemma TwoNotBlank(s: string, a: string, b: string)
    requires s == a + ", " + b
    requires TrimmedName(a) && TrimmedName(b)
    ensures Trim(s) == s && s != ""
  {
    assert s[0] == a[0] && s[|s| - 1] == b[|b| - 1];
    TrimTrimmed(s);
  }

  /** `a, b` is the two-element parameter list `[a, b]`. */
  lemma TwoParamTypes(s: string, a: string, b: string)
    requires s == a + ", " + b
    requires TrimmedName(a) && ',' !in a
    requires TrimmedName(b) && ',' !in b
    ensures ExpectedParamTypeList(s) == [a, b]
  {
    TwoNotBlank(s, a, b);
    TwoParts(a, b);
    TrimLeadingSpace(b);
    TrimTrimmed(a);
    var parts := SplitOn(s, ',');
    assert parts == [a, " " + b];
    assert Trim(parts[0]) == a && Trim(parts[1]) == b;
  }

  /**
   * Splitting `p + t0, t1, ..., tn` at its commas gives `p + t0`, then each
   * later name with the space that followed its comma.
   */
  lemma {:induction false} SplitCommaJoin(p: string, ts: seq<string>)
    requires ',' !in p && |ts| > 0
    requires forall i :: 0 <= i < |ts| ==> ',' !in ts[i]
    ensures var parts := SplitOn(p + Join(ts, ", "), ',');
            |parts| == |ts| && parts[0] == p + ts[0]
            && forall i :: 1 <= i < |ts| ==> parts[i] == " " + ts[i]
    decreases |ts|
  {
    if |ts| == 1 {
      assert ',' !in p + ts[0];
      SplitAbsent(p + ts[0], ',');
    } else {
      var rest := ts[1..];
      JoinCommaFront(p, ts);
      assert ',' !in p + ts[0];
      SplitAtFirst(p + ts[0], ',', " " + Join(rest, ", "));
      assert forall i :: 0 <= i < |rest| ==> ',' !in rest[i];
      SplitCommaJoin(" ", rest);
      var tail := SplitOn(" " + Join(rest, ", "), ',');
      assert SplitOn(p + Join(ts, ", "), ',') == [p + ts[0]] + tail;
      assert forall i :: 1 <= i < |ts| ==> ts[i] == rest[i - 1];
    }
  }

  /** The first name of a comma-joined list, followed by its comma. */
  lemma JoinCommaFront(p: string, ts: seq<string>)
    requires |ts| > 1
    ensures p + Join(ts, ", ") == (p + ts[0]) + [','] + (" " + Join(ts[1..], ", "))
  {
    var j := Join(ts[1..], ", ");
    assert ts == [ts[0]] + ts[1..];
    JoinPrepend(ts[0], ts[1..], ", ");
    assert Join(ts, ", ") == ts[0] + ", " + j;
    assert ", " + j == [','] + (" " + j);
  }

  /** The first and last characters of a comma-joined list of names. */
  lemma {:induction false} JoinEnds(ts: seq<string>)
    requires |ts| > 0 && ts[0] != [] && ts[|ts| - 1] != []
    ensures var s := Join(ts, ", ");
            s != [] && s[0] == ts[0][0] && s[|s| - 1] == ts[|ts| - 1][|ts[|ts| - 1]| - 1]
  {
    if |ts| > 1 {
      JoinPrepend(ts[0], ts[1..], ", ");
      assert ts == [ts[0]] + ts[1..];
    }
  }

  /**
   * Any non-empty list of trimmed, comma-free type names, joined with ", ",
   * parses back to that list.
   */
  lemma ParamTypesRoundTrip(ts: seq<string>)
    requires ts != []
    requires forall i :: 0 <= i < |ts| ==> TrimmedName(ts[i]) && ',' !in ts[i]
    ensures ExpectedParamTypeList(Join(ts, ", ")) == ts
  {
    var s := Join(ts, ", ");
    JoinTrimmed(ts);
    SplitCommaJoin("", ts);
    assert "" + s == s;
    var parts := SplitOn(s, ',');
    TrimmedParts(ts, parts);
    ParamTypeListOfParts(s);
  }

  /** A non-blank parameter text is the list of its trimmed comma-separated pieces. */
  lemma ParamTypeListOfParts(s: string)
    requires Trim(s) == s != ""
    ensures var parts := SplitOn(s, ',');
            ExpectedParamTypeList(s) == seq(|parts|, i requires 0 <= i < |parts| => Trim(parts[i]))
  {
  }

  /** Trimming the split pieces of a joined list of names gives back the names. */
  lemma TrimmedParts(ts: seq<string>, parts: seq<string>)
    requires |parts| == |ts| > 0
    requires forall i :: 0 <= i < |ts| ==> TrimmedName(ts[i])
    requires parts[0] == "" + ts[0]
    requires forall i :: 1 <= i < |ts| ==> parts[i] == " " + ts[i]
    ensures seq(|parts|, i requires 0 <= i < |parts| => Trim(parts[i])) == ts
  {
    forall i | 0 <= i < |ts|
      ensures Trim(parts[i]) == ts[i]
    {
      if i > 0 {
        TrimLeadingSpace(ts[i]);
      } else {
        assert parts[0] == ts[0];
        TrimTrimmed(ts[0]);
      }
    }
  }

  /** A joined list of trimmed names is trimmed and not blank. */
  lemma JoinTrimmed(ts: seq<string>)
    requires ts != []
    requires TrimmedName(ts[0]) && TrimmedName(ts[|ts| - 1])
    ensures Trim(Join(ts, ", ")) == Join(ts, ", ") != ""
  {
    JoinEnds(ts);
    TrimTrimmed(Join(ts, ", "));
  }

  // ---------------------------------------------------------------------
  // Missing class and fields
  // ---------------------------------------------------------------------

  /**
   * A class that did not compile yields exactly one error, naming the
   * question's class, a score of 0 and no test results.
   */
  lemma MissingClassShortCircuits(question: ClassQuestion, result: ClassJobResult)
    requires ClassMissing(result)
    ensures CompareStructure(question, result) == [MissingRequiredClassError(question.className)]
    ensures Grade(question, result)
            == ScoredQuestionResult(0.0, CodeQuestionResult([MissingRequiredClassError(question.className)], []))
  {
  }

  function CountFieldErrors(errs: seq<CodeQuestionError>): nat
  {
    if errs == [] then 0
    else CountFieldErrors(errs[..|errs| - 1]) + (if errs[|errs| - 1].FieldVisibilityError? then 1 else 0)
  }

  function CountPublicFields(fields: seq<FieldDefinition>): nat
  {
    if fields == [] then 0
    else CountPublicFields(fields[..|fields| - 1]) + (if fields[|fields| - 1].isPublic then 1 else 0)
  }

  lemma {:induction false} CountFieldErrorsConcat(a: seq<CodeQuestionError>, b: seq<CodeQuestionError>)
    ensures CountFieldErrors(a + b) == CountFieldErrors(a) + CountFieldErrors(b)
    decreases |b|
  {
    if b == [] {
      assert a + b == a;
    } else {
      assert (a + b)[..|a + b| - 1] == a + b[..|b| - 1];
      CountFieldErrorsConcat(a, b[..|b| - 1]);
    }
  }

  lemma {:induction false} CountFieldErrorsNone(errs: seq<CodeQuestionError>)
    requires forall e :: e in errs ==> !e.FieldVisibilityError?
    ensures CountFieldErrors(errs) == 0
    decreases |errs|
  {
    if errs != [] {
      assert forall e :: e in errs[..|errs| - 1] ==> e in errs;
      CountFieldErrorsNone(errs[..|errs| - 1]);
    }
  }

  lemma {:induction false} PublicFieldErrorsCount(className: string, fields: seq<FieldDefinition>)
    ensures CountFieldErrors(PublicFieldErrors(className, fields)) == CountPublicFields(fields)
    decreases |fields|
  {
    if fields != [] {
      var init := fields[..|fields| - 1];
      PublicFieldErrorsCount(className, init);
      CountFieldErrorsConcat(PublicFieldErrors(className, init),
        [FieldVisibilityError(className, fields[|fields| - 1].name)]);
    }
  }

  /**
   * Fields are checked exhaustively: when public fields are forbidden there
   * is one field error per public field, and an error names a field exactly
   * when that field is public; when they are allowed there is none.
   */
  lemma FieldVisibility(question: ClassQuestion, result: ClassJobResult)
    requires !ClassMissing(result)
    ensures CountFieldErrors(CompareStructure(question, result))
            == if question.allowPublicFields then 0 else CountPublicFields(result.classDefinition.value.fields)
    ensures forall f ::
              FieldVisibilityError(question.className, f) in CompareStructure(question, result)
              <==> !question.allowPublicFields
                   && exists fd :: fd in result.classDefinition.value.fields && fd.isPublic && fd.name == f
  {
    var cd := result.classDefinition.value;
    var fe := if question.allowPublicFields then [] else PublicFieldErrors(question.className, cd.fields);
    var me := MethodErrors(question.className, question.requiredMethods, cd.methods);
    assert CompareStructure(question, result) == fe + me;
    CountFieldErrorsConcat(fe, me);
    CountFieldErrorsNone(me);
    if !question.allowPublicFields {
      PublicFieldErrorsCount(question.className, cd.fields);
    }
  }

  // ---------------------------------------------------------------------
  // Overload sets
  // ---------------------------------------------------------------------

  /** The method errors (count or definition) that name `key`, in order. */
  function ErrorsAbout(errs: seq<CodeQuestionError>, key: string): (r: seq<CodeQuestionError>)
    ensures forall e :: e in r <==> e in errs && (e.MethodCountError? || e.MethodDefinitionError?)
                                    && e.expectedMethodName == key
  {
    if errs == [] then []
    else
      var e := errs[|errs| - 1];
      var rest := ErrorsAbout(errs[..|errs| - 1], key);
      assert errs == errs[..|errs| - 1] + [e];
      if (e.MethodCountError? || e.MethodDefinitionError?) && e.expectedMethodName == key then rest + [e] else rest
  }

  lemma {:induction false} ErrorsAboutConcat(a: seq<CodeQuestionError>, b: seq<CodeQuestionError>, key: string)
    ensures ErrorsAbout(a + b, key) == ErrorsAbout(a, key) + ErrorsAbout(b, key)
    decreases |b|
  {
    if b == [] {
      assert a + b == a;
    } else {
      assert (a + b)[..|a + b| - 1] == a + b[..|b| - 1];
      ErrorsAboutConcat(a, b[..|b| - 1], key);
    }
  }

  lemma {:induction false} ErrorsAboutAll(errs: seq<CodeQuestionError>, key: string)
    requires forall e :: e in errs ==> (e.MethodCountError? || e.MethodDefinitionError?) && e.expectedMethodName == key
    ensures ErrorsAbout(errs, key) == errs
    decreases |errs|
  {
    if errs != [] {
      assert forall e :: e in errs[..|errs| - 1] ==> e in errs;
      ErrorsAboutAll(errs[..|errs| - 1], key);
      assert errs == errs[..|errs| - 1] + [errs[|errs| - 1]];
    }
  }

  lemma {:induction false} ErrorsAboutNone(errs: seq<CodeQuestionError>, key: string)
    requires forall e :: e in errs ==> !((e.MethodCountError? || e.MethodDefinitionError?) && e.expectedMethodName == key)
    ensures ErrorsAbout(errs, key) == []
  {
    if ErrorsAbout(errs, key) != [] {
      assert ErrorsAbout(errs, key)[0] in ErrorsAbout(errs, key);
    }
  }

  lemma {:induction false} ErrorsForKeysAbout(
    className: string, keys: seq<string>, ms: seq<RequiredMethod>, ds: seq<MethodDefinition>, key: string)
    requires forall k :: k in keys ==> exists m :: m in ms && MethodKey(className, m) == k
    requires forall i, j :: 0 <= i < j < |keys| ==> keys[i] != keys[j]
    ensures key in keys ==> |RequiredWithKey(className, ms, key)| > 0
    ensures ErrorsAbout(ErrorsForKeys(className, keys, ms, ds), key)
            == if key in keys
               then GroupErrors(className, key, RequiredWithKey(className, ms, key), ActualWithName(ds, key))
               else []
    decreases |keys|
  {
    if keys != [] {
      var k := keys[0];
      assert k in keys;
      var m :| m in ms && MethodKey(className, m) == k;
      assert m in RequiredWithKey(className, ms, k);
      var g := GroupErrors(className, k, RequiredWithKey(className, ms, k), ActualWithName(ds, k));
      assert forall k' :: k' in keys[1..] ==> k' in keys;
      var rest := ErrorsForKeys(className, keys[1..], ms, ds);
      ErrorsForKeysAbout(className, keys[1..], ms, ds, key);
      ErrorsAboutConcat(g, rest, key);
      if k == key {
        ErrorsAboutAll(g, key);
        assert key !in keys[1..];
      } else {
        ErrorsAboutNone(g, key);
        assert key in keys <==> key in keys[1..];
      }
    }
  }

  /**
   * The errors that name a method are exactly the errors of its overload
   * set: none for a name no required method carries.
   */
  lemma ErrorsOfOverloadSet(question: ClassQuestion, result: ClassJobResult, key: string)
    requires !ClassMissing(result)
    ensures key in MethodKeys(question.className, question.requiredMethods)
            ==> |RequiredWithKey(question.className, question.requiredMethods, key)| > 0
    ensures ErrorsAbout(CompareStructure(question, result), key)
            == if key in MethodKeys(question.className, question.requiredMethods)
               then GroupErrors(question.className, key,
                      RequiredWithKey(question.className, question.requiredMethods, key),
                      ActualWithName(result.classDefinition.value.methods, key))
               else []
  {
    var cd := result.classDefinition.value;
    var fe := if question.allowPublicFields then [] else PublicFieldErrors(question.className, cd.fields);
    var me := MethodErrors(question.className, question.requiredMethods, cd.methods);
    assert CompareStructure(question, result) == fe + me;
    ErrorsAboutConcat(fe, me, key);
    ErrorsAboutNone(fe, key);
    ErrorsForKeysAbout(question.className, MethodKeys(question.className, question.requiredMethods),
      question.requiredMethods, cd.methods, key);
  }

  /**
   * When the number of actual methods with a required name differs from the
   * number of required entries, that name gets exactly one error: a count
   * error with the required count and the first entry's staticness.
   */
  lemma OverloadCountMismatch(question: ClassQuestion, result: ClassJobResult, key: string)
    requires !ClassMissing(result)
    requires key in MethodKeys(question.className, question.requiredMethods)
    requires |RequiredWithKey(question.className, question.requiredMethods, key)|
             != |ActualWithName(result.classDefinition.value.methods, key)|
    ensures var exp := RequiredWithKey(question.className, question.requiredMethods, key);
            |exp| > 0 &&
            ErrorsAbout(CompareStructure(question, result), key)
            == [MethodCountError(question.className, key, |exp|, exp[0].isStatic)]
  {
    ErrorsOfOverloadSet(question, result, key);
  }

  /** When the counts agree, a name's errors are the signature errors of its overload set, and no count error. */
  lemma OverloadCountMatch(question: ClassQuestion, result: ClassJobResult, key: string)
    requires !ClassMissing(result)
    requires key in MethodKeys(question.className, question.requiredMethods)
    requires |RequiredWithKey(question.className, question.requiredMethods, key)|
             == |ActualWithName(result.classDefinition.value.methods, key)|
    ensures ErrorsAbout(CompareStructure(question, result), key)
            == DefinitionErrors(question.className, key,
                 RequiredWithKey(question.className, question.requiredMethods, key),
                 ActualWithName(result.classDefinition.value.methods, key))
    ensures forall e :: e in ErrorsAbout(CompareStructure(question, result), key) ==> !e.MethodCountError?
  {
    ErrorsOfOverloadSet(question, result, key);
  }

  // ---------------------------------------------------------------------
  // Signature checks
  // ---------------------------------------------------------------------

  /** The first actual method whose parameter types match the required one. */
  function FirstMatching(required: RequiredMethod, ds: seq<MethodDefinition>): (r: Option<MethodDefinition>)
    ensures r.Some? ==> r.value in ds && ParamsMatch(required, r.value)
    ensures r.None? <==> forall d :: d in ds ==> !ParamsMatch(required, d)
  {
    if ds == [] then None
    else if ParamsMatch(required, ds[0]) then Some(ds[0])
    else FirstMatching(required, ds[1..])
  }

  /**
   * A required method conforms when the first actual method with matching
   * parameter types also has the required visibility, staticness and
   * return type.
   */
  predicate Conforms(required: RequiredMethod, ds: seq<MethodDefinition>)
  {
    match FirstMatching(required, ds)
    case None => false
    case Some(d) => SignatureMatches(required, d)
  }

  /**
   * Reference definition of an overload set's signature errors: one error
   * per non-conforming required method, in declaration order.
   */
  function NonConformingErrors(className: string, key: string, exp: seq<RequiredMethod>, ds: seq<MethodDefinition>)
    : seq<CodeQuestionError>
  {
    if exp == [] then []
    else
      (if Conforms(exp[0], ds) then [] else [DefinitionError(className, key, exp[0])])
      + NonConformingErrors(className, key, exp[1..], ds)
  }

  /** The parameter types of a required method, erased. */
  function ErasedParams(required: RequiredMethod): seq<string>
  {
    var ps := ExpectedParamTypeList(required.paramTypes);
    seq(|ps|, i requires 0 <= i < |ps| => EraseGenerics(ps[i]))
  }

  function ErasedActualParams(d: MethodDefinition): seq<string>
  {
    seq(|d.parameterTypes|, i requires 0 <= i < |d.parameterTypes| => EraseGenerics(d.parameterTypes[i]))
  }

  lemma ParamsMatchErased(required: RequiredMethod, d: MethodDefinition)
    ensures ParamsMatch(required, d) <==> ErasedParams(required) == ErasedActualParams(d)
  {
    var ps := ExpectedParamTypeList(required.paramTypes);
    var e := ErasedParams(required);
    var a := ErasedActualParams(d);
    if ParamsMatch(required, d) {
      assert |e| == |a| && forall i :: 0 <= i < |e| ==> e[i] == a[i];
    }
    if e == a {
      assert |ps| == |d.parameterTypes|;
      forall i | 0 <= i < |ps|
        ensures TypesMatch(ps[i], d.parameterTypes[i])
      {
        assert e[i] == a[i];
      }
    }
  }

  /** No two required methods of an overload set have the same erased parameter types. */
  predicate DistinctParamLists(exp: seq<RequiredMethod>)
  {
    forall i, j :: 0 <= i < j < |exp| ==> ErasedParams(exp[i]) != ErasedParams(exp[j])
  }

  lemma {:induction false} FirstMatchingSkips(required: RequiredMethod, avail: seq<MethodDefinition>, j: nat)
    requires j < |avail| && !ParamsMatch(required, avail[j])
    ensures FirstMatching(required, RemoveAt(avail, j)) == FirstMatching(required, avail)
    decreases |avail|
  {
    var r := RemoveAt(avail, j);
    if j > 0 {
      assert r[0] == avail[0];
      if !ParamsMatch(required, avail[0]) {
        assert r[1..] == RemoveAt(avail[1..], j - 1);
        FirstMatchingSkips(required, avail[1..], j - 1);
      }
    } else {
      assert r == avail[1..];
    }
  }

  lemma {:induction false} FirstParamMatchIsFirstMatching(required: RequiredMethod, avail: seq<MethodDefinition>)
    ensures var j := FirstParamMatch(required, avail);
            FirstMatching(required, avail) == if j < |avail| then Some(avail[j]) else None
    decreases |avail|
  {
    if avail != [] && !ParamsMatch(required, avail[0]) {
      FirstParamMatchIsFirstMatching(required, avail[1..]);
    }
  }

  /**
   * Overload pairing never steals a method from another required entry:
   * when the required parameter lists are distinct, each required method is
   * judged against the first actual method whose parameter types match it,
   * whatever the other entries were paired with.
   */
  lemma {:induction false} DefinitionErrorsReference(
    className: string, key: string, exp: seq<RequiredMethod>, avail: seq<MethodDefinition>, ds: seq<MethodDefinition>)
    requires DistinctParamLists(exp)
    requires forall m :: m in exp ==> FirstMatching(m, avail) == FirstMatching(m, ds)
    ensures DefinitionErrors(className, key, exp, avail) == NonConformingErrors(className, key, exp, ds)
    decreases |exp|
  {
    if exp != [] {
      var m := exp[0];
      var j := FirstParamMatch(m, avail);
      FirstParamMatchIsFirstMatching(m, avail);
      assert m in exp;
      DistinctParamListsTail(exp);
      if j < |avail| {
        var next := RemoveAt(avail, j);
        forall m' | m' in exp[1..]
          ensures FirstMatching(m', next) == FirstMatching(m', ds)
        {
          assert m' in exp;
          RemovingMatchKeepsOthers(m, m', avail, j);
        }
        DefinitionErrorsReference(className, key, exp[1..], next, ds);
      } else {
        assert forall m' :: m' in exp[1..] ==> m' in exp;
        DefinitionErrorsReference(className, key, exp[1..], avail, ds);
      }
    }
  }

  /** The rest of a list with distinct parameter lists has distinct parameter lists, all unlike the first. */
  lemma DistinctParamListsTail(exp: seq<RequiredMethod>)
    requires exp != [] && DistinctParamLists(exp)
    ensures DistinctParamLists(exp[1..])
    ensures forall m' :: m' in exp[1..] ==> ErasedParams(exp[0]) != ErasedParams(m')
  {
    forall i, k | 0 <= i < k < |exp[1..]|
      ensures ErasedParams(exp[1..][i]) != ErasedParams(exp[1..][k])
    {
      assert exp[1..][i] == exp[i + 1] && exp[1..][k] == exp[k + 1];
    }
    forall m' | m' in exp[1..]
      ensures ErasedParams(exp[0]) != ErasedParams(m')
    {
      var k :| 0 <= k < |exp[1..]| && exp[1..][k] == m';
      assert exp[k + 1] == m';
    }
  }

  /** Taking the match of one required method leaves the first match of another with different parameters. */
  lemma RemovingMatchKeepsOthers(m: RequiredMethod, m': RequiredMethod, avail: seq<MethodDefinition>, j: nat)
    requires j < |avail| && ParamsMatch(m, avail[j])
    requires ErasedParams(m) != ErasedParams(m')
    ensures FirstMatching(m', RemoveAt(avail, j)) == FirstMatching(m', avail)
  {
    ParamsMatchErased(m, avail[j]);
    ParamsMatchErased(m', avail[j]);
    FirstMatchingSkips(m', avail, j);
  }

  /**
   * Signature errors of an overload set with distinct required parameter
   * lists and agreeing counts: an error for exactly the required methods
   * that do not conform, each carrying that method's expected values.
   */
  lemma SignatureErrors(question: ClassQuestion, result: ClassJobResult, key: string)
    requires !ClassMissing(result)
    requires key in MethodKeys(question.className, question.requiredMethods)
    requires DistinctParamLists(RequiredWithKey(question.className, question.requiredMethods, key))
    requires |RequiredWithKey(question.className, question.requiredMethods, key)|
             == |ActualWithName(result.classDefinition.value.methods, key)|
    ensures ErrorsAbout(CompareStructure(question, result), key)
            == NonConformingErrors(question.className, key,
                 RequiredWithKey(question.className, question.requiredMethods, key),
                 ActualWithName(result.classDefinition.value.methods, key))
  {
    OverloadCountMatch(question, result, key);
    var ds := ActualWithName(result.classDefinition.value.methods, key);
    DefinitionErrorsReference(question.className, key,
      RequiredWithKey(question.className, question.requiredMethods, key), ds, ds);
  }

  lemma {:induction false} NonConformingMembers(className: string, key: string, exp: seq<RequiredMethod>, ds: seq<MethodDefinition>)
    ensures forall m :: m in exp && !Conforms(m, ds) ==> DefinitionError(className, key, m) in NonConformingErrors(className, key, exp, ds)
    ensures forall e :: e in NonConformingErrors(className, key, exp, ds) ==>
              exists m :: m in exp && !Conforms(m, ds) && e == DefinitionError(className, key, m)
    ensures NonConformingErrors(className, key, exp, ds) == [] <==> forall m :: m in exp ==> Conforms(m, ds)
    decreases |exp|
  {
    if exp != [] {
      NonConformingMembers(className, key, exp[1..], ds);
      assert forall m :: m in exp <==> m == exp[0] || m in exp[1..];
    }
  }

  /** No two actual methods of an overload set have the same erased parameter types. */
  predicate DistinctActualParamLists(ds: seq<MethodDefinition>)
  {
    forall i, j :: 0 <= i < j < |ds| ==> ErasedActualParams(ds[i]) != ErasedActualParams(ds[j])
  }

  lemma FirstMatchingIsUnique(required: RequiredMethod, ds: seq<MethodDefinition>, d: MethodDefinition)
    requires DistinctActualParamLists(ds)
    requires d in ds && ParamsMatch(required, d)
    ensures FirstMatching(required, ds) == Some(d)
  {
    var r := FirstMatching(required, ds);
    if r != Some(d) {
      var x := r.value;
      var i :| 0 <= i < |ds| && ds[i] == x;
      var j :| 0 <= j < |ds| && ds[j] == d;
      ParamsMatchErased(required, x);
      ParamsMatchErased(required, d);
    }
  }

  /**
   * Overload sets are matched as sets: when the actual overloads have
   * distinct parameter types, reordering them changes no error.
   */
  lemma {:induction false} OverloadOrderIrrelevant(
    className: string, key: string, exp: seq<RequiredMethod>, ds: seq<MethodDefinition>, ds': seq<MethodDefinition>)
    requires multiset(ds) == multiset(ds')
    requires DistinctActualParamLists(ds) && DistinctActualParamLists(ds')
    ensures NonConformingErrors(className, key, exp, ds) == NonConformingErrors(className, key, exp, ds')
    decreases |exp|
  {
    if exp != [] {
      var m := exp[0];
      assert forall d :: d in ds <==> d in ds' by {
        forall d ensures d in ds <==> d in ds' {
          assert d in ds <==> d in multiset(ds);
          assert d in ds' <==> d in multiset(ds');
        }
      }
      var r := FirstMatching(m, ds);
      if r.Some? {
        FirstMatchingIsUnique(m, ds', r.value);
      }
      OverloadOrderIrrelevant(className, key, exp[1..], ds, ds');
    }
  }

  /** Every overload set of the question has distinct required parameter lists. */
  predicate WellFormedOverloads(question: ClassQuestion)
  {
    forall k :: k in MethodKeys(question.className, question.requiredMethods) ==>
      DistinctParamLists(RequiredWithKey(question.className, question.requiredMethods, k))
  }

  /**
   * Independent statement of a structurally correct class: no public field
   * unless allowed, and for every required name as many actual methods as
   * required entries, each required entry conforming.
   */
  predicate StructurallyCorrect(question: ClassQuestion, cd: ClassDefinition)
  {
    (question.allowPublicFields || forall fd :: fd in cd.fields ==> !fd.isPublic)
    && forall k :: k in MethodKeys(question.className, question.requiredMethods) ==>
         |RequiredWithKey(question.className, question.requiredMethods, k)| == |ActualWithName(cd.methods, k)|
         && forall m :: m in RequiredWithKey(question.className, question.requiredMethods, k) ==>
              Conforms(m, ActualWithName(cd.methods, k))
  }

  /**
   * For a question whose overloads differ in their parameter types, a
   * compiled class gets no structural error exactly when it is structurally
   * correct.
   */
  lemma NoErrorsIffStructurallyCorrect(question: ClassQuestion, result: ClassJobResult)
    requires !ClassMissing(result)
    requires WellFormedOverloads(question)
    ensures CompareStructure(question, result) == []
            <==> StructurallyCorrect(question, result.classDefinition.value)
  {
    var cd := result.classDefinition.value;
    var errs := CompareStructure(question, result);
    var keys := MethodKeys(question.className, question.requiredMethods);
    FieldVisibility(question, result);
    if errs == [] {
      forall k | k in keys
        ensures |RequiredWithKey(question.className, question.requiredMethods, k)| == |ActualWithName(cd.methods, k)|
        ensures forall m :: m in RequiredWithKey(question.className, question.requiredMethods, k) ==>
                  Conforms(m, ActualWithName(cd.methods, k))
      {
        ErrorsOfOverloadSet(question, result, k);
        var exp := RequiredWithKey(question.className, question.requiredMethods, k);
        var act := ActualWithName(cd.methods, k);
        if |exp| == |act| {
          SignatureErrors(question, result, k);
          NonConformingMembers(question.className, k, exp, act);
        }
      }
      if !question.allowPublicFields {
        forall fd | fd in cd.fields
          ensures !fd.isPublic
        {
          assert FieldVisibilityError(question.className, fd.name) !in errs;
        }
      }
    } else {
      var e := errs[0];
      assert e in errs;
      if StructurallyCorrect(question, cd) {
        var fe := if question.allowPublicFields then [] else PublicFieldErrors(question.className, cd.fields);
        var me := MethodErrors(question.className, question.requiredMethods, cd.methods);
        assert errs == fe + me;
        if e !in fe {
          var k := e.expectedMethodName;
          assert k in keys;
          ErrorsOfOverloadSet(question, result, k);
          SignatureErrors(question, result, k);
          var exp := RequiredWithKey(question.className, question.requiredMethods, k);
          var act := ActualWithName(cd.methods, k);
          NonConformingMembers(question.className, k, exp, act);
        }
      }
    }
  }

  /** Selecting an overload set distributes over concatenation, so it keeps order and multiplicity. */
  lemma {:induction false} RequiredWithKeyConcat(
    className: string, a: seq<RequiredMethod>, b: seq<RequiredMethod>, key: string)
    ensures RequiredWithKey(className, a + b, key)
            == RequiredWithKey(className, a, key) + RequiredWithKey(className, b, key)
    decreases |b|
  {
    if b == [] {
      assert a + b == a;
    } else {
      var init, last := b[..|b| - 1], b[|b| - 1];
      assert (a + b)[..|a + b| - 1] == a + init;
      assert (a + b)[|a + b| - 1] == last;
      RequiredWithKeyConcat(className, a, init, key);
    }
  }

  /** A single required method is in the overload set exactly when its key is the set's name. */
  lemma RequiredWithKeySingle(className: string, m: RequiredMethod, key: string)
    ensures RequiredWithKey(className, [m], key) == if MethodKey(className, m) == key then [m] else []
  {
    assert [m][..0] == [];
  }

  /** Selecting compiled methods by name distributes over concatenation. */
  lemma {:induction false} ActualWithNameConcat(a: seq<MethodDefinition>, b: seq<MethodDefinition>, name: string)
    ensures ActualWithName(a + b, name) == ActualWithName(a, name) + ActualWithName(b, name)
    decreases |b|
  {
    if b == [] {
      assert a + b == a;
    } else {
      var init, last := b[..|b| - 1], b[|b| - 1];
      assert (a + b)[..|a + b| - 1] == a + init;
      assert (a + b)[|a + b| - 1] == last;
      ActualWithNameConcat(a, init, name);
    }
  }

  /** A single compiled method is selected exactly when it carries the name. */
  lemma ActualWithNameSingle(d: MethodDefinition, name: string)
    ensures ActualWithName([d], name) == if d.name == name then [d] else []
  {
    assert [d][..0] == [];
  }

  lemma {:induction false} RequiredAllWithKey(className: string, ms: seq<RequiredMethod>, key: string)
    requires forall m :: m in ms ==> MethodKey(className, m) == key
    ensures RequiredWithKey(className, ms, key) == ms
  {
    if ms != [] {
      var init := ms[..|ms| - 1];
      var last := ms[|ms| - 1];
      assert ms == init + [last];
      assert last in ms;
      assert forall m :: m in init ==> m in ms;
      RequiredAllWithKey(className, init, key);
      assert RequiredWithKey(className, ms, key) == RequiredWithKey(className, init, key) + [last];
    }
  }

  lemma {:induction false} ActualAllWithName(ds: seq<MethodDefinition>, name: string)
    requires forall d :: d in ds ==> d.name == name
    ensures ActualWithName(ds, name) == ds
  {
    if ds != [] {
      var init := ds[..|ds| - 1];
      var last := ds[|ds| - 1];
      assert ds == init + [last];
      assert last in ds;
      assert forall d :: d in init ==> d in ds;
      ActualAllWithName(init, name);
      assert ActualWithName(ds, name) == ActualWithName(init, name) + [last];
    }
  }

  /** A non-empty list of one repeated key has that key as its only distinct key. */
  lemma {:induction false} DistinctConstant(xs: seq<string>, x: string)
    requires |xs| > 0
    requires forall i :: 0 <= i < |xs| ==> xs[i] == x
    ensures Distinct(xs) == [x]
  {
    if |xs| > 1 {
      DistinctConstant(xs[..|xs| - 1], x);
    } else {
      assert xs[..|xs| - 1] == [];
    }
  }

  /**
   * When the required and the compiled methods all carry one name, the
   * method errors are those of that one overload set.
   */
  lemma SingleOverloadSet(question: ClassQuestion, result: ClassJobResult, key: string)
    requires !ClassMissing(result)
    requires question.requiredMethods != []
    requires forall m :: m in question.requiredMethods ==> MethodKey(question.className, m) == key
    requires forall d :: d in result.classDefinition.value.methods ==> d.name == key
    ensures CompareStructure(question, result)
            == (if question.allowPublicFields then []
                else PublicFieldErrors(question.className, result.classDefinition.value.fields))
               + GroupErrors(question.className, key, question.requiredMethods, result.classDefinition.value.methods)
  {
    SingleKeyMethodErrors(question.className, question.requiredMethods, result.classDefinition.value.methods, key);
  }

  /** Method errors when every required and compiled method carries one name. */
  lemma SingleKeyMethodErrors(c: string, ms: seq<RequiredMethod>, ds: seq<MethodDefinition>, key: string)
    requires ms != []
    requires forall m :: m in ms ==> MethodKey(c, m) == key
    requires forall d :: d in ds ==> d.name == key
    ensures MethodErrors(c, ms, ds) == GroupErrors(c, key, ms, ds)
  {
    DistinctConstant(KeyNames(c, ms), key);
    assert MethodKeys(c, ms) == [key];
    RequiredAllWithKey(c, ms, key);
    ActualAllWithName(ds, key);
    OneKeyErrors(c, key, ms, ds);
  }

  /** The errors for a single key are those of its group. */
  lemma OneKeyErrors(c: string, key: string, ms: seq<RequiredMethod>, ds: seq<MethodDefinition>)
    requires exists m :: m in ms && MethodKey(c, m) == key
    ensures ErrorsForKeys(c, [key], ms, ds)
            == GroupErrors(c, key, RequiredWithKey(c, ms, key), ActualWithName(ds, key))
  {
    assert [key][1..] == [];
    var m :| m in ms && MethodKey(c, m) == key;
    assert m in RequiredWithKey(c, ms, key);
  }

  // ---------------------------------------------------------------------
  // Scorer
  // ---------------------------------------------------------------------

  /** Any structural error forces the score to 0, keeps the errors and drops test results. */
  lemma StructuralErrorsScoreZero(question: ClassQuestion, result: ClassJobResult)
    requires CompareStructure(question, result) != []
    ensures Grade(question, result)
            == ScoredQuestionResult(0.0, CodeQuestionResult(CompareStructure(question, result), []))
  {
  }

  /** Tests that did not compile score 0, with the test compilation error as the only error. */
  lemma TestCompilationFailureScoresZero(question: ClassQuestion, result: ClassJobResult)
    requires CompareStructure(question, result) == []
    requires result.testsCompilationResult.None? || !result.testsCompilationResult.value.success
    ensures Grade(question, result).score == 0.0
    ensures |Grade(question, result).result.errors| == 1
    ensures Grade(question, result).result.errors[0].TestCompilationError?
    ensures Grade(question, result).result.testResults == []
  {
  }

  /**
   * Otherwise there is one outcome per question test, in order, carrying its
   * name and description, and the score is the fraction that succeeded.
   */
  lemma ScoreIsFractionOfSucceededTests(question: ClassQuestion, result: ClassJobResult)
    requires CompareStructure(question, result) == []
    requires result.testsCompilationResult.Some? && result.testsCompilationResult.value.success
    ensures var g := Grade(question, result);
            g.result.errors == []
            && |g.result.testResults| == |question.tests|
            && (forall i :: 0 <= i < |question.tests| ==>
                  g.result.testResults[i].name == question.tests[i].name
                  && g.result.testResults[i].description == question.tests[i].description)
            && (|question.tests| > 0 ==>
                  g.score == (CountSucceeded(g.result.testResults) as real) / (|question.tests| as real))
  {
  }

  /**
   * A score of exactly 1 is given exactly when there is no structural error,
   * the tests compiled, there is at least one test and every test succeeded.
   */
  lemma PerfectScoreIff(question: ClassQuestion, result: ClassJobResult)
    ensures var g := Grade(question, result);
            g.score == 1.0
            <==> CompareStructure(question, result) == []
                 && result.testsCompilationResult.Some? && result.testsCompilationResult.value.success
                 && |question.tests| > 0
                 && forall i :: 0 <= i < |g.result.testResults| ==> g.result.testResults[i].succeeded
  {
  }
}
