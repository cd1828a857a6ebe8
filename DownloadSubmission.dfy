/**
 * The text of the link that opens the student picker of the submission
 * download page: which of a section's students will be downloaded.
 */
module DownloadSubmission {
  import opened Strings

  /** One student of a section, as listed on the download page. */
  datatype StudentToDownload = StudentToDownload(selected: bool, lastName: string, firstName: string, submitted: bool)

  /** At most this many names are spelled out in the link. */
  const MaxStudentsToDisplayInSelectionLink: int := 3

  /** A student may be downloaded when they submitted, or when unsubmitted code is included. */
  predicate Allowable(student: StudentToDownload, includeUnsubmitted: bool)
  {
    includeUnsubmitted || student.submitted
  }

  /** A student whose name the link may list: selected and allowable. */
  predicate Listed(student: StudentToDownload, includeUnsubmitted: bool)
  {
    student.selected && Allowable(student, includeUnsubmitted)
  }

  /** True when some allowable student is not selected. */
  predicate AnyAllowableUnselected(students: seq<StudentToDownload>, includeUnsubmitted: bool)
  {
    exists i :: 0 <= i < |students| && Allowable(students[i], includeUnsubmitted) && !students[i].selected
  }

  /** A student's name as the link shows it: last name, comma, first name. */
  function StudentName(student: StudentToDownload): (name: string)
    ensures |name| == |student.lastName| + 2 + |student.firstName|
    ensures name[..|student.lastName|] == student.lastName
    ensures name[|student.lastName|..|student.lastName| + 2] == ", "
    ensures name[|student.lastName| + 2..] == student.firstName
  {
    student.lastName + ", " + student.firstName
  }

  /** The selected, allowable students, in list order. */
  function Eligible(students: seq<StudentToDownload>, includeUnsubmitted: bool): (r: seq<StudentToDownload>)
    ensures |r| <= |students|
  {
    if students == [] then []
    else
      var init := students[..|students| - 1];
      var last := students[|students| - 1];
      Eligible(init, includeUnsubmitted) + (if Listed(last, includeUnsubmitted) then [last] else [])
  }

  /** The eligible students are exactly the listed students of the list. */
  lemma {:induction false} EligibleMembers(students: seq<StudentToDownload>, includeUnsubmitted: bool)
    ensures forall s :: s in Eligible(students, includeUnsubmitted) <==> s in students && Listed(s, includeUnsubmitted)
    decreases |students|
  {
    if students != [] {
      var init := students[..|students| - 1];
      var last := students[|students| - 1];
      assert students == init + [last];
      EligibleMembers(init, includeUnsubmitted);
    }
  }

  function Names(students: seq<StudentToDownload>): (names: seq<string>)
    ensures |names| == |students|
    ensures forall i :: 0 <= i < |students| ==> names[i] == StudentName(students[i])
  {
    seq(|students|, i requires 0 <= i < |students| => StudentName(students[i]))
  }

  /** The first `n` elements of `s`, or all of them when there are fewer. */
  function Take<T>(s: seq<T>, n: nat): (r: seq<T>)
    ensures |r| == if |s| < n then |s| else n
    ensures r <= s
  {
    if |s| < n then s else s[..n]
  }

  /** The text for "every allowable student is selected". */
  function AllText(includeUnsubmitted: bool): string
  {
    "Students: All" + (if includeUnsubmitted then "" else "(except unsubmitted)")
  }

  /** The text for "no allowable student is selected". */
  const NoneText := "Students: None"

  /** The link text that lists `students` by name, separated by semicolons. */
  function ListedText(students: seq<StudentToDownload>): string
  {
    "Students: " + Join(Names(students), "; ")
  }

  /**
   * What the link says, as the code computes it: "All" when no allowable
   * student is left unselected, "None" when no allowable student is
   * selected, and otherwise the names of the first three selected allowable
   * students. The count suffix is never produced (see `MoreSuffix`).
   */
  function SummaryDisplay(students: seq<StudentToDownload>, includeUnsubmitted: bool): string
  {
    if !AnyAllowableUnselected(students, includeUnsubmitted) then AllText(includeUnsubmitted)
    else if |Eligible(students, includeUnsubmitted)| == 0 then NoneText
    else ListedText(Take(Eligible(students, includeUnsubmitted), MaxStudentsToDisplayInSelectionLink))
  }

  /** The "; and N more" suffix for `remaining` students not named, empty unless positive. */
  function MoreSuffix(remaining: int): string
  {
    if remaining > 0 then "; and " + NatToString(remaining) + " more" else ""
  }

  /**
   * What the link evidently should say: as `SummaryDisplay`, but followed by
   * the number of selected allowable students beyond the first three.
   */
  function SummaryDisplayCorrected(students: seq<StudentToDownload>, includeUnsubmitted: bool): string
  {
    if !AnyAllowableUnselected(students, includeUnsubmitted) then AllText(includeUnsubmitted)
    else if |Eligible(students, includeUnsubmitted)| == 0 then NoneText
    else
      var eligible := Eligible(students, includeUnsubmitted);
      ListedText(Take(eligible, MaxStudentsToDisplayInSelectionLink))
        + MoreSuffix(|eligible| - MaxStudentsToDisplayInSelectionLink)
  }

  /** Decimal text of a natural number. */
  function NatToString(n: nat): (r: string)
    ensures |r| > 0
    ensures forall i :: 0 <= i < |r| ==> '0' <= r[i] <= '9'
    decreases n
  {
    var digit := ["0123456789"[n % 10]];
    if n < 10 then digit else NatToString(n / 10) + digit
  }

  /** The number a string of decimal digits denotes. */
  function DigitsValue(s: string): nat
  {
    if s == [] then 0
    else
      var d := s[|s| - 1] as int - '0' as int;
      DigitsValue(s[..|s| - 1]) * 10 + (if 0 <= d then d else 0)
  }

  /** One step of the eligible prefix: the next student is appended when listed. */
  lemma EligibleStep(students: seq<StudentToDownload>, i: nat, includeUnsubmitted: bool)
    requires i < |students|
    ensures Eligible(students[..i + 1], includeUnsubmitted)
            == Eligible(students[..i], includeUnsubmitted)
               + (if Listed(students[i], includeUnsubmitted) then [students[i]] else [])
  {
    assert students[..i + 1][..i] == students[..i];
  }

  /** Listing is compositional: the eligible students of a concatenation. */
  lemma {:induction false} EligibleConcat(a: seq<StudentToDownload>, b: seq<StudentToDownload>, includeUnsubmitted: bool)
    ensures Eligible(a + b, includeUnsubmitted) == Eligible(a, includeUnsubmitted) + Eligible(b, includeUnsubmitted)
    decreases |b|
  {
    if b == [] {
      assert a + b == a;
    } else {
      var init, last := b[..|b| - 1], b[|b| - 1];
      var tail := if Listed(last, includeUnsubmitted) then [last] else [];
      assert (a + b)[..|a + b| - 1] == a + init;
      assert (a + b)[|a + b| - 1] == last;
      assert Eligible(a + b, includeUnsubmitted) == Eligible(a + init, includeUnsubmitted) + tail;
      assert Eligible(b, includeUnsubmitted) == Eligible(init, includeUnsubmitted) + tail;
      EligibleConcat(a, init, includeUnsubmitted);
    }
  }

  /** Appending one more name to the listed text. */
  lemma AppendName(before: seq<StudentToDownload>, student: StudentToDownload, ret: string)
    requires ret == ListedText(before)
    ensures (if |before| > 0 then ret + "; " else ret) + StudentName(student) == ListedText(before + [student])
  {
    var names := Names(before + [student]);
    assert names[..|names| - 1] == Names(before);
    if |before| == 0 {
      assert names == [StudentName(student)];
    }
  }

  /**
   * The names listed once the loop stops with `listed` appended: either all
   * eligible students, or the first three.
   */
  lemma ListedPrefix(students: seq<StudentToDownload>, i: nat, includeUnsubmitted: bool)
    requires i <= |students|
    requires var n := |Eligible(students[..i], includeUnsubmitted)|;
             n == 3 || (i == |students| && n < 3)
    ensures Take(Eligible(students, includeUnsubmitted), 3) == Eligible(students[..i], includeUnsubmitted)
  {
    EligibleConcat(students[..i], students[i..], includeUnsubmitted);
    assert students[..i] + students[i..] == students;
    if i == |students| {
      assert students[i..] == [];
    }
  }

  /**
   * The loop of the link text: appends the names of selected, allowable
   * students, separated by "; ", and stops after the third.
   */
  method AppendStudentNames(students: seq<StudentToDownload>, includeUnsubmitted: bool)
    returns (ret: string, numStudentsAppended: int)
    ensures ret == ListedText(Take(Eligible(students, includeUnsubmitted), MaxStudentsToDisplayInSelectionLink))
    ensures numStudentsAppended == |Take(Eligible(students, includeUnsubmitted), MaxStudentsToDisplayInSelectionLink)|
  {
    ret := "Students: ";
    numStudentsAppended := 0;
    ghost var listed: seq<StudentToDownload> := [];
    var i := 0;
    while i < |students|
      invariant 0 <= i <= |students|
      invariant listed == Eligible(students[..i], includeUnsubmitted)
      invariant numStudentsAppended == |listed| < MaxStudentsToDisplayInSelectionLink
      invariant ret == ListedText(listed)
    {
      var student := students[i];
      EligibleStep(students, i, includeUnsubmitted);
      if !student.selected || !Allowable(student, includeUnsubmitted) {
        i := i + 1;
        continue;
      }

      AppendName(listed, student, ret);
      if numStudentsAppended > 0 {
        ret := ret + "; ";
      }

      ret := ret + StudentName(student);
      numStudentsAppended := numStudentsAppended + 1;
      listed := listed + [student];
      i := i + 1;
      if numStudentsAppended == MaxStudentsToDisplayInSelectionLink {
        break;
      }
    }
    ListedPrefix(students, i, includeUnsubmitted);
  }

  /**
   * Builds the link text as the code does: the count suffix is computed from
   * the number of names appended, which never exceeds three.
   */
  method GetStudentSummaryDisplay(students: seq<StudentToDownload>, includeUnsubmitted: bool) returns (ret: string)
    ensures ret == SummaryDisplay(students, includeUnsubmitted)
  {
    var downloadAll := !AnyAllowableUnselected(students, includeUnsubmitted);
    if downloadAll {
      return "Students: All" + (if includeUnsubmitted then "" else "(except unsubmitted)");
    }

    var numStudents := |Eligible(students, includeUnsubmitted)|;
    if numStudents == 0 {
      return "Students: None";
    }

    var numStudentsAppended;
    ret, numStudentsAppended := AppendStudentNames(students, includeUnsubmitted);
    var remaining := numStudentsAppended - MaxStudentsToDisplayInSelectionLink;
    if remaining > 0 {
      ret := ret + MoreSuffix(remaining);
    }
  }

  /** Builds the link text with the suffix computed from the number of eligible students. */
  method GetStudentSummaryDisplayCorrected(students: seq<StudentToDownload>, includeUnsubmitted: bool) returns (ret: string)
    ensures ret == SummaryDisplayCorrected(students, includeUnsubmitted)
  {
    var downloadAll := !AnyAllowableUnselected(students, includeUnsubmitted);
    if downloadAll {
      return "Students: All" + (if includeUnsubmitted then "" else "(except unsubmitted)");
    }

    var numStudents := |Eligible(students, includeUnsubmitted)|;
    if numStudents == 0 {
      return "Students: None";
    }

    var numStudentsAppended;
    ret, numStudentsAppended := AppendStudentNames(students, includeUnsubmitted);
    var remaining := numStudents - MaxStudentsToDisplayInSelectionLink;
    if remaining > 0 {
      ret := ret + MoreSuffix(remaining);
    }
  }
}
