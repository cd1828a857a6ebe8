/**
 * Properties of the download link's text: which of the three forms it
 * takes, which students cannot affect it, how the students it names are
 * chosen, and what the count suffix would add.
 */
module DownloadSubmissionProperties {
  import opened Strings
  import opened DownloadSubmission

  /** A character of the last part of a join occurs in the join. */
  lemma JoinHasLast(parts: seq<string>, sep: string, c: char)
    requires |parts| > 0 && c in parts[|parts| - 1]
    ensures c in Join(parts, sep)
  {
    var last := parts[|parts| - 1];
    var j := Join(parts, sep);
    var k :| 0 <= k < |last| && last[k] == c;
    if |parts| > 1 {
      var front := Join(parts[..|parts| - 1], sep) + sep;
      assert j == front + last;
      assert j[|front| + k] == c;
    }
  }

  /** Every listing of at least one student contains the comma of a name. */
  lemma ListedTextHasComma(students: seq<StudentToDownload>)
    requires |students| > 0
    ensures ',' in ListedText(students)
  {
    var names := Names(students);
    var last := students[|students| - 1];
    assert StudentName(last)[|last.lastName|] == ',';
    assert names[|names| - 1] == StudentName(last);
    JoinHasLast(names, "; ", ',');
    var j := Join(names, "; ");
    var k :| 0 <= k < |j| && j[k] == ',';
    assert ListedText(students)[|"Students: "| + k] == ',';
  }

  /** Eligible is empty exactly when no student is selected and allowable. */
  lemma EligibleEmptyIff(students: seq<StudentToDownload>, includeUnsubmitted: bool)
    ensures |Eligible(students, includeUnsubmitted)| == 0
            <==> forall i :: 0 <= i < |students| ==> !Listed(students[i], includeUnsubmitted)
  {
    var e := Eligible(students, includeUnsubmitted);
    EligibleMembers(students, includeUnsubmitted);
    if |e| > 0 {
      assert e[0] in e;
    } else {
      forall i | 0 <= i < |students|
        ensures !Listed(students[i], includeUnsubmitted)
      {
        assert students[i] in students;
      }
    }
  }

  /** The link says "All" exactly when every allowable student is selected. */
  lemma AllIff(students: seq<StudentToDownload>, includeUnsubmitted: bool)
    ensures SummaryDisplay(students, includeUnsubmitted) == AllText(includeUnsubmitted)
            <==> forall i :: 0 <= i < |students| && Allowable(students[i], includeUnsubmitted) ==> students[i].selected
  {
    var e := Eligible(students, includeUnsubmitted);
    assert ',' !in AllText(includeUnsubmitted);
    assert NoneText != AllText(includeUnsubmitted);
    if AnyAllowableUnselected(students, includeUnsubmitted) && |e| > 0 {
      ListedTextHasComma(Take(e, MaxStudentsToDisplayInSelectionLink));
    }
  }

  /**
   * The link says "None" exactly when some allowable student is unselected
   * and no allowable student is selected.
   */
  lemma NoneIff(students: seq<StudentToDownload>, includeUnsubmitted: bool)
    ensures SummaryDisplay(students, includeUnsubmitted) == NoneText
            <==> AnyAllowableUnselected(students, includeUnsubmitted)
                 && forall i :: 0 <= i < |students| ==> !Listed(students[i], includeUnsubmitted)
  {
    var e := Eligible(students, includeUnsubmitted);
    EligibleEmptyIff(students, includeUnsubmitted);
    assert NoneText != AllText(includeUnsubmitted);
    assert ',' !in NoneText;
    if AnyAllowableUnselected(students, includeUnsubmitted) && |e| > 0 {
      ListedTextHasComma(Take(e, MaxStudentsToDisplayInSelectionLink));
    }
  }

  /** A run of students who are all selected and allowable is kept whole and in order. */
  lemma {:induction false} EligibleAllListed(students: seq<StudentToDownload>, includeUnsubmitted: bool)
    requires forall i :: 0 <= i < |students| ==> Listed(students[i], includeUnsubmitted)
    ensures Eligible(students, includeUnsubmitted) == students
    decreases |students|
  {
    if students != [] {
      var init := students[..|students| - 1];
      assert students == init + [students[|students| - 1]];
      EligibleAllListed(init, includeUnsubmitted);
    }
  }

  /**
   * The names shown are those of the first students in list order: when the
   * list opens with `front`, all selected and allowable, the link names the
   * first three of them (or all, when fewer).
   */
  lemma ShowsLeadingListed(front: seq<StudentToDownload>, rest: seq<StudentToDownload>, includeUnsubmitted: bool)
    requires forall i :: 0 <= i < |front| ==> Listed(front[i], includeUnsubmitted)
    requires |front| >= MaxStudentsToDisplayInSelectionLink || Eligible(rest, includeUnsubmitted) == []
    ensures Take(Eligible(front + rest, includeUnsubmitted), MaxStudentsToDisplayInSelectionLink)
            == Take(front, MaxStudentsToDisplayInSelectionLink)
  {
    EligibleConcat(front, rest, includeUnsubmitted);
    EligibleAllListed(front, includeUnsubmitted);
    TakeAppend(front, Eligible(rest, includeUnsubmitted), MaxStudentsToDisplayInSelectionLink);
  }

  /** Taking from a sequence that already has enough elements ignores what follows. */
  lemma TakeAppend<T>(xs: seq<T>, ys: seq<T>, n: nat)
    requires |xs| >= n || ys == []
    ensures Take(xs + ys, n) == Take(xs, n)
  {
    if ys == [] {
      assert xs + ys == xs;
    } else {
      assert (xs + ys)[..n] == xs[..n];
    }
  }

  /** The eligible part of a one-student list. */
  lemma EligibleSingle(s: StudentToDownload, includeUnsubmitted: bool)
    ensures Eligible([s], includeUnsubmitted) == if Listed(s, includeUnsubmitted) then [s] else []
  {
    assert [s][..0] == [];
  }

  /** Removing a student who may not be downloaded keeps the eligible students. */
  lemma UnallowableKeepsEligible(a: seq<StudentToDownload>, s: StudentToDownload, b: seq<StudentToDownload>, includeUnsubmitted: bool)
    requires !Allowable(s, includeUnsubmitted)
    ensures Eligible(a + [s] + b, includeUnsubmitted) == Eligible(a + b, includeUnsubmitted)
  {
    EligibleConcat(a + [s], b, includeUnsubmitted);
    EligibleConcat(a, [s], includeUnsubmitted);
    EligibleConcat(a, b, includeUnsubmitted);
    EligibleSingle(s, includeUnsubmitted);
    assert Eligible(a, includeUnsubmitted) + [] == Eligible(a, includeUnsubmitted);
  }

  /** Removing a student who may not be downloaded keeps the "All" test. */
  lemma UnallowableKeepsAll(a: seq<StudentToDownload>, s: StudentToDownload, b: seq<StudentToDownload>, includeUnsubmitted: bool)
    requires !Allowable(s, includeUnsubmitted)
    ensures AnyAllowableUnselected(a + [s] + b, includeUnsubmitted) == AnyAllowableUnselected(a + b, includeUnsubmitted)
  {
    var xs := a + [s] + b;
    var ys := a + b;
    if AnyAllowableUnselected(xs, includeUnsubmitted) {
      var i :| 0 <= i < |xs| && Allowable(xs[i], includeUnsubmitted) && !xs[i].selected;
      if i < |a| {
        assert ys[i] == xs[i];
      } else {
        assert ys[i - 1] == xs[i];
      }
    }
    if AnyAllowableUnselected(ys, includeUnsubmitted) {
      var i :| 0 <= i < |ys| && Allowable(ys[i], includeUnsubmitted) && !ys[i].selected;
      if i < |a| {
        assert xs[i] == ys[i];
      } else {
        assert xs[i + 1] == ys[i];
      }
    }
  }

  /**
   * A student who may not be downloaded (one who has not submitted, while
   * unsubmitted code is excluded) does not affect the link, selected or not.
   */
  lemma UnallowableIgnored(a: seq<StudentToDownload>, s: StudentToDownload, b: seq<StudentToDownload>, includeUnsubmitted: bool)
    requires !Allowable(s, includeUnsubmitted)
    ensures SummaryDisplay(a + [s] + b, includeUnsubmitted) == SummaryDisplay(a + b, includeUnsubmitted)
    ensures SummaryDisplayCorrected(a + [s] + b, includeUnsubmitted) == SummaryDisplayCorrected(a + b, includeUnsubmitted)
  {
    UnallowableKeepsEligible(a, s, b, includeUnsubmitted);
    UnallowableKeepsAll(a, s, b, includeUnsubmitted);
  }

  /** An allowable student left unselected rules out "All". */
  lemma UnselectedAllowableNotAll(students: seq<StudentToDownload>, i: int, includeUnsubmitted: bool)
    requires 0 <= i < |students| && Allowable(students[i], includeUnsubmitted) && !students[i].selected
    ensures SummaryDisplay(students, includeUnsubmitted) != AllText(includeUnsubmitted)
  {
    AllIff(students, includeUnsubmitted);
  }

  /** The value of a single decimal digit. */
  lemma DigitValue(k: nat)
    requires k < 10
    ensures "0123456789"[k] as int - '0' as int == k
  {
  }

  /** Reading back the decimal text of a number gives the number. */
  lemma {:induction false} NatToStringRoundTrip(n: nat)
    ensures DigitsValue(NatToString(n)) == n
    decreases n
  {
    var digit := ["0123456789"[n % 10]];
    DigitValue(n % 10);
    if n < 10 {
      assert DigitsValue(digit) == DigitsValue([]) * 10 + n % 10;
    } else {
      NatToStringRoundTrip(n / 10);
      var s := NatToString(n / 10) + digit;
      assert s[..|s| - 1] == NatToString(n / 10);
    }
  }

  /**
   * As written, once more than three students are eligible the link names
   * three of them and says nothing of the rest, so it differs from the
   * corrected text.
   */
  lemma AsWrittenOmitsRest(students: seq<StudentToDownload>, includeUnsubmitted: bool)
    requires AnyAllowableUnselected(students, includeUnsubmitted)
    requires |Eligible(students, includeUnsubmitted)| > MaxStudentsToDisplayInSelectionLink
    ensures var e := Eligible(students, includeUnsubmitted);
            SummaryDisplay(students, includeUnsubmitted) == ListedText(e[..MaxStudentsToDisplayInSelectionLink])
    ensures SummaryDisplay(students, includeUnsubmitted) != SummaryDisplayCorrected(students, includeUnsubmitted)
  {
    var e := Eligible(students, includeUnsubmitted);
    assert |MoreSuffix(|e| - MaxStudentsToDisplayInSelectionLink)| > 0;
  }

  /** Four selected students who submitted, and one who did not submit, left unselected. */
  function FourOfFive(): seq<StudentToDownload>
  {
    [ StudentToDownload(true, "Ames", "Ann", true),
      StudentToDownload(true, "Bell", "Bob", true),
      StudentToDownload(true, "Cole", "Cat", true),
      StudentToDownload(true, "Dunn", "Dan", true),
      StudentToDownload(false, "Eddy", "Eve", false) ]
  }

  /** The listing of three students, spelled out. */
  lemma ThreeNames(x: StudentToDownload, y: StudentToDownload, z: StudentToDownload)
    ensures ListedText([x, y, z]) == "Students: " + StudentName(x) + "; " + StudentName(y) + "; " + StudentName(z)
  {
    var names := Names([x, y, z]);
    assert names[..2] == [StudentName(x), StudentName(y)];
    assert names[..2][..1] == [StudentName(x)];
    assert Join(names[..2], "; ") == StudentName(x) + "; " + StudentName(y);
    assert Join(names, "; ") == StudentName(x) + "; " + StudentName(y) + "; " + StudentName(z);
  }

  /** The suffix for one student not named. */
  lemma OneMore()
    ensures MoreSuffix(1) == "; and 1 more"
  {
    assert NatToString(1) == "1";
  }

  /**
   * Four selected, allowable students followed by an allowable student left
   * unselected: the code's text names the first three and stops, where the
   * corrected text counts the fourth.
   */
  lemma FourListedOneUnselected(students: seq<StudentToDownload>, includeUnsubmitted: bool)
    requires |students| == 5
    requires forall i :: 0 <= i < 4 ==> Listed(students[i], includeUnsubmitted)
    requires Allowable(students[4], includeUnsubmitted) && !students[4].selected
    ensures |Eligible(students, includeUnsubmitted)| == 4
    ensures SummaryDisplay(students, includeUnsubmitted) == ListedText(students[..3])
    ensures SummaryDisplayCorrected(students, includeUnsubmitted) == ListedText(students[..3]) + MoreSuffix(1)
  {
    EligibleAllListed(students[..4], includeUnsubmitted);
    EligibleConcat(students[..4], students[4..], includeUnsubmitted);
    assert students[..4] + students[4..] == students;
    assert students[4..] == [students[4]];
    EligibleSingle(students[4], includeUnsubmitted);
    assert Eligible(students, includeUnsubmitted) == students[..4];
    assert students[..4][..3] == students[..3];
  }

  /** The first three names of the concrete input, spelled out. */
  lemma FourOfFiveShown(students: seq<StudentToDownload>)
    requires students == FourOfFive()
    ensures ListedText(students[..3]) == "Students: Ames, Ann; Bell, Bob; Cole, Cat"
  {
    assert students[..3] == [students[0], students[1], students[2]];
    ThreeNames(students[0], students[1], students[2]);
    ThreeNamesText(students[0], students[1], students[2]);
  }

  /** The text for the first three students of the concrete input. */
  lemma ThreeNamesText(x: StudentToDownload, y: StudentToDownload, z: StudentToDownload)
    requires x.lastName == "Ames" && x.firstName == "Ann"
    requires y.lastName == "Bell" && y.firstName == "Bob"
    requires z.lastName == "Cole" && z.firstName == "Cat"
    ensures "Students: " + StudentName(x) + "; " + StudentName(y) + "; " + StudentName(z)
            == "Students: Ames, Ann; Bell, Bob; Cole, Cat"
  {
    NameText(x, "Ames", "Ann", "Ames, Ann");
    NameText(y, "Bell", "Bob", "Bell, Bob");
    NameText(z, "Cole", "Cat", "Cole, Cat");
    FirstTwoText();
  }

  /** The name shown for a student, given its text. */
  lemma NameText(s: StudentToDownload, last: string, first: string, text: string)
    requires s.lastName == last && s.firstName == first
    requires |text| == |last| + 2 + |first|
    requires text[..|last|] == last && text[|last|..|last| + 2] == ", " && text[|last| + 2..] == first
    ensures StudentName(s) == text
  {
  }

  lemma FirstTwoText()
    ensures "Students: " + "Ames, Ann" + "; " + "Bell, Bob" + "; " + "Cole, Cat"
            == "Students: Ames, Ann; Bell, Bob; Cole, Cat"
  {
    assert "Students: " + "Ames, Ann" == "Students: Ames, Ann";
    assert "Students: Ames, Ann" + "; " + "Bell, Bob" == "Students: Ames, Ann; Bell, Bob";
  }

  /**
   * A concrete input: with unsubmitted code included, the fifth student keeps
   * "All" away and four are eligible, but the code's text names only the
   * first three, where the corrected text adds "; and 1 more".
   */
  lemma FourOfFiveOmitsOne(students: seq<StudentToDownload>)
    requires students == FourOfFive()
    ensures SummaryDisplay(students, true) == "Students: Ames, Ann; Bell, Bob; Cole, Cat"
    ensures SummaryDisplayCorrected(students, true) == "Students: Ames, Ann; Bell, Bob; Cole, Cat; and 1 more"
  {
    FourOfFiveShape(students);
    FourListedOneUnselected(students, true);
    FourOfFiveShown(students);
    OneMore();
  }

  /** The concrete input has the shape `FourListedOneUnselected` asks for. */
  lemma FourOfFiveShape(students: seq<StudentToDownload>)
    requires students == FourOfFive()
    ensures |students| == 5
    ensures forall i :: 0 <= i < 4 ==> Listed(students[i], true)
    ensures Allowable(students[4], true) && !students[4].selected
  {
  }

  /**
   * The corrected text accounts for every eligible student: it names the
   * first three (or all, when fewer) and counts exactly the ones not named.
   */
  lemma CorrectedAccountsForEveryone(students: seq<StudentToDownload>, includeUnsubmitted: bool)
    requires AnyAllowableUnselected(students, includeUnsubmitted)
    requires |Eligible(students, includeUnsubmitted)| > 0
    ensures SummaryDisplayCorrected(students, includeUnsubmitted)
            == ListedText(Take(Eligible(students, includeUnsubmitted), MaxStudentsToDisplayInSelectionLink))
               + MoreSuffix(|Eligible(students, includeUnsubmitted)|
                            - |Take(Eligible(students, includeUnsubmitted), MaxStudentsToDisplayInSelectionLink)|)
    ensures |Eligible(students, includeUnsubmitted)| - |Take(Eligible(students, includeUnsubmitted), MaxStudentsToDisplayInSelectionLink)| > 0
            <==> |Eligible(students, includeUnsubmitted)| > MaxStudentsToDisplayInSelectionLink
  {
    var e := Eligible(students, includeUnsubmitted);
    var shown := Take(e, MaxStudentsToDisplayInSelectionLink);
    assert SummaryDisplayCorrected(students, includeUnsubmitted)
           == ListedText(shown) + MoreSuffix(|e| - MaxStudentsToDisplayInSelectionLink);
    SuffixOfUnnamed(|e|, |shown|);
  }

  /** With `shown` the smaller of `total` and three, the suffix for the rest is the same either way. */
  lemma SuffixOfUnnamed(total: nat, shown: nat)
    requires shown == if total < MaxStudentsToDisplayInSelectionLink then total else MaxStudentsToDisplayInSelectionLink
    ensures MoreSuffix(total - MaxStudentsToDisplayInSelectionLink) == MoreSuffix(total - shown)
    ensures total - shown > 0 <==> total > MaxStudentsToDisplayInSelectionLink
  {
  }

  /** The count in the corrected suffix reads back as the number of students not named. */
  lemma MoreSuffixCounts(n: nat)
    requires n > 0
    ensures var t := NatToString(n); MoreSuffix(n) == "; and " + t + " more" && DigitsValue(t) == n
  {
    NatToStringRoundTrip(n);
  }
}
