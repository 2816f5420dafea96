/** How the URI-driven validators read ids out of the request path: they
    compile `prefix(\d+)suffix`, take the first match that `Matcher.find()`
    reports, and hand its group to `Long.parseLong`. */
module PathIds {
  import opened Wrappers
  import opened Text

  const LongMax: int := 0x7FFF_FFFF_FFFF_FFFF

  /** What the extraction gives: no match (the Java variable stays null), the
      id, or a digit run beyond Long.MAX_VALUE, on which Long.parseLong throws
      NumberFormatException. */
  datatype PathId = NoMatch | Id(value: int) | TooLarge(digits: string)

  /** The length of the run of ASCII digits (what `\d` matches) starting at i. */
  function DigitRun(s: string, i: nat): (n: nat)
    requires i <= |s|
    ensures i + n <= |s|
    ensures forall k | i <= k < i + n :: IsDigit(s[k])
    ensures i + n == |s| || !IsDigit(s[i + n])
    decreases |s| - i
  {
    if i < |s| && IsDigit(s[i]) then 1 + DigitRun(s, i + 1) else 0
  }

  /** The pattern matches at position i: the prefix, a run of digits, then the
      suffix. The greedy `\d+` can only stop at the end of the run, because no
      suffix used here starts with a digit. */
  predicate MatchAt(s: string, i: nat, prefix: string, suffix: string) {
    var p := i + |prefix|;
    p <= |s| && s[i..p] == prefix && DigitRun(s, p) > 0 && StartsWith(s[p + DigitRun(s, p)..], suffix)
  }

  /** `Matcher.find()`: the first position, from i on, where the pattern matches. */
  function FindFrom(s: string, i: nat, prefix: string, suffix: string): (r: Option<nat>)
    requires i <= |s|
    ensures r.Some? ==> i <= r.value <= |s| && MatchAt(s, r.value, prefix, suffix)
    ensures r.Some? ==> forall k | i <= k < r.value :: !MatchAt(s, k, prefix, suffix)
    ensures r.None? ==> forall k | i <= k <= |s| :: !MatchAt(s, k, prefix, suffix)
    decreases |s| - i
  {
    if MatchAt(s, i, prefix, suffix) then Some(i)
    else if i == |s| then None
    else FindFrom(s, i + 1, prefix, suffix)
  }

  /** A match at k with none before it is the one `find()` reports. */
  lemma FindFromIs(s: string, i: nat, k: nat, prefix: string, suffix: string)
    requires i <= k <= |s| && MatchAt(s, k, prefix, suffix)
    requires forall j | i <= j < k :: !MatchAt(s, j, prefix, suffix)
    ensures FindFrom(s, i, prefix, suffix) == Some(k)
  {
  }

  /** `m.group(1)` of the first match, or None when `find()` fails. */
  function FirstGroup(s: string, prefix: string, suffix: string): (r: Option<string>)
    ensures r.Some? ==> r.value != [] && AllDigits(r.value)
    ensures r.None? <==> forall k | 0 <= k <= |s| :: !MatchAt(s, k, prefix, suffix)
    ensures r.Some? ==>
              exists i: nat | i <= |s| ::
                MatchAt(s, i, prefix, suffix) &&
                (forall k | 0 <= k < i :: !MatchAt(s, k, prefix, suffix)) &&
                r.value == s[i + |prefix|..i + |prefix| + DigitRun(s, i + |prefix|)]
  {
    match FindFrom(s, 0, prefix, suffix)
    case None => None
    case Some(i) =>
      var p := i + |prefix|;
      Some(s[p..p + DigitRun(s, p)])
  }

  /** Long.parseLong of a non-empty digit run. */
  function ParseLong(ds: string): (r: PathId)
    requires ds != [] && AllDigits(ds)
    ensures r.Id? <==> DigitsValue(ds) <= LongMax
    ensures r.Id? ==> r.value == DigitsValue(ds)
    ensures !r.NoMatch?
  {
    if DigitsValue(ds) <= LongMax then Id(DigitsValue(ds)) else TooLarge(ds)
  }

  function Extract(uri: string, prefix: string, suffix: string): PathId {
    match FirstGroup(uri, prefix, suffix)
    case None => NoMatch
    case Some(ds) => ParseLong(ds)
  }

  /** `/modules/(\d+)/lessons`, the module of a lesson request. */
  function ModuleIdOfLessonPath(uri: string): PathId {
    Extract(uri, "/modules/", "/lessons")
  }

  /** `/lessons/(\d+)`, the lesson being updated. */
  function LessonIdOfPath(uri: string): PathId {
    Extract(uri, "/lessons/", "")
  }

  /** `/courses/(\d+)/modules`, the course of a module request. */
  function CourseIdOfModulePath(uri: string): PathId {
    Extract(uri, "/courses/", "/modules")
  }

  /** `/modules/(\d+)`, the module being updated. */
  function ModuleIdOfPath(uri: string): PathId {
    Extract(uri, "/modules/", "")
  }

  /** `/enrollments/(\d+)`, the enrollment of a progress request. */
  function EnrollmentIdOfPath(uri: string): PathId {
    Extract(uri, "/enrollments/", "")
  }

  /** The digit run after a prefix ends where the digits of `ds` end. */
  lemma {:induction false} DigitRunOver(s: string, p: nat, ds: string)
    requires p + |ds| <= |s| && s[p..p + |ds|] == ds && AllDigits(ds)
    requires p + |ds| == |s| || !IsDigit(s[p + |ds|])
    ensures DigitRun(s, p) == |ds|
    decreases |ds|
  {
    if ds != [] {
      assert s[p] == ds[0];
      assert s[p + 1..p + 1 + |ds[1..]|] == ds[1..];
      DigitRunOver(s, p + 1, ds[1..]);
    }
  }

  /** A position where some character of the prefix is not there is no match. */
  lemma MismatchAt(s: string, j: nat, prefix: string, suffix: string, d: nat)
    requires d < |prefix|
    requires j + |prefix| > |s| || s[j + d] != prefix[d]
    ensures !MatchAt(s, j, prefix, suffix)
  {
    if j + |prefix| <= |s| {
      assert s[j..j + |prefix|][d] == s[j + d];
    }
  }

  /** The id rendered right after the prefix is read back, provided what
      follows it starts with the suffix and no earlier position matches. */
  lemma ReadsBack(pre: string, prefix: string, n: nat, rest: string, suffix: string)
    requires n <= LongMax
    requires StartsWith(rest, suffix)
    requires rest == [] || !IsDigit(rest[0])
    requires forall j | 0 <= j < |pre| :: !MatchAt(pre + prefix + NatToString(n) + rest, j, prefix, suffix)
    ensures Extract(pre + prefix + NatToString(n) + rest, prefix, suffix) == Id(n)
  {
    var ds := NatToString(n);
    var s := pre + prefix + ds + rest;
    var k, p := |pre|, |pre| + |prefix|;
    assert s[k..p] == prefix;
    assert s[p..p + |ds|] == ds;
    assert s[p + |ds|..] == rest;
    if rest != [] {
      assert s[p + |ds|] == rest[0];
    }
    DigitRunOver(s, p, ds);
    assert MatchAt(s, k, prefix, suffix);
    FindFromIs(s, 0, k, prefix, suffix);
    DigitsValueOfNatToString(n);
  }

  /** Inside `/modules/{digits}` no `/` is followed by an `l`. */
  lemma NoLessonsInside(M: string, tail: string, j: nat)
    requires AllDigits(M) && M != []
    requires j < 9 + |M|
    ensures !MatchAt("/modules/" + M + tail, j, "/lessons/", "")
  {
    var s := "/modules/" + M + tail;
    if j == 0 || j == 8 {
      assert s[j + 1] != 'l' by {
        if j == 8 { assert s[9] == M[0]; }
      }
      MismatchAt(s, j, "/lessons/", "", 1);
    } else if j < 9 {
      assert s[j] == "/modules/"[j];
      MismatchAt(s, j, "/lessons/", "", 0);
    } else {
      assert s[j] == M[j - 9];
      MismatchAt(s, j, "/lessons/", "", 0);
    }
  }

  lemma ModuleOfLessonUri(m: nat, rest: string)
    requires m <= LongMax && StartsWith(rest, "/lessons")
    ensures ModuleIdOfLessonPath("/modules/" + NatToString(m) + rest) == Id(m)
  {
    assert "/modules/" + NatToString(m) + rest == [] + "/modules/" + NatToString(m) + rest;
    ReadsBack([], "/modules/", m, rest, "/lessons");
  }

  lemma LessonOfLessonUri(M: string, l: nat)
    requires AllDigits(M) && M != [] && l <= LongMax
    ensures LessonIdOfPath("/modules/" + M + "/lessons/" + NatToString(l)) == Id(l)
  {
    var L := NatToString(l);
    var uri := "/modules/" + M + "/lessons/" + L;
    forall j | 0 <= j < |"/modules/" + M| ensures !MatchAt(uri, j, "/lessons/", "") {
      NoLessonsInside(M, "/lessons/" + L, j);
      assert uri == "/modules/" + M + ("/lessons/" + L);
    }
    assert uri == ("/modules/" + M) + "/lessons/" + L + [];
    ReadsBack("/modules/" + M, "/lessons/", l, [], "");
  }

  /** The URI of one lesson, `/modules/{moduleId}/lessons/{lessonId}`, yields
      both ids. */
  lemma LessonPathIds(m: nat, l: nat)
    requires m <= LongMax && l <= LongMax
    ensures var uri := "/modules/" + NatToString(m) + "/lessons/" + NatToString(l);
            ModuleIdOfLessonPath(uri) == Id(m) && LessonIdOfPath(uri) == Id(l)
  {
    var M, L := NatToString(m), NatToString(l);
    ModuleOfLessonUri(m, "/lessons/" + L);
    assert "/modules/" + M + ("/lessons/" + L) == "/modules/" + M + "/lessons/" + L;
    LessonOfLessonUri(M, l);
  }

  /** The URI of the lessons of a module, `/modules/{moduleId}/lessons`, yields
      the module and no lesson: the create case. */
  lemma LessonCollectionPathIds(m: nat)
    requires m <= LongMax
    ensures var uri := "/modules/" + NatToString(m) + "/lessons";
            ModuleIdOfLessonPath(uri) == Id(m) && LessonIdOfPath(uri) == NoMatch
  {
    var M := NatToString(m);
    var uri := "/modules/" + M + "/lessons";
    ModuleOfLessonUri(m, "/lessons");
    forall j | 0 <= j <= |uri| ensures !MatchAt(uri, j, "/lessons/", "") {
      if j < 9 + |M| {
        NoLessonsInside(M, "/lessons", j);
      } else {
        MismatchAt(uri, j, "/lessons/", "", 0);
      }
    }
  }

  /** Inside `/courses/{digits}` no `/` is followed by an `m`. */
  lemma NoModulesInside(C: string, tail: string, j: nat)
    requires AllDigits(C) && C != []
    requires j < 9 + |C|
    ensures !MatchAt("/courses/" + C + tail, j, "/modules/", "")
  {
    var s := "/courses/" + C + tail;
    if j == 0 || j == 8 {
      assert s[j + 1] != 'm' by {
        if j == 8 { assert s[9] == C[0]; }
      }
      MismatchAt(s, j, "/modules/", "", 1);
    } else if j < 9 {
      assert s[j] == "/courses/"[j];
      MismatchAt(s, j, "/modules/", "", 0);
    } else {
      assert s[j] == C[j - 9];
      MismatchAt(s, j, "/modules/", "", 0);
    }
  }

  lemma CourseOfModuleUri(c: nat, rest: string)
    requires c <= LongMax && StartsWith(rest, "/modules")
    ensures CourseIdOfModulePath("/courses/" + NatToString(c) + rest) == Id(c)
  {
    assert "/courses/" + NatToString(c) + rest == [] + "/courses/" + NatToString(c) + rest;
    ReadsBack([], "/courses/", c, rest, "/modules");
  }

  lemma ModuleOfModuleUri(C: string, m: nat)
    requires AllDigits(C) && C != [] && m <= LongMax
    ensures ModuleIdOfPath("/courses/" + C + "/modules/" + NatToString(m)) == Id(m)
  {
    var M := NatToString(m);
    var uri := "/courses/" + C + "/modules/" + M;
    forall j | 0 <= j < |"/courses/" + C| ensures !MatchAt(uri, j, "/modules/", "") {
      NoModulesInside(C, "/modules/" + M, j);
      assert uri == "/courses/" + C + ("/modules/" + M);
    }
    assert uri == ("/courses/" + C) + "/modules/" + M + [];
    ReadsBack("/courses/" + C, "/modules/", m, [], "");
  }

  /** The URI of one module, `/courses/{courseId}/modules/{moduleId}`, yields
      both ids. */
  lemma ModulePathIds(c: nat, m: nat)
    requires c <= LongMax && m <= LongMax
    ensures var uri := "/courses/" + NatToString(c) + "/modules/" + NatToString(m);
            CourseIdOfModulePath(uri) == Id(c) && ModuleIdOfPath(uri) == Id(m)
  {
    var C, M := NatToString(c), NatToString(m);
    CourseOfModuleUri(c, "/modules/" + M);
    assert "/courses/" + C + ("/modules/" + M) == "/courses/" + C + "/modules/" + M;
    ModuleOfModuleUri(C, m);
  }

  /** The URI of the modules of a course, `/courses/{courseId}/modules`, yields
      the course and no module: the create case. */
  lemma ModuleCollectionPathIds(c: nat)
    requires c <= LongMax
    ensures var uri := "/courses/" + NatToString(c) + "/modules";
            CourseIdOfModulePath(uri) == Id(c) && ModuleIdOfPath(uri) == NoMatch
  {
    var C := NatToString(c);
    var uri := "/courses/" + C + "/modules";
    CourseOfModuleUri(c, "/modules");
    forall j | 0 <= j <= |uri| ensures !MatchAt(uri, j, "/modules/", "") {
      if j < 9 + |C| {
        NoModulesInside(C, "/modules", j);
      } else {
        MismatchAt(uri, j, "/modules/", "", 0);
      }
    }
  }

  /** The progress URI `/enrollments/{enrollmentId}/progress` yields the
      enrollment. */
  lemma EnrollmentPathId(e: nat)
    requires e <= LongMax
    ensures EnrollmentIdOfPath("/enrollments/" + NatToString(e) + "/progress") == Id(e)
  {
    var E := NatToString(e);
    assert "/enrollments/" + E + "/progress" == [] + "/enrollments/" + E + "/progress";
    ReadsBack([], "/enrollments/", e, "/progress", "");
  }
}
