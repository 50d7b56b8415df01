/**
 * `PhpSandbox::preparePhpCode`: turns a caller's snippet into a runnable PHP
 * script by making sure it has a `<?php` open tag, optionally splicing the
 * error-reporting directive in right after that tag, and optionally splicing
 * the self-delete ("harakiri") directive in before the first `?>`.
 */
module CodePreparer {
  import opened Wrappers
  import opened PhpStrings

  const OpenTag: string := "<?php"
  const CloseTag: string := "?>"

  /**
   * `PhpSandbox::CODE_SNIPPET_ERROR_REPORTING`, written as its two statements
   * so that facts about its characters can be proved one statement at a time.
   */
  const ErrorReporting: string := DisplayErrors + ReportAll
  const DisplayErrors: string := "ini_set('display_errors', '1');"
  const ReportAll: string := " error_reporting(E_ALL);"

  /** `PhpSandbox::CODE_SNIPPET_HARAKIRI` */
  const Harakiri: string := "unlink(__FILE__);"

  /** The first step of `preparePhpCode`: add or normalise the open tag. */
  function AddOpenTag(code: string, errorReporting: bool): string
  {
    var err := if errorReporting then ErrorReporting else "";
    match IndexOf(code, OpenTag)
    case None =>
      OpenTag + " " + (if err != "" then Trim(err) + " " else "") + Trim(code)
    case Some(p) =>
      var pos := p + 5;
      Trim(code[..pos]) + (if errorReporting then " " + ErrorReporting + " " else " ") + Trim(code[pos..])
  }

  /** The second step of `preparePhpCode`: splice in the self-delete directive. */
  function AddHarakiri(code: string): string
  {
    match IndexOf(code, CloseTag)
    case Some(pos) => Trim(code[..pos]) + " " + Harakiri + " " + Trim(code[pos..])
    case None => Trim(code) + " " + Harakiri
  }

  /** `PhpSandbox::preparePhpCode($code, $error_reporting, $harakiri)`. */
  function PreparePhpCode(code: string, errorReporting: bool, harakiri: bool): string
  {
    var tagged := AddOpenTag(code, errorReporting);
    if harakiri then AddHarakiri(tagged) else tagged
  }

  // ---------------------------------------------------------------------------
  // The two halves of the snippet around the splice point of the first step.

  /** The snippet up to and including its first open tag; the tag alone when it has none. */
  function TagHead(code: string): string {
    match IndexOf(code, OpenTag)
    case None => OpenTag
    case Some(p) => code[..p + |OpenTag|]
  }

  /** The snippet after its first open tag; all of it when it has none. */
  function TagTail(code: string): string {
    match IndexOf(code, OpenTag)
    case None => code
    case Some(p) => code[p + |OpenTag|..]
  }

  /** What the first step puts between the two trimmed halves. */
  function Directive(errorReporting: bool): string {
    if errorReporting then " " + ErrorReporting + " " else " "
  }

  // ---------------------------------------------------------------------------
  // Facts about the constants, proved once so that nothing below looks inside them.

  lemma OpenTagEnds()
    ensures |OpenTag| == 5 && !IsWs(OpenTag[0]) && !IsWs(OpenTag[4])
  {
  }

  lemma OpenTagChars()
    ensures OpenTag[0] == '<' && OpenTag[1] == '?' && OpenTag[2] == 'p' && ' ' !in OpenTag
  {
  }

  lemma OpenTagIsTrimmed()
    ensures Trim(OpenTag) == OpenTag
  {
    OpenTagEnds();
    TrimNoop(OpenTag);
  }

  lemma CloseTagFacts()
    ensures |CloseTag| == 2 && CloseTag[0] == '?' && CloseTag[1] == '>' && ' ' !in CloseTag
  {
  }

  lemma DisplayErrorsFacts()
    ensures '<' !in DisplayErrors && '?' !in DisplayErrors && DisplayErrors != [] && DisplayErrors[0] == 'i'
  {
  }

  lemma ReportAllFacts()
    ensures '<' !in ReportAll && '?' !in ReportAll && ReportAll != [] && ReportAll[|ReportAll| - 1] == ';'
  {
  }

  lemma ErrorReportingFacts()
    ensures |ErrorReporting| > 0 && '<' !in ErrorReporting && '?' !in ErrorReporting
    ensures Trim(ErrorReporting) == ErrorReporting
  {
    DisplayErrorsFacts();
    ReportAllFacts();
    EndsOfConcat(DisplayErrors, ReportAll);
    TrimNoop(ErrorReporting);
  }

  /** The first character of `a + b` is `a`'s, the last is `b`'s. */
  lemma EndsOfConcat(a: string, b: string)
    requires |a| > 0 && |b| > 0
    ensures (a + b)[0] == a[0] && (a + b)[|a + b| - 1] == b[|b| - 1]
  {
  }

  lemma HarakiriFacts()
    ensures |Harakiri| > 0 && '<' !in Harakiri && '?' !in Harakiri
  {
  }

  /** The open tag holds no close tag: its `?` is followed by `p`. */
  lemma OpenTagHasNoCloseTag()
    ensures !Contains(OpenTag, CloseTag)
  {
    OpenTagEnds();
    OpenTagChars();
    forall k | OccursAt(OpenTag, CloseTag, k) ensures false {
      OccurrenceChars(OpenTag, CloseTag, k);
    }
  }

  /** What either step puts around the snippet is padded with spaces and holds no tag character. */
  lemma DirectiveFacts(errorReporting: bool)
    ensures var d := Directive(errorReporting);
      |d| > 0 && d[0] == ' ' && d[|d| - 1] == ' ' && '<' !in d && '?' !in d
    ensures var x := " " + Harakiri + " ";
      x[0] == ' ' && x[|x| - 1] == ' ' && '<' !in x && '?' !in x
  {
    ErrorReportingFacts();
    HarakiriFacts();
  }

  /** The two ways the source writes "`a`, space, `e`, space, `t`" are the same string. */
  lemma Regroup(a: string, e: string, t: string)
    ensures a + " " + (e + " ") + t == a + (" " + e + " ") + t
    ensures a + " " + e + " " + t == a + (" " + e + " ") + t
  {
  }

  /** The middle part of a three-part concatenation. */
  lemma MiddleOf(a: string, x: string, t: string)
    ensures (a + x + t)[|a|..|a| + |x|] == x
    ensures (a + x + t)[..|a|] == a && (a + x + t)[|a|..] == x + t
  {
  }

  /** A slice across the first two parts of a three-part concatenation. */
  lemma SliceAcross(a: string, d: string, b: string, t: int)
    requires 0 <= t <= |a|
    ensures (a + d + b)[t..|a| + |d|] == a[t..] + d
  {
  }

  /** A pattern is absent when the character it starts with is. */
  lemma AbsentWithoutFirstChar(s: string, pat: string)
    requires |pat| > 0 && pat[0] !in s
    ensures !Contains(s, pat)
  {
    forall k | OccursAt(s, pat, k) ensures false {
      OccurrenceChars(s, pat, k);
    }
  }

  // ---------------------------------------------------------------------------
  // The first step as one splice.

  /** Both branches of the first step are the same splice of head and tail. */
  lemma AddOpenTagSplices(code: string, errorReporting: bool)
    ensures AddOpenTag(code, errorReporting) == Trim(TagHead(code)) + Directive(errorReporting) + Trim(TagTail(code))
  {
    match IndexOf(code, OpenTag)
    case None =>
      OpenTagIsTrimmed();
      ErrorReportingFacts();
      Regroup(OpenTag, ErrorReporting, Trim(code));
    case Some(p) =>
  }

  /** Head and tail put back together are the snippet with its open tag ensured. */
  lemma TagHeadTail(code: string)
    ensures TagHead(code) + TagTail(code) == if Contains(code, OpenTag) then code else OpenTag + code
  {
    match IndexOf(code, OpenTag)
    case None =>
    case Some(p) => assert code == code[..p + 5] + code[p + 5..];
  }

  /** Trimming the text up to the first open tag cuts the snippet's leading whitespace and nothing else. */
  lemma TrimmedUpToTag(code: string, p: nat)
    requires IndexOf(code, OpenTag) == Some(p)
    ensures LeadingWs(code) <= p
    ensures Trim(code[..p + |OpenTag|]) == code[LeadingWs(code)..p + |OpenTag|]
  {
    OpenTagEnds();
    FirstOccurrenceEnds(code, OpenTag, p);
    TrimPrefixToNonWs(code, p, p + 5);
  }

  /** The trimmed head ends with the first open tag, holds no earlier one, and is already trimmed. */
  lemma HeadShape(code: string)
    ensures var a := Trim(TagHead(code));
      |a| >= |OpenTag| && IndexOf(a, OpenTag) == Some(|a| - |OpenTag|) && Trim(a) == a
  {
    match IndexOf(code, OpenTag)
    case None =>
      OpenTagEnds();
      OpenTagIsTrimmed();
      IndexOfSelf(OpenTag);
    case Some(p) =>
      assert TagHead(code) == code[..p + 5];
      TaggedHeadShape(code, p);
  }

  lemma TaggedHeadShape(code: string, p: nat)
    requires IndexOf(code, OpenTag) == Some(p)
    ensures var a := Trim(code[..p + |OpenTag|]);
      |a| >= |OpenTag| && IndexOf(a, OpenTag) == Some(|a| - |OpenTag|) && Trim(a) == a
  {
    TrimmedUpToTag(code, p);
    TrimmedThroughFirst(code, OpenTag, p, LeadingWs(code));
  }

  /** In the result of the first step, the first open tag is the one that ends the trimmed head. */
  lemma FirstTagOf(code: string, errorReporting: bool)
    ensures IndexOf(AddOpenTag(code, errorReporting), OpenTag) == Some(|Trim(TagHead(code))| - |OpenTag|)
  {
    AddOpenTagSplices(code, errorReporting);
    HeadShape(code);
    IndexOfInPrefix(Trim(TagHead(code)), Directive(errorReporting), Trim(TagTail(code)), OpenTag);
  }

  // ---------------------------------------------------------------------------
  // Properties of the first step.

  /** With no open tag, the tag is prepended, followed by the directive when requested and the trimmed snippet. */
  lemma AddsMissingOpenTag(code: string, errorReporting: bool)
    requires !Contains(code, OpenTag)
    ensures PreparePhpCode(code, errorReporting, false) == OpenTag + Directive(errorReporting) + Trim(code)
  {
    AddOpenTagSplices(code, errorReporting);
    OpenTagIsTrimmed();
  }

  /**
   * With an open tag first found at `p`, the text from the first
   * non-whitespace character up to and including that tag is kept verbatim,
   * and the rest follows the directive, trimmed.
   */
  lemma KeepsExistingOpenTag(code: string, errorReporting: bool, p: nat)
    requires IndexOf(code, OpenTag) == Some(p)
    ensures LeadingWs(code) <= p
    ensures PreparePhpCode(code, errorReporting, false) ==
      code[LeadingWs(code)..p + |OpenTag|] + Directive(errorReporting) + Trim(code[p + |OpenTag|..])
  {
    assert TagHead(code) == code[..p + 5] && TagTail(code) == code[p + 5..];
    TrimmedUpToTag(code, p);
    AddOpenTagSplices(code, errorReporting);
  }

  /** With error reporting on, the directive follows the first open tag with exactly one space on each side. */
  lemma ErrorReportingFollowsTag(code: string)
    ensures var r := PreparePhpCode(code, true, false);
      var t := IndexOf(r, OpenTag);
      t.Some? && t.value + |OpenTag| + |Directive(true)| <= |r| &&
      r[t.value..t.value + |OpenTag| + |Directive(true)|] == OpenTag + Directive(true) &&
      (t.value + |OpenTag| + |Directive(true)| < |r| ==> !IsWs(r[t.value + |OpenTag| + |Directive(true)|]))
  {
    FirstTagOf(code, true);
    AddOpenTagSplices(code, true);
    HeadShape(code);
    var a, d, b := Trim(TagHead(code)), Directive(true), Trim(TagTail(code));
    var t := |a| - |OpenTag|;
    assert a[t..] == OpenTag;
    SliceAcross(a, d, b, t);
    TrimBounds(TagTail(code));
    if |a| + |d| < |a + d + b| {
      assert (a + d + b)[|a| + |d|] == b[0];
    }
  }

  /** Apart from whitespace, the first step only adds the missing tag and, when requested, the directive after it. */
  lemma AddOpenTagChangesOnlyLayout(code: string, errorReporting: bool)
    ensures !errorReporting ==>
      Squeeze(PreparePhpCode(code, false, false)) == Squeeze(TagHead(code) + TagTail(code))
    ensures errorReporting ==>
      Squeeze(PreparePhpCode(code, true, false)) == Squeeze(TagHead(code) + ErrorReporting + TagTail(code))
  {
    var a, b := TagHead(code), TagTail(code);
    AddOpenTagSplices(code, errorReporting);
    if errorReporting {
      SplicedLayout(a, ErrorReporting, b);
    } else {
      SqueezeTrimmedJoin(a, b);
    }
  }

  lemma SplicedLayout(a: string, e: string, b: string)
    ensures Squeeze(Trim(a) + (" " + e + " ") + Trim(b)) == Squeeze(a + e + b)
  {
    Regroup(Trim(a), e, Trim(b));
    SqueezeTrimmedSplice(a, e, b);
  }

  /** With both flags off the snippet is unchanged up to whitespace, except that a missing open tag is added. */
  lemma UnchangedModuloLayout(code: string)
    ensures Squeeze(PreparePhpCode(code, false, false)) ==
      Squeeze(if Contains(code, OpenTag) then code else OpenTag + code)
  {
    AddOpenTagChangesOnlyLayout(code, false);
    TagHeadTail(code);
  }

  /** With both flags off, preparing a prepared script changes nothing. */
  lemma PrepareIdempotent(code: string)
    ensures PreparePhpCode(PreparePhpCode(code, false, false), false, false) == PreparePhpCode(code, false, false)
  {
    var r := AddOpenTag(code, false);
    var a, b := Trim(TagHead(code)), Trim(TagTail(code));
    AddOpenTagSplices(code, false);
    FirstTagOf(code, false);
    HeadShape(code);
    MiddleOf(a, " ", b);
    assert TagHead(r) == a && TagTail(r) == " " + b;
    AddOpenTagSplices(r, false);
    TrimDropsLeadingWs(" ", b);
    TrimIdempotent(TagTail(code));
  }

  // ---------------------------------------------------------------------------
  // Properties of the second step.

  /** Without a close tag the self-delete directive ends the script, and no close tag appears. */
  lemma HarakiriAppended(code: string)
    requires !Contains(code, CloseTag)
    ensures var r := AddHarakiri(code);
      !Contains(r, CloseTag) && r == Trim(code) + " " + Harakiri &&
      r[|r| - |Harakiri|..] == Harakiri
  {
    CloseTagFacts();
    HarakiriFacts();
    TrimAddsNoOccurrence(code, CloseTag);
    NoOccurrenceAfterGap(Trim(code), " " + Harakiri, CloseTag);
    assert Trim(code) + " " + Harakiri == Trim(code) + (" " + Harakiri);
  }

  /**
   * With a close tag first found at `q`, the self-delete directive lands
   * immediately before the first close tag of the result, with one space on
   * each side, and the text before `q` keeps everything but its outer whitespace.
   */
  lemma HarakiriBeforeCloseTag(code: string, q: nat)
    requires IndexOf(code, CloseTag) == Some(q)
    ensures var r := AddHarakiri(code);
      var x := " " + Harakiri + " ";
      var t := |Trim(code[..q])| + |x|;
      IndexOf(r, CloseTag) == Some(t) && r[..t] == Trim(code[..q]) + x
  {
    CloseTagFacts();
    DirectiveFacts(false);
    var p, x, tail := Trim(code[..q]), " " + Harakiri + " ", Trim(code[q..]);
    Regroup(p, Harakiri, tail);
    forall k | 0 <= k <= q ensures !OccursAt(code[..q], CloseTag, k) {
      OccursInSlice(code, 0, q, CloseTag, k);
    }
    TrimAddsNoOccurrence(code[..q], CloseTag);
    OccursInSlice(code, q, |code|, CloseTag, 0);
    TrimKeepsLeadingCloseTag(code[q..]);
    FirstOccurrenceAfterGap(p, x, tail, CloseTag);
    MiddleOf(p + x, tail, []);
  }

  /** A close tag starts with non-whitespace, so the trimmed text still starts with it. */
  lemma TrimKeepsLeadingCloseTag(s: string)
    requires OccursAt(s, CloseTag, 0)
    ensures OccursAt(Trim(s), CloseTag, 0)
  {
    CloseTagFacts();
    OccurrenceChars(s, CloseTag, 0);
    TrimWithinNonWs(s, 0, 1);
    SliceOfSlice(s, 0, TrimEnd(s), 0, 2);
  }

  /** An open tag and a close tag never overlap: `<` is not `>` and `?` is followed by `p`. */
  lemma TagsDoNotOverlap(s: string, k: int, q: int)
    requires OccursAt(s, OpenTag, k) && OccursAt(s, CloseTag, q)
    ensures k + |OpenTag| <= q || q + |CloseTag| <= k
  {
    OpenTagEnds();
    OpenTagChars();
    CloseTagFacts();
    OccurrenceChars(s, OpenTag, k);
    OccurrenceChars(s, CloseTag, q);
  }

  /** The second step keeps an open tag, on whichever side of the splice point it lies. */
  lemma HarakiriKeepsOpenTag(code: string)
    requires Contains(code, OpenTag)
    ensures Contains(AddHarakiri(code), OpenTag)
  {
    OpenTagEnds();
    var k :| 0 <= k <= |code| && OccursAt(code, OpenTag, k);
    match IndexOf(code, CloseTag)
    case None =>
      TrimKeepsOccurrence(code, OpenTag, k);
      ContainsInSplice(Trim(code), Harakiri, [], OpenTag);
    case Some(q) =>
      TagsDoNotOverlap(code, k, q);
      TrimSideKeeps(code, q, OpenTag, k);
      ContainsInSplice(Trim(code[..q]), Harakiri, Trim(code[q..]), OpenTag);
  }

  /** Apart from whitespace, the second step only inserts the directive at the first close tag, or at the end. */
  lemma HarakiriChangesOnlyLayout(code: string)
    ensures IndexOf(code, CloseTag).None? ==> Squeeze(AddHarakiri(code)) == Squeeze(code + Harakiri)
    ensures IndexOf(code, CloseTag).Some? ==>
      var q := IndexOf(code, CloseTag).value;
      Squeeze(AddHarakiri(code)) == Squeeze(code[..q] + Harakiri + code[q..])
  {
    match IndexOf(code, CloseTag)
    case None =>
      SqueezeTrimmedAppend(code, Harakiri);
    case Some(q) =>
      SqueezeTrimmedSplice(code[..q], Harakiri, code[q..]);
  }

  /** The directive sits right after the text before the splice point and a space. */
  lemma DirectiveAfterSpace(p: string, t: string)
    ensures OccursAt(p + " " + Harakiri + t, Harakiri, |p| + 1)
  {
    var r := p + " " + Harakiri + t;
    assert r[|p| + 1..|p| + 1 + |Harakiri|] == Harakiri;
  }

  /** The directive sits between two spaces, right after the text before the splice point. */
  lemma DirectiveBetweenSpaces(p: string, t: string)
    ensures OccursAt(p + " " + Harakiri + " " + t, Harakiri, |p| + 1)
  {
    var r := p + " " + Harakiri + " " + t;
    assert r[|p| + 1..|p| + 1 + |Harakiri|] == Harakiri;
  }

  /**
   * The self-delete directive is in the script, and ends before the script's
   * first close tag when it has one.
   */
  lemma SelfDeleteBeforeCloseTag(code: string)
    ensures var r := AddHarakiri(code);
      exists k :: OccursAt(r, Harakiri, k) &&
        (IndexOf(r, CloseTag).Some? ==> k + |Harakiri| < IndexOf(r, CloseTag).value)
  {
    match IndexOf(code, CloseTag)
    case None =>
      DirectiveWhenAppended(code);
      assert OccursAt(AddHarakiri(code), Harakiri, |Trim(code)| + 1);
    case Some(q) =>
      DirectiveWhenSpliced(code, q);
      assert OccursAt(AddHarakiri(code), Harakiri, |Trim(code[..q])| + 1);
  }

  /** Without a close tag, the directive ends the script and no close tag appears. */
  lemma DirectiveWhenAppended(code: string)
    requires IndexOf(code, CloseTag).None?
    ensures var r := AddHarakiri(code);
      OccursAt(r, Harakiri, |Trim(code)| + 1) && IndexOf(r, CloseTag).None?
  {
    var r := AddHarakiri(code);
    HarakiriAppended(code);
    DirectiveAfterSpace(Trim(code), []);
    assert Trim(code) + " " + Harakiri + [] == r;
  }

  /** With a close tag, the directive is spliced in one space before it. */
  lemma DirectiveWhenSpliced(code: string, q: nat)
    requires IndexOf(code, CloseTag) == Some(q)
    ensures var r := AddHarakiri(code);
      var k := |Trim(code[..q])| + 1;
      OccursAt(r, Harakiri, k) && IndexOf(r, CloseTag) == Some(k + |Harakiri| + 1)
  {
    HarakiriBeforeCloseTag(code, q);
    DirectiveBetweenSpaces(Trim(code[..q]), Trim(code[q..]));
  }

  // ---------------------------------------------------------------------------
  // Both steps together.

  /** Every prepared script holds an open tag. */
  lemma PreparedHasOpenTag(code: string, errorReporting: bool, harakiri: bool)
    ensures Contains(PreparePhpCode(code, errorReporting, harakiri), OpenTag)
  {
    FirstTagOf(code, errorReporting);
    if harakiri {
      HarakiriKeepsOpenTag(AddOpenTag(code, errorReporting));
    }
  }

  // ---------------------------------------------------------------------------
  // The snippet shapes callers pass: a bare statement, the same statement
  // after an open tag, and the same statement between an open and a close tag.

  /** A statement with no tag characters and no outer whitespace. */
  predicate PlainStatement(b: string) {
    b != [] && !IsWs(b[0]) && !IsWs(b[|b| - 1]) && '<' !in b && '?' !in b
  }

  /** A bare statement gets the open tag, then the directive. */
  lemma FirstStepOnBare(b: string, errorReporting: bool)
    requires PlainStatement(b)
    ensures AddOpenTag(b, errorReporting) == OpenTag + Directive(errorReporting) + b
  {
    OpenTagChars();
    AbsentWithoutFirstChar(b, OpenTag);
    AddsMissingOpenTag(b, errorReporting);
    TrimNoop(b);
  }

  /** A snippet that starts with the open tag keeps it and gets the directive before the trimmed rest. */
  lemma FirstStepAfterLeadingTag(r: string, errorReporting: bool)
    ensures AddOpenTag(OpenTag + r, errorReporting) == OpenTag + Directive(errorReporting) + Trim(r)
  {
    var code := OpenTag + r;
    MiddleOf(OpenTag, r, []);
    IndexOfIs(code, OpenTag, 0);
    KeepsExistingOpenTag(code, errorReporting, 0);
  }

  /** A space and then a statement trims to the statement. */
  lemma TrimSpacedStatement(b: string)
    requires PlainStatement(b)
    ensures Trim(" " + b) == b
  {
    TrimDropsLeadingWs(" ", b);
    TrimNoop(b);
  }

  /** A space, a statement, a space and a close tag trims to all but the first space. */
  lemma TrimSpacedClosed(b: string)
    requires PlainStatement(b)
    ensures Trim(" " + (b + " " + CloseTag)) == b + " " + CloseTag
  {
    var t := b + " " + CloseTag;
    TrimDropsLeadingWs(" ", t);
    CloseTagFacts();
    assert t[0] == b[0] && t[|t| - 1] == '>';
    TrimNoop(t);
  }

  /** A statement after an open tag and a space comes out as if the tag had been missing. */
  lemma FirstStepOnTagged(b: string, errorReporting: bool)
    requires PlainStatement(b)
    ensures AddOpenTag(OpenTag + " " + b, errorReporting) == OpenTag + Directive(errorReporting) + b
  {
    assert OpenTag + " " + b == OpenTag + (" " + b);
    FirstStepAfterLeadingTag(" " + b, errorReporting);
    TrimSpacedStatement(b);
  }

  /** A statement between an open tag and a close tag keeps both, one space from each. */
  lemma FirstStepOnClosed(b: string, errorReporting: bool)
    requires PlainStatement(b)
    ensures AddOpenTag(OpenTag + " " + b + " " + CloseTag, errorReporting) ==
      OpenTag + Directive(errorReporting) + b + " " + CloseTag
  {
    var t := b + " " + CloseTag;
    SpacedGroups(OpenTag, b, CloseTag);
    FirstStepAfterLeadingTag(" " + t, errorReporting);
    TrimSpacedClosed(b);
    TailGroups(OpenTag, Directive(errorReporting), b, CloseTag);
  }

  lemma SpacedGroups(a: string, b: string, c: string)
    ensures a + " " + b + " " + c == a + (" " + (b + " " + c))
  {
  }

  lemma TailGroups(a: string, d: string, b: string, c: string)
    ensures a + d + (b + " " + c) == a + d + b + " " + c
  {
  }

  /** The tag, a space and a statement: trimmed, and free of close tags. */
  lemma TaggedStatementFacts(b: string)
    requires PlainStatement(b)
    ensures var p := OpenTag + " " + b;
      p != [] && !IsWs(p[0]) && !IsWs(p[|p| - 1]) && !Contains(p, CloseTag)
  {
    OpenTagEnds();
    CloseTagFacts();
    OpenTagHasNoCloseTag();
    assert OpenTag + " " + b == OpenTag + (" " + b);
    NoOccurrenceAfterGap(OpenTag, " " + b, CloseTag);
  }

  /** Without a close tag, the self-delete directive is appended after one space. */
  lemma SecondStepWithoutCloseTag(b: string)
    requires PlainStatement(b)
    ensures AddHarakiri(OpenTag + " " + b) == OpenTag + " " + b + " " + Harakiri
  {
    TaggedStatementFacts(b);
    HarakiriAppended(OpenTag + " " + b);
    TrimNoop(OpenTag + " " + b);
  }

  /** With a close tag after the statement, the self-delete directive goes between them. */
  lemma SecondStepBeforeCloseTag(b: string)
    requires PlainStatement(b)
    ensures AddHarakiri(OpenTag + " " + b + " " + CloseTag) ==
      OpenTag + " " + b + " " + Harakiri + " " + CloseTag
  {
    TaggedStatementFacts(b);
    HarakiriBeforeSpacedCloseTag(OpenTag + " " + b);
  }

  /** A trimmed text without close tags, followed by a space and a close tag, gets the directive before the tag. */
  lemma HarakiriBeforeSpacedCloseTag(p: string)
    requires p != [] && !IsWs(p[0]) && !IsWs(p[|p| - 1]) && !Contains(p, CloseTag)
    ensures AddHarakiri(p + " " + CloseTag) == p + " " + Harakiri + " " + CloseTag
  {
    CloseTagFacts();
    var s := p + " " + CloseTag;
    assert OccursAt(CloseTag, CloseTag, 0);
    FirstOccurrenceAfterGap(p, " ", CloseTag, CloseTag);
    assert s[..|p| + 1] == p + " " && s[|p| + 1..] == CloseTag;
    TrimDropsTrailingWs(p, " ");
    TrimNoop(p);
    TrimNoop(CloseTag);
  }

  // ---------------------------------------------------------------------------
  // The three snippet shapes in each of the three modes. With `b` the
  // statement `$x = null;` these are the bundle's own expected scripts.

  lemma ExampleIsPlain()
    ensures PlainStatement("$x = null;")
  {
  }

  /** As prepared for `run`: the tag is added when missing, and a close tag is kept. */
  lemma PreparedForRun(b: string)
    requires PlainStatement(b)
    ensures PreparePhpCode(b, false, false) == OpenTag + " " + b
    ensures PreparePhpCode(OpenTag + " " + b, false, false) == OpenTag + " " + b
    ensures PreparePhpCode(OpenTag + " " + b + " " + CloseTag, false, false) == OpenTag + " " + b + " " + CloseTag
  {
    FirstStepOnBare(b, false);
    FirstStepOnTagged(b, false);
    FirstStepOnClosed(b, false);
  }

  /** As prepared for `runStandalone`: the error-reporting directive follows the tag. */
  lemma PreparedForRunStandalone(b: string)
    requires PlainStatement(b)
    ensures PreparePhpCode(b, true, false) == OpenTag + " " + ErrorReporting + " " + b
    ensures PreparePhpCode(OpenTag + " " + b, true, false) == OpenTag + " " + ErrorReporting + " " + b
    ensures PreparePhpCode(OpenTag + " " + b + " " + CloseTag, true, false) ==
      OpenTag + " " + ErrorReporting + " " + b + " " + CloseTag
  {
    FirstStepOnBare(b, true);
    FirstStepOnTagged(b, true);
    FirstStepOnClosed(b, true);
    Regroup(OpenTag, ErrorReporting, b);
    Regroup(OpenTag, ErrorReporting, b + " " + CloseTag);
    TailGroups(OpenTag, Directive(true), b, CloseTag);
    TailGroups(OpenTag + " " + ErrorReporting + " ", [], b, CloseTag);
  }

  /** As prepared for `runInBackground`: the self-delete directive ends the script or precedes its close tag. */
  lemma PreparedForRunInBackground(b: string)
    requires PlainStatement(b)
    ensures PreparePhpCode(b, false, true) == OpenTag + " " + b + " " + Harakiri
    ensures PreparePhpCode(OpenTag + " " + b, false, true) == OpenTag + " " + b + " " + Harakiri
    ensures PreparePhpCode(OpenTag + " " + b + " " + CloseTag, false, true) ==
      OpenTag + " " + b + " " + Harakiri + " " + CloseTag
  {
    FirstStepOnBare(b, false);
    FirstStepOnTagged(b, false);
    FirstStepOnClosed(b, false);
    SecondStepWithoutCloseTag(b);
    SecondStepBeforeCloseTag(b);
  }
}
