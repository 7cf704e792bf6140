/**
  The OCR-text to Markdown converter (`convertToMarkdown` in
  app/lib/visionService.ts).

  The text is split on line feeds and walked once from left to right. Each
  line is classified from its own trimmed text, its two raw neighbours and
  one flag, `inList`, and emits one fragment. `Format` is the specification
  (fragments concatenated in input order), `ConvertToMarkdown` the loop that
  the source runs.
*/
module Markdown {

  import opened Text

  /** The trimmed length from which a line is never a heading. */
  const MaxHeadingLength := 50

  const BulletPrefix: Str := Lit("- ")
  const ChapterMarker: Str := Lit("# ")
  const EnumeratorMarker: Str := Lit("## ")
  const SubheadingMarker: Str := Lit("### ")
  const ChapterWord: Str := Lit("chapter")
  const SectionWord: Str := Lit("section")
  const PartWord: Str := Lit("part")

  type HeadingLevel = l: int | 1 <= l <= 3 witness 1

  datatype Kind = Blank | Heading(level: HeadingLevel) | Bullet | Numbered | Paragraph

  // ---------------------------------------------------------------------------
  // The regular expressions of the classifier

  function AsciiLower(c: CodeUnit): CodeUnit {
    if 0x41 <= c <= 0x5A then c + 0x20 else c
  }

  /**
    `s` starts with the lower-case ASCII `word` under the `i` flag. Without
    the `u` flag, case-insensitive matching folds only ASCII letters onto
    ASCII letters, so this is ASCII case folding.
  */
  predicate StartsWithIgnoringCase(s: Str, word: Str) {
    |word| <= |s| && forall k :: 0 <= k < |word| ==> AsciiLower(s[k]) == word[k]
  }

  /**
    `第\s*\d+\s*章` or `第\s*\d+\s*節` at the start of `s`. White space and
    digits are disjoint classes, so the greedy match is the only one.
  */
  predicate StartsWithChapterNumber(s: Str) {
    |s| > 0 && s[0] == Unit('第') &&
    var digits := TrimStart(s[1..]);
    |digits| > 0 && IsDigit(digits[0]) &&
    var tail := TrimStart(DropDigits(digits));
    |tail| > 0 && (tail[0] == Unit('章') || tail[0] == Unit('節'))
  }

  /** `/^(chapter|section|part|第\s*\d+\s*章|第\s*\d+\s*節)/i` */
  predicate IsChapterMarker(s: Str) {
    StartsWithIgnoringCase(s, ChapterWord)
    || StartsWithIgnoringCase(s, SectionWord)
    || StartsWithIgnoringCase(s, PartWord)
    || StartsWithChapterNumber(s)
  }

  /**
    `\d+(\.\d+)*\s+` at the start of `s`. After a maximal run of digits the
    match either continues with a dot and a digit or needs white space.
  */
  predicate StartsWithDottedNumber(s: Str)
    decreases |s|
  {
    |s| > 0 && IsDigit(s[0]) &&
    var t := DropDigits(s);
    (|t| > 0 && IsWs(t[0]))
    || (|t| >= 2 && t[0] == Unit('.') && IsDigit(t[1]) && StartsWithDottedNumber(t[1..]))
  }

  /** `/^(\d+(\.\d+)*\s+|[A-Z]\.\s+)/`, case-sensitive. */
  predicate IsEnumerator(s: Str) {
    StartsWithDottedNumber(s)
    || (|s| >= 3 && 0x41 <= s[0] <= 0x5A && s[1] == Unit('.') && IsWs(s[2]))
  }

  /** The class `[\s•\-*+◦○●■□▪▫]`. */
  predicate IsBulletMarker(c: CodeUnit) {
    IsWs(c) || c == Unit('•') || c == Unit('-') || c == Unit('*') || c == Unit('+')
    || c == Unit('◦') || c == Unit('○') || c == Unit('●') || c == Unit('■')
    || c == Unit('□') || c == Unit('▪') || c == Unit('▫')
  }

  /** `/^[\s•\-*+◦○●■□▪▫]\s+/` */
  predicate IsBulletLine(s: Str) {
    |s| >= 2 && IsBulletMarker(s[0]) && IsWs(s[1])
  }

  /** The line with the match of the bullet pattern (marker and white-space run) removed. */
  function BulletText(s: Str): Str
    requires IsBulletLine(s)
  {
    TrimStart(s[1..])
  }

  /** `/^\d+[.)]\s+/` */
  predicate IsNumberedLine(s: Str) {
    |s| > 0 && IsDigit(s[0]) &&
    var t := DropDigits(s);
    |t| >= 2 && (t[0] == Unit('.') || t[0] == Unit(')')) && IsWs(t[1])
  }

  // ---------------------------------------------------------------------------
  // Classification and emission

  /** The position test of a heading: blank or nothing before, short, and nothing longer after. */
  predicate IsHeadingPosition(lines: seq<Str>, i: nat)
    requires i < |lines|
  {
    var line := Trim(lines[i]);
    (i == 0 || Trim(lines[i - 1]) == [])
    && |line| < MaxHeadingLength
    && (i == |lines| - 1 || Trim(lines[i + 1]) == [] || |Trim(lines[i + 1])| < |line|)
  }

  function HeadingLevelOf(line: Str): HeadingLevel {
    if IsChapterMarker(line) then 1 else if IsEnumerator(line) then 2 else 3
  }

  /** The branch the loop body takes for line `i`, tried in the source's order. */
  function Classify(lines: seq<Str>, i: nat): Kind
    requires i < |lines|
  {
    var line := Trim(lines[i]);
    if line == [] then Blank
    else if IsHeadingPosition(lines, i) then Heading(HeadingLevelOf(line))
    else BodyKind(line)
  }

  /** The kind of a line that is neither blank nor in heading position. */
  function BodyKind(line: Str): Kind {
    if IsBulletLine(line) then Bullet
    else if IsNumberedLine(line) then Numbered
    else Paragraph
  }

  function HeadingMarker(level: HeadingLevel): Str {
    if level == 1 then ChapterMarker else if level == 2 then EnumeratorMarker else SubheadingMarker
  }

  /** What one line appends, given its kind, its trimmed text and `inList` before it. */
  function Emit(kind: Kind, line: Str, inList: bool): Str
    requires kind.Bullet? ==> IsBulletLine(line)
  {
    match kind
    case Blank => [NL]
    case Heading(level) => HeadingMarker(level) + line + [NL, NL]
    case Bullet => (if inList then [] else [NL]) + (BulletPrefix + BulletText(line) + [NL])
    case Numbered => (if inList then [] else [NL]) + (line + [NL])
    case Paragraph => (if inList then [NL] else []) + (line + [NL])
  }

  /** `inList` after a line; the heading branch does not touch it. */
  function NextInList(kind: Kind, inList: bool): bool {
    match kind
    case Blank => false
    case Heading(_) => inList
    case Bullet => true
    case Numbered => true
    case Paragraph => false
  }

  /** The value of `inList` when line `i` is reached. */
  function InListBefore(lines: seq<Str>, i: nat): bool
    requires i <= |lines|
  {
    if i == 0 then false else NextInList(Classify(lines, i - 1), InListBefore(lines, i - 1))
  }

  function Fragment(lines: seq<Str>, i: nat): Str
    requires i < |lines|
  {
    Emit(Classify(lines, i), Trim(lines[i]), InListBefore(lines, i))
  }

  /** The output after the first `n` lines. */
  function Rendered(lines: seq<Str>, n: nat): Str
    requires n <= |lines|
  {
    if n == 0 then [] else Rendered(lines, n - 1) + Fragment(lines, n - 1)
  }

  function Lines(text: Str): seq<Str> {
    Split(text, [NL])
  }

  /** The converter's result, as a function of its input. */
  function Format(text: Str): Str {
    Rendered(Lines(text), |Lines(text)|)
  }

  // ---------------------------------------------------------------------------
  // The converter as the source runs it

  method ConvertToMarkdown(text: Str) returns (markdown: Str)
    ensures markdown == Format(text)
  {
    var lines := Split(text, [NL]);
    markdown := [];
    var inList := false;
    for i := 0 to |lines|
      invariant markdown == Rendered(lines, i)
      invariant inList == InListBefore(lines, i)
    {
      var emitted;
      emitted, inList := ConvertLine(lines, i, inList);
      markdown := markdown + emitted;
    }
  }

  /** One pass of the loop body: what line `i` appends, and `inList` afterwards. */
  method ConvertLine(lines: seq<Str>, i: nat, inList: bool) returns (emitted: Str, inListAfter: bool)
    requires i < |lines|
    ensures emitted == Emit(Classify(lines, i), Trim(lines[i]), inList)
    ensures inListAfter == NextInList(Classify(lines, i), inList)
  {
    var line := Trim(lines[i]);

    if line == [] {
      return [NL], false;
    }

    if (i == 0 || Trim(lines[i - 1]) == [])
      && |line| < MaxHeadingLength
      && (i == |lines| - 1 || Trim(lines[i + 1]) == [] || |Trim(lines[i + 1])| < |line|)
    {
      assert IsHeadingPosition(lines, i);
      emitted := ConvertHeading(line);
      return emitted, inList;
    }

    assert !IsHeadingPosition(lines, i);
    emitted, inListAfter := ConvertBodyLine(line, inList);
  }

  /** A line in heading position: the level follows from its text. */
  method ConvertHeading(line: Str) returns (emitted: Str)
    ensures emitted == HeadingMarker(HeadingLevelOf(line)) + line + [NL, NL]
  {
    if IsChapterMarker(line) {
      emitted := ChapterMarker + line + [NL, NL];
    } else if IsEnumerator(line) {
      emitted := EnumeratorMarker + line + [NL, NL];
    } else {
      emitted := SubheadingMarker + line + [NL, NL];
    }
  }

  /** A non-blank line outside heading position: a bullet, a numbered item or a paragraph. */
  method ConvertBodyLine(line: Str, inList: bool) returns (emitted: Str, inListAfter: bool)
    ensures emitted == Emit(BodyKind(line), line, inList)
    ensures inListAfter == NextInList(BodyKind(line), inList)
  {
    emitted, inListAfter := [], inList;

    if IsBulletLine(line) {
      if !inListAfter {
        emitted := emitted + [NL];
        inListAfter := true;
      }
      emitted := emitted + (BulletPrefix + TrimStart(line[1..]) + [NL]);
      return;
    }

    if IsNumberedLine(line) {
      if !inListAfter {
        emitted := emitted + [NL];
        inListAfter := true;
      }
      emitted := emitted + (line + [NL]);
      return;
    }

    if inListAfter {
      emitted := emitted + [NL];
      inListAfter := false;
    }
    emitted := emitted + (line + [NL]);
  }

  // ---------------------------------------------------------------------------
  // Properties of the converter

  /** Concatenation of a sequence of fragments, in order. */
  function Concat(parts: seq<Str>): Str {
    if parts == [] then [] else Concat(parts[..|parts| - 1]) + parts[|parts| - 1]
  }

  function Fragments(lines: seq<Str>): seq<Str> {
    seq(|lines|, i requires 0 <= i < |lines| => Fragment(lines, i))
  }

  /** Every fragment is non-empty and ends with a line feed. */
  lemma FragmentEndsWithNewline(lines: seq<Str>, i: nat)
    requires i < |lines|
    ensures var f := Fragment(lines, i); |f| > 0 && f[|f| - 1] == NL
  {
    var kind := Classify(lines, i);
    var f := Emit(kind, Trim(lines[i]), InListBefore(lines, i));
    assert f[|f| - 1] == NL;
  }

  lemma {:induction false} RenderedIsConcat(lines: seq<Str>, n: nat)
    requires n <= |lines|
    ensures Rendered(lines, n) == Concat(Fragments(lines)[..n])
  {
    if n > 0 {
      RenderedIsConcat(lines, n - 1);
      ConcatStep(Fragments(lines), n);
    }
  }

  /** Concatenating one more part appends it. */
  lemma ConcatStep(parts: seq<Str>, n: nat)
    requires 0 < n <= |parts|
    ensures Concat(parts[..n]) == Concat(parts[..n - 1]) + parts[n - 1]
  {
    assert parts[..n][..n - 1] == parts[..n - 1];
  }

  /**
    The output is the concatenation, in input order, of one fragment per
    line-feed-separated input line, and it ends with a line feed.
  */
  lemma FormatIsConcatOfFragments(text: Str)
    ensures var lines := Lines(text);
      Format(text) == Concat(Fragments(lines)) && |Fragments(lines)| == |lines| >= 1
    ensures |Format(text)| > 0 && Format(text)[|Format(text)| - 1] == NL
  {
    var lines := Lines(text);
    RenderedIsConcat(lines, |lines|);
    assert Fragments(lines)[..|lines|] == Fragments(lines);
    FragmentEndsWithNewline(lines, |lines| - 1);
  }

  /** The empty text is one empty line and becomes a single line feed. */
  lemma FormatOfEmptyText()
    ensures Format([]) == [NL]
  {
    assert FirstIndex([], [NL]).None?;
    assert Lines([]) == [[]];
  }

  /** A line that trims to nothing emits exactly one line feed and ends any list. */
  lemma BlankLineFragment(lines: seq<Str>, i: nat)
    requires i < |lines| && AllWs(lines[i])
    ensures Fragment(lines, i) == [NL] && !InListBefore(lines, i + 1)
  {
    TrimEmptyIffAllWs(lines[i]);
  }

  /**
    A line is a heading exactly when it is not blank, it is first or follows
    an all-white-space line, it is shorter than 50 code units once trimmed,
    and it is last, precedes an all-white-space line, or precedes a line
    that is shorter once trimmed.
  */
  lemma HeadingCharacterization(lines: seq<Str>, i: nat)
    requires i < |lines|
    ensures var line := Trim(lines[i]);
      Classify(lines, i).Heading? <==>
        !AllWs(lines[i])
        && (i == 0 || AllWs(lines[i - 1]))
        && |line| < MaxHeadingLength
        && (i == |lines| - 1 || AllWs(lines[i + 1]) || |Trim(lines[i + 1])| < |line|)
  {
    TrimEmptyIffAllWs(lines[i]);
    if i > 0 { TrimEmptyIffAllWs(lines[i - 1]); }
    if i < |lines| - 1 { TrimEmptyIffAllWs(lines[i + 1]); }
  }

  /** A line of 50 or more code units after trimming is never a heading. */
  lemma LongLineNeverHeading(lines: seq<Str>, i: nat)
    requires i < |lines| && |Trim(lines[i])| >= MaxHeadingLength
    ensures !Classify(lines, i).Heading?
  {
  }

  /**
    A heading is never inside a list: the line before it was blank (or there
    was none), and the heading branch leaves `inList` false.
  */
  lemma HeadingOutsideList(lines: seq<Str>, i: nat)
    requires i < |lines| && Classify(lines, i).Heading?
    ensures !InListBefore(lines, i) && !InListBefore(lines, i + 1)
  {
    if i > 0 {
      assert Classify(lines, i - 1) == Blank;
    }
  }

  /**
    The shape of a heading: level 1 for a chapter, section or part marker,
    level 2 for an enumerator, level 3 otherwise; the trimmed line follows
    the marker and a blank line follows it.
  */
  lemma HeadingFragment(lines: seq<Str>, i: nat)
    requires i < |lines| && Classify(lines, i).Heading?
    ensures var line := Trim(lines[i]);
      && (Fragment(lines, i) == ChapterMarker + line + [NL, NL] <==> IsChapterMarker(line))
      && (Fragment(lines, i) == EnumeratorMarker + line + [NL, NL] <==> !IsChapterMarker(line) && IsEnumerator(line))
      && (Fragment(lines, i) == SubheadingMarker + line + [NL, NL] <==> !IsChapterMarker(line) && !IsEnumerator(line))
  {
    var line := Trim(lines[i]);
    var f := Fragment(lines, i);
    assert ChapterMarker[0] == EnumeratorMarker[0] == SubheadingMarker[0] == Unit('#');
    assert ChapterMarker[1] == Unit(' ') != EnumeratorMarker[1] == SubheadingMarker[1];
    assert EnumeratorMarker[2] == Unit(' ') != SubheadingMarker[2];
    if IsChapterMarker(line) {
      assert f[1] == Unit(' ');
    } else if IsEnumerator(line) {
      assert f[1] == Unit('#') && f[2] == Unit(' ');
    } else {
      assert f[1] == Unit('#') && f[2] == Unit('#');
    }
  }

  /**
    A bullet line becomes `- ` and the text after the marker and its
    white-space run, which is non-empty and starts with no white space; a
    blank line precedes it exactly when no list was open, and a list is open
    afterwards.
  */
  lemma BulletFragment(lines: seq<Str>, i: nat)
    requires i < |lines| && Classify(lines, i) == Bullet
    ensures var line := Trim(lines[i]); var rest := BulletText(line);
      && rest != [] && !IsWs(rest[0])
      && line == line[..|line| - |rest|] + rest
      && (forall k :: 1 <= k < |line| - |rest| ==> IsWs(line[k]))
      && Fragment(lines, i) == (if InListBefore(lines, i) then [] else [NL]) + (BulletPrefix + rest + [NL])
      && InListBefore(lines, i + 1)
  {
    var line := Trim(lines[i]);
    TrimSpec(lines[i]);
    var tail := line[1..];
    TrimStartShape(tail);
    var rest := BulletText(line);
    assert rest == tail[|tail| - |rest|..];
    assert tail[|tail| - 1] == line[|line| - 1];
    assert !IsWs(tail[|tail| - 1]);
    assert rest != [];
    assert forall k :: 1 <= k < |line| - |rest| ==> IsWs(line[k]) by {
      forall k | 1 <= k < |line| - |rest|
        ensures IsWs(line[k])
      {
        assert line[k] == tail[k - 1];
      }
    }
    assert line[..|line| - |rest|] + rest == line;
  }

  /** A numbered line is emitted as it is, trimmed, opening a list if none was open. */
  lemma NumberedFragment(lines: seq<Str>, i: nat)
    requires i < |lines| && Classify(lines, i) == Numbered
    ensures Fragment(lines, i) == (if InListBefore(lines, i) then [] else [NL]) + (Trim(lines[i]) + [NL])
    ensures InListBefore(lines, i + 1)
  {
  }

  /** A paragraph line is emitted trimmed, closing a list with a blank line if one was open. */
  lemma ParagraphFragment(lines: seq<Str>, i: nat)
    requires i < |lines| && Classify(lines, i) == Paragraph
    ensures Fragment(lines, i) == (if InListBefore(lines, i) then [NL] else []) + (Trim(lines[i]) + [NL])
    ensures !InListBefore(lines, i + 1)
  {
  }

  /**
    Consecutive list items form one block: after a bullet or numbered line,
    a bullet line emits no blank line before itself.
  */
  lemma ListItemsStayTogether(lines: seq<Str>, i: nat)
    requires i + 1 < |lines| && (Classify(lines, i) == Bullet || Classify(lines, i) == Numbered)
    requires Classify(lines, i + 1) == Bullet
    ensures Fragment(lines, i + 1) == BulletPrefix + BulletText(Trim(lines[i + 1])) + [NL]
  {
  }

  /** The first `n` lines, each trimmed and ended with a line feed. */
  function VerbatimLines(lines: seq<Str>, n: nat): seq<Str>
    requires n <= |lines|
  {
    seq(n, k requires 0 <= k < n => Trim(lines[k]) + [NL])
  }

  /**
    Text made only of blank and paragraph lines is emitted line by line,
    trimmed, with no heading or list markers and no extra blank lines.
  */
  lemma ParagraphsOnlyVerbatim(lines: seq<Str>, n: nat)
    requires n <= |lines|
    requires forall k :: 0 <= k < |lines| ==> Classify(lines, k) in {Blank, Paragraph}
    ensures !InListBefore(lines, n)
    ensures Rendered(lines, n) == Concat(VerbatimLines(lines, n))
  {
    NoListOpens(lines, n);
    forall k | 0 <= k < n ensures Fragments(lines)[k] == VerbatimLines(lines, n)[k] {
      NoListOpens(lines, k);
      VerbatimFragment(lines, k);
    }
    assert Fragments(lines)[..n] == VerbatimLines(lines, n);
    RenderedIsConcat(lines, n);
  }

  /** Blank and paragraph lines never open a list. */
  lemma {:induction false} NoListOpens(lines: seq<Str>, n: nat)
    requires n <= |lines|
    requires forall k :: 0 <= k < |lines| ==> Classify(lines, k) in {Blank, Paragraph}
    ensures !InListBefore(lines, n)
  {
    if n > 0 {
      NoListOpens(lines, n - 1);
      assert Classify(lines, n - 1) in {Blank, Paragraph};
    }
  }

  /** Outside a list, a blank or paragraph line is emitted trimmed and leaves no list open. */
  lemma VerbatimFragment(lines: seq<Str>, i: nat)
    requires i < |lines| && Classify(lines, i) in {Blank, Paragraph} && !InListBefore(lines, i)
    ensures Fragment(lines, i) == Trim(lines[i]) + [NL] && !InListBefore(lines, i + 1)
  {
    if Classify(lines, i) == Blank {
      assert Trim(lines[i]) == [];
    }
  }
}
