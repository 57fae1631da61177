/**
 The programme marker of a video description: printed by youtube_upload.build_description,
 read back by _config.parse_program_marker (both under pipeline/scripts).

 The pattern `^program:\s*([A-Za-z0-9_-]+)\s*$` is matched character by character in
 multi-line mode, where `\s` crosses line ends.
 */
module ProgramMarker {
  import opened Options
  import opened PyText

  /** A Python argument that may not be a string. */
  datatype PyValue = Str(value: string) | Other

  const KEY := "program:"
  const DESCRIPTION_MAX: nat := 4900
  const CREDIT := "由 tech-news-to-video pipeline " + "自動生成(Gemini 選題 → NotebookLM " + "Video Overview)。"

  predicate IsSlugChar(c: char) {
    'A' <= c <= 'Z' || 'a' <= c <= 'z' || '0' <= c <= '9' || c == '_' || c == '-'
  }

  predicate IsSlug(s: string) {
    s != "" && forall i :: 0 <= i < |s| ==> IsSlugChar(s[i])
  }

  // ---------- Printing ----------

  function Marker(slug: PyValue): string {
    if slug.Str? && IsSlug(Strip(slug.value)) then KEY + " " + Strip(slug.value) else ""
  }

  /** The fixed lines after `credit`, joined by line ends. */
  function Tail(credit: string, slug: PyValue): string {
    "\n" + credit + (if Marker(slug) == "" then "" else "\n" + Marker(slug))
  }

  function BuildDescription(head: string, slug: PyValue): string {
    Describe(CREDIT, head, slug)
  }

  function Describe(credit: string, head: string, slug: PyValue): string {
    var tail := Tail(credit, slug);
    Take(Take(head, DESCRIPTION_MAX - |tail|) + tail, DESCRIPTION_MAX)
  }

  // ---------- Parsing ----------

  function RunEnd(s: string, i: nat, inRun: char -> bool): (end: nat)
    requires i <= |s|
    ensures i <= end <= |s|
    ensures forall k :: i <= k < end ==> inRun(s[k])
    ensures end < |s| ==> !inRun(s[end])
    decreases |s| - i
  {
    if i < |s| && inRun(s[i]) then RunEnd(s, i + 1, inRun) else i
  }

  predicate AtLineStart(s: string, i: nat) {
    i == 0 || (i <= |s| && s[i - 1] == '\n')
  }

  predicate AtLineEnd(s: string, i: nat) {
    i == |s| || (i < |s| && s[i] == '\n')
  }

  /** The last line end in `s[from..to + 1]`: where a greedy `\s*$` stops. */
  function LastLineEnd(s: string, from: nat, to: nat): (end: Option<nat>)
    requires from <= to <= |s|
    ensures end.None? ==> forall k :: from <= k <= to ==> !AtLineEnd(s, k)
    ensures end.Some? ==> from <= end.value <= to && AtLineEnd(s, end.value)
    ensures end.Some? ==> forall k :: end.value < k <= to ==> !AtLineEnd(s, k)
  {
    if AtLineEnd(s, to) then Some(to)
    else if from == to then None
    else LastLineEnd(s, from, to - 1)
  }

  datatype Match = Match(end: nat, slug: string)

  function MatchAt(s: string, i: nat): (r: Option<Match>)
    ensures r.Some? ==> i < r.value.end <= |s|
  {
    if !AtLineStart(s, i) || |s| < i + |KEY| || s[i..i + |KEY|] != KEY then None
    else
      var a := RunEnd(s, i + |KEY|, IsSpace);
      var b := RunEnd(s, a, IsSlugChar);
      if a == b then None
      else
        match LastLineEnd(s, b, RunEnd(s, b, IsSpace))
        case None => None
        case Some(end) => Some(Match(end, s[a..b]))
  }

  /** The pattern, tried at each position of `s`. */
  function Pattern(s: string): nat -> Option<Match> {
    (i: nat) => MatchAt(s, i)
  }

  ghost predicate Forward(at: nat -> Option<Match>) {
    forall i: nat :: at(i).Some? ==> i < at(i).value.end
  }

  /** `finditer` over `n` characters from position `i`: the captured slugs, left to right, no overlaps. */
  function FindAll(at: nat -> Option<Match>, n: nat, i: nat): seq<string>
    requires Forward(at)
    decreases n - i
  {
    if i >= n then []
    else
      match at(i)
      case None => FindAll(at, n, i + 1)
      case Some(m) => [m.slug] + FindAll(at, n, m.end)
  }

  function ParseProgramMarker(description: PyValue): string {
    if description.Other? then ""
    else
      var found := FindAll(Pattern(description.value), |description.value|, 0);
      if found == [] then "" else found[|found| - 1]
  }

  // ---------- The matcher is the pattern ----------

  /** `s[i..j]` matches, with the slug at `s[a..b]`. */
  predicate Matches(s: string, i: nat, a: nat, b: nat, j: nat) {
    && AtLineStart(s, i)
    && i + |KEY| <= a <= b <= j <= |s|
    && s[i..i + |KEY|] == KEY
    && AllSpace(s[i + |KEY|..a])
    && IsSlug(s[a..b])
    && AllSpace(s[b..j])
    && AtLineEnd(s, j)
  }

  lemma {:induction false} RunIsUnique(s: string, i: nat, inRun: char -> bool, end: nat)
    requires i <= end <= |s| && (forall k :: i <= k < end ==> inRun(s[k])) && (end < |s| ==> !inRun(s[end]))
    ensures RunEnd(s, i, inRun) == end
    decreases |s| - i
  {
    if i < end {
      RunIsUnique(s, i + 1, inRun, end);
    }
  }

  lemma {:induction false} SpacesFrom(s: string, i: nat, j: nat)
    requires i <= j <= |s| && AllSpace(s[i..j])
    ensures forall k :: i <= k < j ==> IsSpace(s[k])
  {
    forall k | i <= k < j ensures IsSpace(s[k]) {
      assert s[k] == s[i..j][k - i];
    }
  }

  lemma {:induction false} SlugFrom(s: string, i: nat, j: nat)
    requires i <= j <= |s| && IsSlug(s[i..j])
    ensures i < j && forall k :: i <= k < j ==> IsSlugChar(s[k])
  {
    forall k | i <= k < j ensures IsSlugChar(s[k]) {
      assert s[k] == s[i..j][k - i];
    }
  }

  lemma {:induction false} SpansAreRuns(s: string, i: nat, a: nat, b: nat, j: nat)
    requires Matches(s, i, a, b, j)
    ensures RunEnd(s, i + |KEY|, IsSpace) == a && RunEnd(s, a, IsSlugChar) == b && a < b
    ensures j <= RunEnd(s, b, IsSpace)
  {
    SpacesFrom(s, i + |KEY|, a);
    SlugFrom(s, a, b);
    SpacesFrom(s, b, j);
    RunIsUnique(s, i + |KEY|, IsSpace, a);
    assert b < |s| ==> !IsSlugChar(s[b]);
    RunIsUnique(s, a, IsSlugChar, b);
    RunReaches(s, b, IsSpace, j);
  }

  /** Whatever way the pattern matches at `i`, it captures the same slug, and the matcher finds it
      with the longest end. */
  lemma {:induction false} MatcherComplete(s: string, i: nat, a: nat, b: nat, j: nat)
    requires Matches(s, i, a, b, j)
    ensures MatchAt(s, i).Some? && MatchAt(s, i).value.slug == s[a..b] && j <= MatchAt(s, i).value.end
  {
    SpansAreRuns(s, i, a, b, j);
    assert AtLineEnd(s, j);
  }

  lemma {:induction false} RunReaches(s: string, i: nat, inRun: char -> bool, j: nat)
    requires i <= j <= |s| && forall k :: i <= k < j ==> inRun(s[k])
    ensures j <= RunEnd(s, i, inRun)
  {
  }

  lemma {:induction false} MatcherSound(s: string, i: nat)
    requires MatchAt(s, i).Some?
    ensures var m := MatchAt(s, i).value;
            exists a: nat, b: nat :: Matches(s, i, a, b, m.end) && m.slug == s[a..b]
  {
    var a := RunEnd(s, i + |KEY|, IsSpace);
    var b := RunEnd(s, a, IsSlugChar);
    assert Matches(s, i, a, b, MatchAt(s, i).value.end);
  }

  // ---------- The parser returns the last match ----------

  /** The key opens with six slug characters and ends with the colon, and holds no line end. */
  lemma {:induction false} KeyChars()
    ensures |KEY| == 8 && KEY[7] == ':' && !IsSpace(KEY[0])
    ensures forall k :: 0 <= k < 7 ==> IsSlugChar(KEY[k])
    ensures forall k :: 0 <= k < 8 ==> !IsSpace(KEY[k])
  {
  }

  /** Nothing that starts inside a match is a match, so skipping over it loses nothing. */
  lemma {:induction false} NoStartInside(s: string, i: nat, k: nat)
    requires MatchAt(s, i).Some? && i < k < MatchAt(s, i).value.end
    ensures MatchAt(s, k).None?
  {
    KeyChars();
    var a := RunEnd(s, i + |KEY|, IsSpace);
    var b := RunEnd(s, a, IsSlugChar);
    if k < i + |KEY| {
      assert s[k - 1] == s[i..i + |KEY|][k - 1 - i];
    } else if k < a || b <= k {
      assert IsSpace(s[k]);
      if k + |KEY| <= |s| {
        assert s[k..k + |KEY|][0] == s[k];
      }
    } else if k == a && k + |KEY| <= |s| && s[k..k + |KEY|] == KEY {
      KeyStopsSlug(s, k);
    }
  }

  lemma {:induction false} KeyStopsSlug(s: string, k: nat)
    requires k + |KEY| <= |s| && s[k..k + |KEY|] == KEY
    ensures RunEnd(s, k, IsSlugChar) == k + 7 && s[k + 7] == ':'
  {
    KeyChars();
    forall n | k <= n < k + 8 ensures s[n] == KEY[n - k] {
      assert s[n] == s[k..k + |KEY|][n - k];
    }
    RunIsUnique(s, k, IsSlugChar, k + 7);
  }

  ghost predicate NoneFrom(at: nat -> Option<Match>, i: nat) {
    forall k: nat :: i <= k ==> at(k).None?
  }

  ghost predicate NoneAfter(s: string, i: nat) {
    forall k: nat :: i <= k ==> MatchAt(s, k).None?
  }

  ghost predicate NoOverlap(at: nat -> Option<Match>) {
    forall i: nat, k: nat :: at(i).Some? && i < k < at(i).value.end ==> at(k).None?
  }

  lemma {:induction false} FindAllLast(at: nat -> Option<Match>, n: nat, i: nat, last: nat)
    requires Forward(at) && NoOverlap(at)
    requires i <= last < n && at(last).Some? && NoneFrom(at, last + 1)
    ensures var found := FindAll(at, n, i); found != [] && found[|found| - 1] == at(last).value.slug
    decreases n - i
  {
    var here := at(i);
    if i == last {
      FindAllNone(at, n, here.value.end);
    } else if here.None? {
      FindAllLast(at, n, i + 1, last);
    } else {
      FindAllLast(at, n, here.value.end, last);
    }
  }

  lemma {:induction false} FindAllNone(at: nat -> Option<Match>, n: nat, i: nat)
    requires Forward(at) && NoneFrom(at, i)
    ensures FindAll(at, n, i) == []
    decreases n - i
  {
    if i < n {
      FindAllNone(at, n, i + 1);
    }
  }

  lemma {:induction false} PatternNeverOverlaps(s: string)
    ensures NoOverlap(Pattern(s))
  {
    forall i: nat, k: nat | Pattern(s)(i).Some? && i < k < Pattern(s)(i).value.end
      ensures Pattern(s)(k).None?
    {
      NoStartInside(s, i, k);
    }
  }

  /** The parser returns the slug of the last line the pattern matches anywhere in the text, and
      the empty string when there is none. */
  lemma {:induction false} ParsesLastMatch(s: string)
    ensures NoneAfter(s, 0) ==> ParseProgramMarker(Str(s)) == ""
    ensures forall last: nat :: MatchAt(s, last).Some? && NoneAfter(s, last + 1) ==>
              ParseProgramMarker(Str(s)) == MatchAt(s, last).value.slug
  {
    PatternNeverOverlaps(s);
    if NoneAfter(s, 0) {
      assert NoneFrom(Pattern(s), 0);
      FindAllNone(Pattern(s), |s|, 0);
    }
    forall last: nat | MatchAt(s, last).Some? && NoneAfter(s, last + 1)
      ensures ParseProgramMarker(Str(s)) == MatchAt(s, last).value.slug
    {
      assert Pattern(s)(last) == MatchAt(s, last) && NoneFrom(Pattern(s), last + 1);
      FindAllLast(Pattern(s), |s|, 0, last);
    }
  }

  // ---------- The round trip ----------

  /** Any text followed by a marker line. */
  lemma {:induction false} MarkerLineParses(above: string, clean: string)
    requires IsSlug(clean)
    ensures ParseProgramMarker(Str(above + "\n" + (KEY + " " + clean))) == clean
  {
    KeyChars();
    var line := KEY + " " + clean;
    var s := above + "\n" + line;
    var k := |above| + 1;
    forall n | k <= n < |s| ensures s[n] == line[n - k] && s[n] != '\n' {
    }
    assert s[k..k + |KEY|] == KEY;
    assert s[k + |KEY|..k + |KEY| + 1] == " ";
    assert s[k + |KEY| + 1..|s|] == clean;
    assert s[|s|..|s|] == "";
    MatcherComplete(s, k, k + |KEY| + 1, |s|, |s|);
    NoneInLastLine(s, k);
    ParsesLastMatch(s);
  }

  lemma {:induction false} NoneInLastLine(s: string, k: nat)
    requires forall n :: k <= n < |s| ==> s[n] != '\n'
    ensures NoneAfter(s, k + 1)
  {
  }

  /** For every head text, forged marker lines and any length included, the description keeps its
      whole tail, stays within the limit and reads back as the stripped slug. */
  lemma {:induction false} RoundTrip(head: string, slug: PyValue)
    requires Marker(slug) != "" && |Tail(CREDIT, slug)| <= DESCRIPTION_MAX
    ensures var description, tail := BuildDescription(head, slug), Tail(CREDIT, slug);
            && |description| <= DESCRIPTION_MAX
            && |tail| <= |description| && description[|description| - |tail|..] == tail
            && description[..|description| - |tail|] == Take(head, DESCRIPTION_MAX - |tail|)
            && ParseProgramMarker(Str(description)) == Strip(slug.value)
  {
    DescribeRoundTrip(CREDIT, head, slug);
  }

  lemma {:induction false} DescribeRoundTrip(credit: string, head: string, slug: PyValue)
    requires Marker(slug) != "" && |Tail(credit, slug)| <= DESCRIPTION_MAX
    ensures var description, tail := Describe(credit, head, slug), Tail(credit, slug);
            && |description| <= DESCRIPTION_MAX
            && |tail| <= |description| && description[|description| - |tail|..] == tail
            && description[..|description| - |tail|] == Take(head, DESCRIPTION_MAX - |tail|)
            && ParseProgramMarker(Str(description)) == Strip(slug.value)
  {
    var tail := Tail(credit, slug);
    var kept := Take(head, DESCRIPTION_MAX - |tail|);
    assert Describe(credit, head, slug) == kept + tail;
    TailIsLine(credit, slug, kept);
    MarkerLineParses(kept + "\n" + credit, Strip(slug.value));
  }

  lemma {:induction false} TailIsLine(credit: string, slug: PyValue, kept: string)
    requires Marker(slug) != ""
    ensures kept + Tail(credit, slug) == (kept + "\n" + credit) + "\n" + (KEY + " " + Strip(slug.value))
  {
    Regrouped(kept, "\n", credit, "\n", Marker(slug));
  }

  lemma {:induction false} Regrouped(a: string, b: string, c: string, d: string, e: string)
    ensures a + (b + c + (d + e)) == (a + b + c) + d + e
  {
  }

  lemma {:induction false} CreditIsOneLine()
    ensures '\n' !in CREDIT
  {
  }

  lemma {:induction false} CreditChars()
    ensures |CREDIT| < 100 && Inert(CREDIT)
  {
    CreditIsOneLine();
    assert CREDIT[0] == '由';
    KeyChars();
    assert CREDIT[0] !in KEY;
  }

  /** A tail that is cut in its slug reads back as what is left of it. */
  lemma {:induction false} CutTail(credit: string, clean: string, size: nat)
    requires IsSlug(clean) && |credit| + 11 < size < |credit| + 11 + |clean|
    ensures var cut := Take("\n" + credit + ("\n" + (KEY + " " + clean)), size);
            ParseProgramMarker(Str(cut)) == clean[..size - |credit| - 11]
  {
    var short, above := clean[..size - |credit| - 11], "\n" + credit;
    assert IsSlug(short) by {
      assert short[0] == clean[0];
    }
    MarkerLineParses(above, short);
    var line, shortLine := KEY + " " + clean, KEY + " " + short;
    assert line[..|shortLine|] == shortLine;
    assert (above + ("\n" + line))[..size] == above + "\n" + shortLine;
  }

  lemma {:induction false} LongTailMisreads(credit: string, slug: PyValue)
    requires Marker(slug) != "" && |credit| < 100 && |Tail(credit, slug)| > DESCRIPTION_MAX
    ensures ParseProgramMarker(Str(Describe(credit, "", slug))) != Strip(slug.value)
  {
    var clean, tail := Strip(slug.value), Tail(credit, slug);
    assert Take("", DESCRIPTION_MAX - |tail|) + tail == tail;
    CutTail(credit, clean, DESCRIPTION_MAX);
  }

  // ---------- Without a marker ----------

  /** Text that no match can cross, start in or end in. */
  predicate Inert(text: string) {
    && text != "" && !IsSpace(text[0]) && !IsSlugChar(text[0]) && text[0] !in KEY
    && '\n' !in text
  }

  lemma {:induction false} MatchedChars(s: string, i: nat, a: nat, b: nat, j: nat, n: nat)
    requires Matches(s, i, a, b, j) && i <= n < j
    ensures IsSpace(s[n]) || IsSlugChar(s[n]) || s[n] in KEY
  {
    if n < i + |KEY| {
      assert s[n] == s[i..i + |KEY|][n - i];
    } else if n < a {
      assert s[n] == s[i + |KEY|..a][n - i - |KEY|];
    } else if n < b {
      assert s[n] == s[a..b][n - a];
    } else {
      assert s[n] == s[b..j][n - b];
    }
  }

  lemma {:induction false} SameSlice(above: string, s: string, from: nat, to: nat)
    requires |above| <= |s| && above == s[..|above|] && from <= to <= |above|
    ensures s[from..to] == above[from..to]
  {
  }

  lemma {:induction false} SameMatch(above: string, s: string, i: nat, a: nat, b: nat, j: nat)
    requires |above| < |s| && above == s[..|above|] && s[|above|] == '\n'
    requires i + |KEY| <= a <= b <= j <= |above|
    ensures Matches(above, i, a, b, j) <==> Matches(s, i, a, b, j)
  {
    SameSlice(above, s, i, i + |KEY|);
    SameSlice(above, s, i + |KEY|, a);
    SameSlice(above, s, a, b);
    SameSlice(above, s, b, j);
    assert AtLineStart(above, i) <==> AtLineStart(s, i);
    assert AtLineEnd(above, j) <==> AtLineEnd(s, j);
  }

  /** What is matched before an inert last line is what is matched without it. */
  lemma {:induction false} MatchesAbove(above: string, text: string, s: string, i: nat, a: nat, b: nat, j: nat)
    requires Inert(text) && s == above + "\n" + text
    ensures Matches(above, i, a, b, j) <==> Matches(s, i, a, b, j)
  {
    var wall := |above| + 1;
    assert s[wall] == text[0] && s[|above|] == '\n' && s[..|above|] == above;
    forall n | wall <= n < |s| ensures s[n] != '\n' {
      assert s[n] == text[n - wall];
    }
    if Matches(s, i, a, b, j) {
      if i <= wall < j {
        MatchedChars(s, i, a, b, j, wall);
      }
      SameMatch(above, s, i, a, b, j);
    } else if Matches(above, i, a, b, j) {
      SameMatch(above, s, i, a, b, j);
    }
  }

  lemma {:induction false} MatchAtAbove(above: string, text: string, s: string, i: nat)
    requires Inert(text) && s == above + "\n" + text
    ensures MatchAt(s, i).Some? <==> MatchAt(above, i).Some?
    ensures MatchAt(s, i).Some? ==> MatchAt(s, i).value.slug == MatchAt(above, i).value.slug
  {
    if MatchAt(s, i).Some? {
      MatcherSound(s, i);
      var a: nat, b: nat :| Matches(s, i, a, b, MatchAt(s, i).value.end) && MatchAt(s, i).value.slug == s[a..b];
      MatchesAbove(above, text, s, i, a, b, MatchAt(s, i).value.end);
      MatcherComplete(above, i, a, b, MatchAt(s, i).value.end);
      SameSlice(above, s, a, b);
    } else if MatchAt(above, i).Some? {
      MatcherSound(above, i);
      var a: nat, b: nat :| Matches(above, i, a, b, MatchAt(above, i).value.end)
                         && MatchAt(above, i).value.slug == above[a..b];
      MatchesAbove(above, text, s, i, a, b, MatchAt(above, i).value.end);
      MatcherComplete(s, i, a, b, MatchAt(above, i).value.end);
    }
  }

  lemma {:induction false} LastMatch(s: string, n: nat) returns (last: Option<nat>)
    requires NoneAfter(s, n)
    ensures last.None? ==> NoneAfter(s, 0)
    ensures last.Some? ==> MatchAt(s, last.value).Some? && NoneAfter(s, last.value + 1)
  {
    if n == 0 {
      last := None;
    } else if MatchAt(s, n - 1).Some? {
      last := Some(n - 1);
    } else {
      assert NoneAfter(s, n - 1);
      last := LastMatch(s, n - 1);
    }
  }

  /** A slug without a marker, such as one with a space in it, leaves the description to its head:
      whatever the head says there is believed, and nothing else. */
  lemma {:induction false} UnmarkedReadsHead(head: string, slug: PyValue)
    requires Marker(slug) == ""
    ensures var kept := Take(head, DESCRIPTION_MAX - |Tail(CREDIT, slug)|);
            ParseProgramMarker(Str(BuildDescription(head, slug))) == ParseProgramMarker(Str(kept))
  {
    CreditChars();
    UnmarkedDescription(CREDIT, head, slug);
  }

  lemma {:induction false} UnmarkedDescription(credit: string, head: string, slug: PyValue)
    requires Marker(slug) == "" && Inert(credit) && |credit| < 100
    ensures var kept := Take(head, DESCRIPTION_MAX - |Tail(credit, slug)|);
            ParseProgramMarker(Str(Describe(credit, head, slug))) == ParseProgramMarker(Str(kept))
  {
    var kept := Take(head, DESCRIPTION_MAX - |Tail(credit, slug)|);
    var s := kept + "\n" + credit;
    assert Describe(credit, head, slug) == s;
    SameParse(kept, credit, s);
  }

  lemma {:induction false} SameParse(above: string, text: string, s: string)
    requires Inert(text) && s == above + "\n" + text
    ensures ParseProgramMarker(Str(s)) == ParseProgramMarker(Str(above))
  {
    assert NoneAfter(above, |above|);
    var last := LastMatch(above, |above|);
    forall i: nat
      ensures MatchAt(s, i).Some? <==> MatchAt(above, i).Some?
    {
      MatchAtAbove(above, text, s, i);
    }
    ParsesLastMatch(s);
    ParsesLastMatch(above);
    if last.Some? {
      MatchAtAbove(above, text, s, last.value);
      assert NoneAfter(s, last.value + 1);
    } else {
      assert NoneAfter(s, 0);
    }
  }

  // ---------- When it reads back ----------

  /** What a description should read back as: the stripped slug, or nothing without one. */
  function Named(slug: PyValue): string {
    if slug.Str? then Strip(slug.value) else ""
  }

  ghost predicate ReadsBack(slug: PyValue, head: string) {
    ParseProgramMarker(Str(BuildDescription(head, slug))) == Named(slug)
  }

  lemma {:induction false} ParseOfEmpty(s: string)
    requires s == ""
    ensures ParseProgramMarker(Str(s)) == ""
  {
  }

  /** Without a marker some head misreads: an empty one loses a slug that is there, and a
      forged marker line is believed when there is none. */
  lemma {:induction false} UnmarkedMisreads(slug: PyValue, none: string, forged: string) returns (head: string)
    requires Marker(slug) == "" && none == "" && IsSlug(forged) && |forged| == 1
    ensures !ReadsBack(slug, head)
  {
    head := if Named(slug) == "" then none + "\n" + (KEY + " " + forged) else none;
    CreditChars();
    UnmarkedReadsHead(head, slug);
    assert Take(head, DESCRIPTION_MAX - |Tail(CREDIT, slug)|) == head;
    if Named(slug) == "" {
      MarkerLineParses(none, forged);
    } else {
      ParseOfEmpty(head);
    }
  }

  /** A text that is more than space and, stripped, all ASCII letters, digits, `_` and `-`. */
  predicate Printable(slug: PyValue) {
    && slug.Str? && Strip(slug.value) != ""
    && forall c :: c in Strip(slug.value) ==>
         'A' <= c <= 'Z' || 'a' <= c <= 'z' || '0' <= c <= '9' || c == '_' || c == '-'
  }

  lemma {:induction false} PrintableIsMarked(slug: PyValue)
    ensures Marker(slug) == if Printable(slug) then "program: " + Strip(slug.value) else ""
    ensures Printable(slug) ==> |Tail(CREDIT, slug)| == 1 + |CREDIT| + 1 + 9 + |Strip(slug.value)|
  {
    if Printable(slug) {
      var s := Strip(slug.value);
      forall i | 0 <= i < |s| ensures IsSlugChar(s[i]) {
        assert s[i] in s;
      }
    }
  }

  /** It reads back for every head text exactly when the slug can be printed and the credit, the marker
      and the slug fit the limit: a slug too long for it is itself cut, which already shows on an empty
      head. */
  lemma {:induction false} RoundTripExactly(slug: PyValue)
    ensures (forall head :: ReadsBack(slug, head))
       <==> Printable(slug) && |CREDIT| + |Strip(slug.value)| + 11 <= 4900
  {
    PrintableIsMarked(slug);
    if Marker(slug) == "" {
      assert IsSlug("x");
      var head := UnmarkedMisreads(slug, "", "x");
    } else if |Tail(CREDIT, slug)| <= DESCRIPTION_MAX {
      forall head ensures ReadsBack(slug, head) {
        RoundTrip(head, slug);
      }
    } else {
      CreditChars();
      LongTailMisreads(CREDIT, slug);
      assert !ReadsBack(slug, "");
    }
  }
}
